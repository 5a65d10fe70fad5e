/**
 Greedy clustering of lessons and of workflows: one pass in record order, each record
 joining the first cluster whose anchor it resembles.
 */
module Clusters {
  import opened Basics
  import opened Sorting

  // -- Jaccard similarity ------------------------------------------------------------

  ghost predicate Ascending(s: seq<int>) {
    forall i, j | 0 <= i < j < |s| :: s[i] < s[j]
  }

  function Elements(s: seq<int>): set<int> {
    set x | x in s
  }

  /** Intersection over union, and 0 for two empty sets. */
  function Ratio(a: set<int>, b: set<int>): real {
    if a + b == {} then 0.0 else |a * b| as real / |a + b| as real
  }

  lemma {:induction false} ElementCount(s: seq<int>)
    requires Ascending(s)
    ensures |Elements(s)| == |s|
  {
    if s != [] {
      ElementCount(s[1..]);
      assert Elements(s) == {s[0]} + Elements(s[1..]);
      assert s[0] !in s[1..];
    }
  }

  lemma UnionCount(a: set<int>, b: set<int>)
    ensures |a + b| + |a * b| == |a| + |b|
  {
  }

  lemma DropLess(a: seq<int>, b: seq<int>)
    requires Ascending(a) && Ascending(b) && a != [] && b != [] && a[0] < b[0]
    ensures Elements(a) * Elements(b) == Elements(a[1..]) * Elements(b)
  {
    assert a[0] !in b;
    assert forall x :: x in a <==> x == a[0] || x in a[1..];
  }

  lemma DropEqual(a: seq<int>, b: seq<int>)
    requires Ascending(a) && Ascending(b) && a != [] && b != [] && a[0] == b[0]
    ensures |Elements(a) * Elements(b)| == 1 + |Elements(a[1..]) * Elements(b[1..])|
  {
    assert a[0] !in a[1..] && b[0] !in b[1..];
    assert forall x :: x in a <==> x == a[0] || x in a[1..];
    assert forall x :: x in b <==> x == b[0] || x in b[1..];
    assert Elements(a) * Elements(b) == {a[0]} + Elements(a[1..]) * Elements(b[1..]);
  }

  /** What a merge of two lists counts. */
  function MergeCount(a: seq<int>, b: seq<int>): nat {
    if a == [] || b == [] then 0
    else if a[0] < b[0] then MergeCount(a[1..], b)
    else if b[0] < a[0] then MergeCount(a, b[1..])
    else 1 + MergeCount(a[1..], b[1..])
  }

  /** On sorted, de-duplicated lists that is the size of the intersection. */
  lemma {:induction false} MergeCountsCommon(a: seq<int>, b: seq<int>)
    requires Ascending(a) && Ascending(b)
    ensures MergeCount(a, b) == |Elements(a) * Elements(b)|
  {
    if a == [] || b == [] {
      assert Elements(a) * Elements(b) == {};
    } else if a[0] < b[0] {
      DropLess(a, b);
      MergeCountsCommon(a[1..], b);
    } else if b[0] < a[0] {
      DropLess(b, a);
      MergeCountsCommon(a, b[1..]);
      assert Elements(a) * Elements(b) == Elements(b) * Elements(a);
      assert Elements(a) * Elements(b[1..]) == Elements(b[1..]) * Elements(a);
    } else {
      DropEqual(a, b);
      MergeCountsCommon(a[1..], b[1..]);
    }
  }

  method Shared(left: seq<int>, right: seq<int>) returns (shared: nat)
    ensures shared == MergeCount(left, right)
  {
    var i, j := 0, 0;
    shared := 0;
    assert left[0..] == left && right[0..] == right;
    while i < |left| && j < |right|
      invariant i <= |left| && j <= |right|
      invariant shared + MergeCount(left[i..], right[j..]) == MergeCount(left, right)
    {
      assert left[i..][1..] == left[i + 1..] && right[j..][1..] == right[j + 1..];
      if left[i] < right[j] {
        i := i + 1;
      } else if right[j] < left[i] {
        j := j + 1;
      } else {
        shared, i, j := shared + 1, i + 1, j + 1;
      }
    }
  }

  /** `jaccard`: the counts of the merge give intersection over union. */
  method Jaccard(left: seq<int>, right: seq<int>) returns (similarity: real)
    requires Ascending(left) && Ascending(right)
    ensures similarity == Ratio(Elements(left), Elements(right))
  {
    if left == [] && right == [] {
      return 0.0;
    }
    var shared := Shared(left, right);
    MergeCountsCommon(left, right);
    ElementCount(left);
    ElementCount(right);
    UnionCount(Elements(left), Elements(right));
    NotBothEmpty(left, right);
    similarity := shared as real / (|left| + |right| - shared) as real;
  }

  lemma NotBothEmpty(left: seq<int>, right: seq<int>)
    requires left != [] || right != []
    ensures Elements(left) + Elements(right) != {}
  {
    if left != [] {
      assert left[0] in Elements(left);
    } else {
      assert right[0] in Elements(right);
    }
  }

  /** Which list is the anchor's does not matter, and full similarity means the same non-empty set. */
  lemma RatioIsSymmetric(a: set<int>, b: set<int>)
    ensures Ratio(a, b) == Ratio(b, a) && 0.0 <= Ratio(a, b) <= 1.0
    ensures Ratio(a, b) == 1.0 <==> a == b != {}
  {
    assert a + b == b + a && a * b == b * a;
    UnionCount(a, b);
    var extra := (a + b) - (a * b);
    assert a + b == (a * b) + extra;
    assert |a + b| == |a * b| + |extra|;
    assert extra == {} <==> a == b;
    if a + b != {} {
      RatioOfCounts(|a * b|, |a + b|);
    }
  }

  lemma RatioOfCounts(part: nat, whole: nat)
    requires part <= whole && whole > 0
    ensures 0.0 <= part as real / whole as real <= 1.0
    ensures part as real / whole as real == 1.0 <==> part == whole
  {
    var p, w := part as real, whole as real;
    DivisionUndone(p, w);
    ScaleLess(p / w, 0.0, w);
    ScaleLess(1.0, p / w, w);
    ScaleLess(p / w, 1.0, w);
  }

  lemma DivisionUndone(p: real, w: real)
    requires w > 0.0
    ensures p / w * w == p
  {
  }

  lemma ScaleLess(a: real, b: real, w: real)
    requires w > 0.0
    ensures a < b <==> a * w < b * w
  {
    assert (b - a) * w == b * w - a * w;
  }

  // -- Greedy clusters ---------------------------------------------------------------------

  ghost predicate NoneEmpty<T>(clusters: seq<seq<T>>) {
    forall i | 0 <= i < |clusters| :: clusters[i] != []
  }

  /** The first cluster whose anchor is near the record, or the number of clusters. */
  function FirstNear<T>(clusters: seq<seq<T>>, record: T, near: (T, T) -> bool): (k: nat)
    requires NoneEmpty(clusters)
    ensures k <= |clusters|
    ensures k < |clusters| ==> near(clusters[k][0], record)
    ensures forall i | 0 <= i < k :: !near(clusters[i][0], record)
  {
    if clusters == [] || near(clusters[0][0], record) then 0 else 1 + FirstNear(clusters[1..], record, near)
  }

  function Joined<T>(clusters: seq<seq<T>>, record: T, near: (T, T) -> bool): (after: seq<seq<T>>)
    requires NoneEmpty(clusters)
    ensures NoneEmpty(after)
  {
    var k := FirstNear(clusters, record, near);
    if k < |clusters| then clusters[k := clusters[k] + [record]] else clusters + [[record]]
  }

  function Greedy<T>(records: seq<T>, near: (T, T) -> bool): (clusters: seq<seq<T>>)
    ensures NoneEmpty(clusters)
  {
    if records == [] then [] else Joined(Greedy(records[..|records| - 1], near), records[|records| - 1], near)
  }

  method Cluster<T>(records: seq<T>, near: (T, T) -> bool) returns (clusters: seq<seq<T>>)
    ensures clusters == Greedy(records, near)
  {
    clusters := [];
    assert records[..0] == [];
    for i := 0 to |records|
      invariant clusters == Greedy(records[..i], near)
    {
      var record, k := records[i], 0;
      assert records[..i + 1][..i] == records[..i];
      while k < |clusters| && !near(clusters[k][0], record)
        invariant k <= |clusters|
        invariant forall j | 0 <= j < k :: !near(clusters[j][0], record)
      {
        k := k + 1;
      }
      assert k == FirstNear(clusters, record, near);
      if k < |clusters| {
        clusters := clusters[k := clusters[k] + [record]];
      } else {
        clusters := clusters + [[record]];
      }
    }
    assert records[..|records|] == records;
  }

  /** Every old cluster is a prefix of its new self. */
  ghost predicate Extends<T>(before: seq<seq<T>>, after: seq<seq<T>>) {
    |before| <= |after| && forall k | 0 <= k < |before| :: before[k] <= after[k]
  }

  /** More records at the end only extend the clustering. */
  lemma {:induction false} GrowthExtends<T>(records: seq<T>, more: seq<T>, near: (T, T) -> bool)
    ensures Extends(Greedy(records, near), Greedy(records + more, near))
    decreases |more|
  {
    if more == [] {
      assert records + more == records;
    } else {
      GrowthExtends(records, more[..|more| - 1], near);
      assert (records + more)[..|records + more| - 1] == records + more[..|more| - 1];
    }
  }

  /** A record is near the anchor of its cluster and not near any earlier anchor. */
  ghost predicate Anchored<T>(clusters: seq<seq<T>>, near: (T, T) -> bool) {
    && NoneEmpty(clusters)
    && (forall k, m | 0 <= k < |clusters| && 0 < m < |clusters[k]| :: near(clusters[k][0], clusters[k][m]))
    && (forall j, k, m | 0 <= j < k < |clusters| && 0 <= m < |clusters[k]| :: !near(clusters[j][0], clusters[k][m]))
  }

  lemma {:induction false} ClustersAreAnchored<T>(records: seq<T>, near: (T, T) -> bool)
    ensures Anchored(Greedy(records, near), near)
  {
    if records != [] {
      var before := Greedy(records[..|records| - 1], near);
      ClustersAreAnchored(records[..|records| - 1], near);
      JoinedIsAnchored(before, records[|records| - 1], near);
    }
  }

  lemma JoinedIsAnchored<T>(before: seq<seq<T>>, record: T, near: (T, T) -> bool)
    requires Anchored(before, near)
    ensures Anchored(Joined(before, record, near), near)
  {
    var after, home := Joined(before, record, near), FirstNear(before, record, near);
    forall k | 0 <= k < |before|
      ensures after[k][0] == before[k][0] && (k != home ==> after[k] == before[k])
    {
    }
  }

  function Flat<T>(clusters: seq<seq<T>>): seq<T> {
    if clusters == [] then [] else clusters[0] + Flat(clusters[1..])
  }

  lemma {:induction false} FlatJoined<T>(clusters: seq<seq<T>>, k: nat, record: T)
    requires k < |clusters|
    ensures multiset(Flat(clusters[k := clusters[k] + [record]])) == multiset(Flat(clusters)) + multiset{record}
  {
    var after := clusters[k := clusters[k] + [record]];
    assert Flat(after) == after[0] + Flat(after[1..]) && Flat(clusters) == clusters[0] + Flat(clusters[1..]);
    if k == 0 {
      assert after[0] == clusters[0] + [record] && after[1..] == clusters[1..];
    } else {
      FlatJoined(clusters[1..], k - 1, record);
      assert after[1..] == clusters[1..][k - 1 := clusters[k] + [record]];
    }
  }

  lemma {:induction false} FlatMore<T>(clusters: seq<seq<T>>, record: T)
    ensures multiset(Flat(clusters + [[record]])) == multiset(Flat(clusters)) + multiset{record}
  {
    if clusters == [] {
      assert Flat([[record]]) == [record] + Flat([[record]][1..]) && [[record]][1..] == [];
    } else {
      FlatMore(clusters[1..], record);
      assert (clusters + [[record]])[1..] == clusters[1..] + [[record]];
    }
  }

  /** The clusters hold every record exactly once. */
  lemma {:induction false} ClustersPartition<T>(records: seq<T>, near: (T, T) -> bool)
    ensures multiset(Flat(Greedy(records, near))) == multiset(records)
  {
    if records != [] {
      var init, last := records[..|records| - 1], records[|records| - 1];
      var before := Greedy(init, near);
      ClustersPartition(init, near);
      if FirstNear(before, last, near) < |before| {
        FlatJoined(before, FirstNear(before, last, near), last);
      } else {
        FlatMore(before, last);
      }
      assert records == init + [last];
    }
  }

  // -- Lessons and workflows -------------------------------------------------------------------

  /** An index record: where it sorts, whether it takes part, and the sets it is compared by. */
  datatype Record = Record(id: string, recordedAt: string, takesPart: bool, prompt: seq<int>, tools: seq<int>)

  /** `recorded_at`, then the identifier. */
  predicate RecordLeq(a: Record, b: Record) {
    if a.recordedAt != b.recordedAt then StringLeq(a.recordedAt, b.recordedAt) else StringLeq(a.id, b.id)
  }

  predicate LaterStamped(a: Record, b: Record) {
    a.recordedAt != b.recordedAt && StringLeq(a.recordedAt, b.recordedAt)
  }

  ghost predicate DistinctIds(records: seq<Record>) {
    forall i, j | 0 <= i < j < |records| :: records[i].id != records[j].id
  }

  lemma RecordOrder()
    ensures Total(RecordLeq)
    ensures forall a, b :: RecordLeq(a, b) && RecordLeq(b, a) ==> a.id == b.id
  {
    StringOrder();
  }

  lemma SortedAppend(records: seq<Record>, more: seq<Record>)
    requires DistinctIds(records + more)
    requires forall a, b | a in records && b in more :: LaterStamped(a, b)
    ensures Sort(records + more, RecordLeq) == Sort(records, RecordLeq) + Sort(more, RecordLeq)
  {
    var a, b, all := Sort(records, RecordLeq), Sort(more, RecordLeq), records + more;
    RecordOrder();
    SortSorts(records, RecordLeq);
    SortSorts(more, RecordLeq);
    SortSorts(all, RecordLeq);
    SameElements(a, records);
    SameElements(b, more);
    SameElements(all, Sort(all, RecordLeq));
    assert multiset(a + b) == multiset(Sort(all, RecordLeq));
    JoinSorted(a, b);
    DistinctIsUntied(all);
    SortedUnique(Sort(all, RecordLeq), a + b, RecordLeq);
  }

  lemma JoinSorted(a: seq<Record>, b: seq<Record>)
    requires Sorted(a, RecordLeq) && Sorted(b, RecordLeq)
    requires forall x, y | x in a && y in b :: LaterStamped(x, y)
    ensures Sorted(a + b, RecordLeq)
  {
    var all := a + b;
    forall i, j | 0 <= i < j < |all|
      ensures RecordLeq(all[i], all[j])
    {
      if i < |a| <= j {
        assert all[i] in a && all[j] in b;
      }
    }
  }

  lemma DistinctIsUntied(records: seq<Record>)
    requires DistinctIds(records)
    ensures Untied(records, RecordLeq)
  {
    RecordOrder();
    forall a, b | a in records && b in records && RecordLeq(a, b) && RecordLeq(b, a)
      ensures a == b
    {
      var i :| 0 <= i < |records| && records[i] == a;
      var j :| 0 <= j < |records| && records[j] == b;
      assert i < j || j < i || i == j;
    }
  }

  lemma {:induction false} FilterConcat<T>(a: seq<T>, b: seq<T>, p: T -> bool)
    ensures Filter(a + b, p) == Filter(a, p) + Filter(b, p)
  {
    if a == [] {
      assert a + b == b;
    } else {
      FilterConcat(a[1..], b, p);
      assert (a + b)[0] == a[0] && (a + b)[1..] == a[1..] + b;
      Regroup(if p(a[0]) then [a[0]] else [], Filter(a[1..], p), Filter(b, p));
    }
  }

  lemma {:induction false} FilterKeeps<T>(s: seq<T>, p: T -> bool, x: T)
    ensures x in Filter(s, p) <==> x in s && p(x)
  {
    if s != [] {
      FilterKeeps(s[1..], p, x);
    }
  }

  predicate Participates(r: Record) {
    r.takesPart
  }

  /** The clusters that lessons are proposed from: unmarked ones take part, in sorted order. */
  function LessonClusters(records: seq<Record>, near: (Record, Record) -> bool): seq<seq<Record>> {
    Greedy(Sort(Filter(records, Participates), RecordLeq), near)
  }

  /** The clusters that skills are proposed from: all sorted, then the comparable ones. */
  function WorkflowClusters(records: seq<Record>, near: (Record, Record) -> bool): seq<seq<Record>> {
    Greedy(Filter(Sort(records, RecordLeq), Participates), near)
  }

  lemma {:induction false} FilterDistinct(records: seq<Record>, p: Record -> bool)
    requires DistinctIds(records)
    ensures DistinctIds(Filter(records, p))
  {
    if records != [] {
      var rest := Filter(records[1..], p);
      assert forall i, j | 0 <= i < j < |records[1..]| ::
          records[1..][i] == records[i + 1] && records[1..][j] == records[j + 1];
      FilterDistinct(records[1..], p);
      forall j | 0 <= j < |rest|
        ensures rest[j].id != records[0].id
      {
        FilterKeeps(records[1..], p, rest[j]);
        var k :| 0 <= k < |records[1..]| && records[1..][k] == rest[j];
        assert records[k + 1].id != records[0].id;
      }
    }
  }

  /**
   Later-stamped records only extend the clustering: every old cluster keeps its anchor,
   and with it the identifier of its candidate, and its old members in their order.
   */
  lemma LaterRecordsExtend(records: seq<Record>, more: seq<Record>, near: (Record, Record) -> bool)
    requires DistinctIds(records + more)
    requires forall a, b | a in records && b in more :: LaterStamped(a, b)
    ensures Extends(LessonClusters(records, near), LessonClusters(records + more, near))
    ensures Extends(WorkflowClusters(records, near), WorkflowClusters(records + more, near))
  {
    var part := Participates;
    SortedAppend(records, more);
    FilterConcat(Sort(records, RecordLeq), Sort(more, RecordLeq), part);
    GrowthExtends(Filter(Sort(records, RecordLeq), part), Filter(Sort(more, RecordLeq), part), near);
    FilterConcat(records, more, part);
    FilterDistinct(records + more, part);
    forall a, b | a in Filter(records, part) && b in Filter(more, part)
      ensures LaterStamped(a, b)
    {
      FilterKeeps(records, part, a);
      FilterKeeps(more, part, b);
    }
    SortedAppend(Filter(records, part), Filter(more, part));
    GrowthExtends(Sort(Filter(records, part), RecordLeq), Sort(Filter(more, part), RecordLeq), near);
  }

  lemma GreedyPair<T>(a: T, b: T, near: (T, T) -> bool)
    ensures Greedy([a], near) == [[a]]
    ensures near(a, b) ==> Greedy([a, b], near) == [[a, b]]
  {
    assert [a][..0] == [] && [a, b][..1] == [a];
    if near(a, b) {
      assert FirstNear([[a]], b, near) == 0;
      assert [a] + [b] == [a, b];
      assert [[a]][0 := [a, b]] == [[a, b]];
    }
  }

  lemma SortPair(a: Record, b: Record)
    requires LaterStamped(b, a)
    ensures Sort([a], RecordLeq) == [a] && Sort([a, b], RecordLeq) == [b, a]
  {
    StringLeqTotal(a.recordedAt, b.recordedAt);
    assert [a][1..] == [] && [a, b][1..] == [b] && [b][1..] == [];
    assert Sort([b], RecordLeq) == [b];
    assert Insert(a, [], RecordLeq) == [a];
    assert Insert(a, [b], RecordLeq) == [b] + Insert(a, [b][1..], RecordLeq);
  }

  lemma FilterPair<T>(a: T, b: T, p: T -> bool)
    requires p(a) && p(b)
    ensures Filter([a], p) == [a] && Filter([a, b], p) == [a, b]
  {
    assert [a][1..] == [] && [a, b][1..] == [b] && [b][1..] == [];
  }

  /** An earlier-stamped record can take over an anchor, so the hypothesis is needed. */
  lemma EarlierRecordTakesAnchor(a: Record, b: Record, near: (Record, Record) -> bool)
    requires a.takesPart && b.takesPart && LaterStamped(b, a) && near(b, a)
    ensures LessonClusters([a], near) == [[a]] && LessonClusters([a, b], near) == [[b, a]]
  {
    FilterPair(a, b, Participates);
    SortPair(a, b);
    GreedyPair(a, b, near);
    GreedyPair(b, a, near);
    assert Filter([a], Participates) == [a];
    assert Filter([a, b], Participates) == [a, b];
    assert Sort([a, b], RecordLeq) == [b, a] && Greedy([b, a], near) == [[b, a]];
  }

  // -- The two resemblances ----------------------------------------------------------------------

  const RECURRENCE_THRESHOLD: real := 0.6

  const WORKFLOW_SIMILARITY: real := 0.5

  predicate LessonsNear(a: Record, b: Record) {
    Ratio(Elements(a.prompt), Elements(b.prompt)) >= RECURRENCE_THRESHOLD
  }

  function WorkflowSimilarity(a: Record, b: Record): real {
    0.5 * Ratio(Elements(a.prompt), Elements(b.prompt)) + 0.5 * Ratio(Elements(a.tools), Elements(b.tools))
  }

  predicate WorkflowsNear(a: Record, b: Record) {
    WorkflowSimilarity(a, b) >= WORKFLOW_SIMILARITY
  }

  /** Comparing with the anchor first or last makes no difference. */
  lemma ResemblanceIsSymmetric(a: Record, b: Record)
    ensures LessonsNear(a, b) == LessonsNear(b, a) && WorkflowSimilarity(a, b) == WorkflowSimilarity(b, a)
    ensures 0.0 <= WorkflowSimilarity(a, b) <= 1.0
  {
    RatioIsSymmetric(Elements(a.prompt), Elements(b.prompt));
    RatioIsSymmetric(Elements(a.tools), Elements(b.tools));
  }

  ghost predicate Shingled(records: seq<Record>) {
    forall r | r in records :: Ascending(r.prompt) && Ascending(r.tools)
  }

  /** The first cluster whose anchor a lesson resembles, compared by the merge loop. */
  method FirstNearLesson(clusters: seq<seq<Record>>, record: Record) returns (k: nat)
    requires NoneEmpty(clusters) && Ascending(record.prompt)
    requires forall i | 0 <= i < |clusters| :: Ascending(clusters[i][0].prompt)
    ensures k == FirstNear(clusters, record, LessonsNear)
  {
    k := 0;
    while k < |clusters|
      invariant k <= |clusters|
      invariant forall j | 0 <= j < k :: !LessonsNear(clusters[j][0], record)
    {
      var similarity := Jaccard(clusters[k][0].prompt, record.prompt);
      if similarity >= RECURRENCE_THRESHOLD {
        return;
      }
      k := k + 1;
    }
  }

  ghost predicate AnchorsShingled(clusters: seq<seq<Record>>) {
    NoneEmpty(clusters) && forall i | 0 <= i < |clusters| :: Ascending(clusters[i][0].prompt)
  }

  method JoinLesson(clusters: seq<seq<Record>>, record: Record) returns (after: seq<seq<Record>>)
    requires AnchorsShingled(clusters) && Ascending(record.prompt)
    ensures after == Joined(clusters, record, LessonsNear) && AnchorsShingled(after)
  {
    var k := FirstNearLesson(clusters, record);
    if k < |clusters| {
      after := clusters[k := clusters[k] + [record]];
    } else {
      after := clusters + [[record]];
    }
  }

  method ClusterLessons(ordered: seq<Record>) returns (clusters: seq<seq<Record>>)
    requires Shingled(ordered)
    ensures clusters == Greedy(ordered, LessonsNear)
  {
    clusters := [];
    assert ordered[..0] == [];
    for i := 0 to |ordered|
      invariant clusters == Greedy(ordered[..i], LessonsNear)
      invariant AnchorsShingled(clusters)
    {
      assert ordered[..i + 1][..i] == ordered[..i];
      assert ordered[i] in ordered;
      clusters := JoinLesson(clusters, ordered[i]);
    }
    assert ordered[..|ordered|] == ordered;
  }

  /** The clustering part of `propose`: unmarked lessons, sorted, compared by the merge loop. */
  method ProposeClusters(records: seq<Record>) returns (clusters: seq<seq<Record>>)
    requires Shingled(records)
    ensures clusters == LessonClusters(records, LessonsNear)
    ensures Chronological(clusters)
    ensures forall r | r in records && r.takesPart :: exists k :: 0 <= k < |clusters| && r in clusters[k]
    ensures forall k, r | 0 <= k < |clusters| && r in clusters[k] :: r in records && r.takesPart
    // Members share at least three fifths of their shingles with the anchor, none with an earlier anchor.
    ensures forall k, m | 0 <= k < |clusters| && 0 < m < |clusters[k]| :: ThreeFifths(clusters[k][0], clusters[k][m])
    ensures forall j, k, m | 0 <= j < k < |clusters| && 0 <= m < |clusters[k]| ::
        !ThreeFifths(clusters[j][0], clusters[k][m])
  {
    var ordered := Sort(Filter(records, Participates), RecordLeq);
    SameElements(ordered, Filter(records, Participates));
    forall r | r in ordered
      ensures r in records
    {
      FilterKeeps(records, Participates, r);
    }
    clusters := ClusterLessons(ordered);
    ClustersInOrder(records, LessonsNear);
    LessonClustersAnchored(records);
    forall r
      ensures r in records && r.takesPart <==> InSome(clusters, r)
    {
      LessonClustersHold(records, LessonsNear, r);
    }
  }

  /** The shingles in common are at least three fifths of all. */
  predicate ThreeFifths(a: Record, b: Record) {
    var x, y := Elements(a.prompt), Elements(b.prompt);
    x + y != {} && 5 * |x * y| >= 3 * |x + y|
  }

  ghost predicate InSome(clusters: seq<seq<Record>>, r: Record) {
    exists k :: 0 <= k < |clusters| && r in clusters[k]
  }

  lemma {:induction false} FlatHolds(clusters: seq<seq<Record>>, r: Record)
    ensures r in Flat(clusters) <==> InSome(clusters, r)
  {
    if clusters != [] {
      FlatHolds(clusters[1..], r);
      if k :| 0 <= k < |clusters| && r in clusters[k] {
        assert k > 0 ==> clusters[1..][k - 1] == clusters[k];
      }
      if k :| 0 <= k < |clusters[1..]| && r in clusters[1..][k] {
        assert clusters[k + 1] == clusters[1..][k];
      }
    }
  }

  lemma OrderedHolds(records: seq<Record>, r: Record)
    ensures r in Sort(Filter(records, Participates), RecordLeq) <==> r in records && r.takesPart
  {
    var part := Filter(records, Participates);
    SameElements(part, Sort(part, RecordLeq));
    FilterKeeps(records, Participates, r);
  }

  lemma GreedyHolds(ordered: seq<Record>, near: (Record, Record) -> bool, r: Record)
    ensures r in ordered <==> InSome(Greedy(ordered, near), r)
  {
    var clusters := Greedy(ordered, near);
    ClustersPartition(ordered, near);
    SameElements(Flat(clusters), ordered);
    FlatHolds(clusters, r);
  }

  lemma LessonClustersHold(records: seq<Record>, near: (Record, Record) -> bool, r: Record)
    ensures r in records && r.takesPart <==> InSome(LessonClusters(records, near), r)
  {
    OrderedHolds(records, r);
    GreedyHolds(Sort(Filter(records, Participates), RecordLeq), near, r);
  }

  lemma LessonClustersAnchored(records: seq<Record>)
    ensures var clusters := LessonClusters(records, LessonsNear);
            && (forall k, m | 0 <= k < |clusters| && 0 < m < |clusters[k]| ::
                  ThreeFifths(clusters[k][0], clusters[k][m]))
            && forall j, k, m | 0 <= j < k < |clusters| && 0 <= m < |clusters[k]| ::
                 !ThreeFifths(clusters[j][0], clusters[k][m])
  {
    ClustersAreAnchored(Sort(Filter(records, Participates), RecordLeq), LessonsNear);
    forall a, b
      ensures ThreeFifths(a, b) <==> LessonsNear(a, b)
    {
      LessonsNearExactly(a, b);
    }
  }

  // -- What resembles what, in numbers ---------------------------------------------------------------

  /** `part / whole` reaches `k / n` exactly if `n` times the part reaches `k` times the whole. */
  lemma Reaches(part: nat, whole: nat, bound: real, k: nat, n: nat)
    requires whole > 0 && n > 0 && bound * n as real == k as real
    ensures part as real / whole as real >= bound <==> n * part >= k * whole
  {
    var p, w := part as real, whole as real;
    DivisionUndone(p, w);
    ScaleLess(p / w, bound, w);
    ScaleLess(p, bound * w, n as real);
    assert bound * w * n as real == k as real * w;
    assert p * n as real == (n * part) as real && k as real * w == (k * whole) as real;
  }

  /** Two lessons resemble each other exactly if they share three fifths of their shingles. */
  lemma LessonsNearExactly(a: Record, b: Record)
    ensures var x, y := Elements(a.prompt), Elements(b.prompt);
            LessonsNear(a, b) <==> x + y != {} && 5 * |x * y| >= 3 * |x + y|
  {
    var x, y := Elements(a.prompt), Elements(b.prompt);
    if x + y != {} {
      Reaches(|x * y|, |x + y|, 0.6, 3, 5);
    }
  }

  lemma RatioOfDisjoint(a: set<int>, b: set<int>)
    requires a !! b
    ensures Ratio(a, b) == 0.0
  {
    assert a * b == {};
  }

  /** Prompts and tools weigh alike: agreement in one of them alone is exactly enough for workflows to be
      near, and nothing less than full agreement in one makes up for none in the other. */
  lemma HalvesWeighAlike(a: Record, b: Record)
    ensures var p, q, t, u := Elements(a.prompt), Elements(b.prompt), Elements(a.tools), Elements(b.tools);
            && (p == q != {} && t !! u ==> WorkflowSimilarity(a, b) == 0.5 && WorkflowsNear(a, b))
            && (p !! q && t == u != {} ==> WorkflowSimilarity(a, b) == 0.5 && WorkflowsNear(a, b))
            && (p !! q && t != u ==> !WorkflowsNear(a, b))
            && (p != q && t !! u ==> !WorkflowsNear(a, b))
            && (p == q != {} && t == u != {} ==> WorkflowSimilarity(a, b) == 1.0)
    ensures WorkflowSimilarity(a, b)
         == WorkflowSimilarity(a.(prompt := a.tools, tools := a.prompt), b.(prompt := b.tools, tools := b.prompt))
  {
    var p, q, t, u := Elements(a.prompt), Elements(b.prompt), Elements(a.tools), Elements(b.tools);
    RatioIsSymmetric(p, q);
    RatioIsSymmetric(t, u);
    if p !! q {
      RatioOfDisjoint(p, q);
    }
    if t !! u {
      RatioOfDisjoint(t, u);
    }
  }

  // -- The order within clusters and of clusters -------------------------------------------------------

  /** `a` was recorded before `b`, or with it and has the smaller identifier, or the same. */
  predicate NotAfter(a: Record, b: Record) {
    StringLeq(a.recordedAt, b.recordedAt) && (a.recordedAt == b.recordedAt ==> StringLeq(a.id, b.id))
  }

  ghost predicate InOrder(records: seq<Record>) {
    forall i, j | 0 <= i < j < |records| :: NotAfter(records[i], records[j])
  }

  /** Members come in order within each cluster, and clusters in the order of their anchors. */
  ghost predicate Chronological(clusters: seq<seq<Record>>) {
    && NoneEmpty(clusters)
    && (forall k | 0 <= k < |clusters| :: InOrder(clusters[k]))
    && forall j, k | 0 <= j < k < |clusters| :: NotAfter(clusters[j][0], clusters[k][0])
  }

  ghost predicate AllFrom(clusters: seq<seq<Record>>, records: seq<Record>) {
    forall k | 0 <= k < |clusters| :: forall r | r in clusters[k] :: r in records
  }

  lemma InOrderMore(records: seq<Record>, r: Record)
    requires InOrder(records) && forall x | x in records :: NotAfter(x, r)
    ensures InOrder(records + [r])
  {
    assert forall i | 0 <= i < |records| :: records[i] in records;
  }

  lemma JoinedInOrder(clusters: seq<seq<Record>>, init: seq<Record>, r: Record, near: (Record, Record) -> bool)
    requires Chronological(clusters) && AllFrom(clusters, init) && forall x | x in init :: NotAfter(x, r)
    ensures Chronological(Joined(clusters, r, near)) && AllFrom(Joined(clusters, r, near), init + [r])
  {
    var k, after := FirstNear(clusters, r, near), Joined(clusters, r, near);
    assert forall j | 0 <= j < |clusters| :: clusters[j][0] in clusters[j];
    if k < |clusters| {
      InOrderMore(clusters[k], r);
      assert forall j | 0 <= j < |clusters| :: after[j][0] == clusters[j][0];
    }
  }

  lemma {:induction false} GreedyInOrder(records: seq<Record>, near: (Record, Record) -> bool)
    requires InOrder(records)
    ensures Chronological(Greedy(records, near)) && AllFrom(Greedy(records, near), records)
  {
    if records != [] {
      var n := |records| - 1;
      GreedyInOrder(records[..n], near);
      JoinedInOrder(Greedy(records[..n], near), records[..n], records[n], near);
      assert records == records[..n] + [records[n]];
    }
  }

  lemma SortedInOrder(records: seq<Record>)
    ensures InOrder(Sort(records, RecordLeq))
  {
    var s := Sort(records, RecordLeq);
    RecordOrder();
    SortSorts(records, RecordLeq);
    forall i, j | 0 <= i < j < |s|
      ensures NotAfter(s[i], s[j])
    {
      StringLeqTotal(s[i].recordedAt, s[j].recordedAt);
      assert RecordLeq(s[i], s[j]);
    }
  }

  lemma {:induction false} FilterInOrder(records: seq<Record>, p: Record -> bool)
    requires InOrder(records)
    ensures InOrder(Filter(records, p))
  {
    if records != [] {
      var rest := Filter(records[1..], p);
      assert forall i | 0 <= i < |records[1..]| :: records[1..][i] == records[i + 1];
      FilterInOrder(records[1..], p);
      forall j | 0 <= j < |rest|
        ensures NotAfter(records[0], rest[j])
      {
        FilterKeeps(records[1..], p, rest[j]);
        var k :| 0 <= k < |records[1..]| && records[1..][k] == rest[j];
        assert NotAfter(records[0], records[k + 1]);
      }
    }
  }

  /** The clusters of lessons and of workflows are in the order of the stamps; records of one stamp come
      by their identifiers, so the anchor of a cluster is its earliest member. */
  lemma ClustersInOrder(records: seq<Record>, near: (Record, Record) -> bool)
    ensures Chronological(LessonClusters(records, near)) && Chronological(WorkflowClusters(records, near))
  {
    SortedInOrder(Filter(records, Participates));
    GreedyInOrder(Sort(Filter(records, Participates), RecordLeq), near);
    SortedInOrder(records);
    FilterInOrder(Sort(records, RecordLeq), Participates);
    GreedyInOrder(Filter(Sort(records, RecordLeq), Participates), near);
  }

  // -- Appending what is new -----------------------------------------------------------------------

  /** `r` is one of the observations, stamped `now`. */
  ghost predicate IsStamped(r: Record, observations: seq<Record>, now: string) {
    exists o :: o in observations && r == o.(recordedAt := now)
  }

  ghost predicate HasId(records: seq<Record>, id: string) {
    exists r :: r in records && r.id == id
  }

  ghost predicate KnownAre(known: set<string>, records: seq<Record>) {
    forall id :: id in known <==> HasId(records, id)
  }

  lemma KnowOneMore(known: set<string>, records: seq<Record>, r: Record)
    requires KnownAre(known, records)
    ensures KnownAre(known + {r.id}, records + [r])
    ensures DistinctIds(records) && r.id !in known ==> DistinctIds(records + [r])
  {
    var more := records + [r];
    assert r in more;
    forall id
      ensures HasId(more, id) <==> id == r.id || HasId(records, id)
    {
      if x :| x in records && x.id == id {
        assert x in more;
      }
    }
    if DistinctIds(records) && r.id !in known {
      forall i | 0 <= i < |records|
        ensures records[i].id != r.id
      {
        assert records[i] in records;
        assert HasId(records, records[i].id);
      }
    }
  }

  lemma PrefixIds(records: seq<Record>, more: seq<Record>, id: string)
    requires records <= more
    ensures HasId(records, id) ==> HasId(more, id)
  {
    if r :| r in records && r.id == id {
      assert r in more;
    }
  }

  /** Adds the observations whose identifier is not known yet, all stamped `now`. */
  method AppendNew(records: seq<Record>, observations: seq<Record>, now: string) returns (after: seq<Record>)
    ensures records <= after && (DistinctIds(records) ==> DistinctIds(after))
    ensures forall r | r in after[|records|..] :: IsStamped(r, observations, now) && !HasId(records, r.id)
    ensures forall o | o in observations :: HasId(after, o.id)
  {
    after := records;
    var known: set<string> := set r | r in records :: r.id;
    for i := 0 to |observations|
      invariant records <= after && KnownAre(known, after)
      invariant DistinctIds(records) ==> DistinctIds(after)
      invariant forall r | r in after[|records|..] :: IsStamped(r, observations, now) && !HasId(records, r.id)
      invariant forall o | o in observations[..i] :: HasId(after, o.id)
    {
      var o := observations[i];
      assert observations[..i + 1] == observations[..i] + [o];
      if o.id !in known {
        after, known := AddRecord(records, after, known, observations, o, now);
      }
    }
    assert observations[..|observations|] == observations;
  }

  method AddRecord(
    records: seq<Record>, before: seq<Record>, known: set<string>, observations: seq<Record>, o: Record, now: string)
    returns (after: seq<Record>, known': set<string>)
    requires records <= before && KnownAre(known, before) && o in observations && o.id !in known
    requires forall r | r in before[|records|..] :: IsStamped(r, observations, now) && !HasId(records, r.id)
    ensures before <= after && KnownAre(known', after) && HasId(after, o.id)
    ensures forall id | HasId(before, id) :: HasId(after, id)
    ensures DistinctIds(before) ==> DistinctIds(after)
    ensures forall r | r in after[|records|..] :: IsStamped(r, observations, now) && !HasId(records, r.id)
  {
    var added := o.(recordedAt := now);
    KnowOneMore(known, before, added);
    PrefixIds(records, before, o.id);
    assert forall id :: HasId(before, id) <==> id in known;
    after, known' := before + [added], known + {o.id};
    assert after[|records|..] == before[|records|..] + [added];
  }

  /** Under a clock later than every stamp in the index, appending only extends the clusters. */
  lemma AppendKeepsClusters(records: seq<Record>, after: seq<Record>, now: string, near: (Record, Record) -> bool)
    requires records <= after && DistinctIds(after)
    requires forall r | r in records :: r.recordedAt != now && StringLeq(r.recordedAt, now)
    requires forall r | r in after[|records|..] :: r.recordedAt == now
    ensures Extends(LessonClusters(records, near), LessonClusters(after, near))
    ensures Extends(WorkflowClusters(records, near), WorkflowClusters(after, near))
  {
    assert after == records + after[|records|..];
    LaterRecordsExtend(records, after[|records|..], near);
  }
}
