/**
 Choosing what enters a prompt: candidates from several scopes are sorted, reduced to
 canonical copies, ranked and cut; the rendered text is cut at a character.
 */
module ContextSelection {
  import opened Basics
  import opened Sorting

  datatype Scope = Project | Shared | Global

  function Priority(scope: Scope): nat {
    match scope
    case Project => 0
    case Shared => 1
    case Global => 2
  }

  /** `score` is an ordered number; its arithmetic does not matter here. */
  datatype Candidate = Candidate(scope: Scope, id: string, title: string, content: string, score: int)

  /** What is hashed to compare contents. */
  function Content(c: Candidate): string {
    c.title + ['\0'] + c.content
  }

  predicate CanonicalLeq(a: Candidate, b: Candidate) {
    if a.scope != b.scope then Priority(a.scope) <= Priority(b.scope)
    else if a.score != b.score then b.score <= a.score
    else StringLeq(a.id, b.id)
  }

  predicate RankLeq(a: Candidate, b: Candidate) {
    if a.score != b.score then b.score <= a.score
    else if a.scope != b.scope then Priority(a.scope) <= Priority(b.scope)
    else StringLeq(a.id, b.id)
  }

  /** One pass that records every identifier it meets, and the contents of what it keeps. */
  function Canonical(candidates: seq<Candidate>, ids: set<string>, contents: set<string>): seq<Candidate> {
    if candidates == [] then []
    else
      var c := candidates[0];
      if c.id in ids then Canonical(candidates[1..], ids, contents)
      else if Content(c) in contents then Canonical(candidates[1..], ids + {c.id}, contents)
      else [c] + Canonical(candidates[1..], ids + {c.id}, contents + {Content(c)})
  }

  function Clamp(n: int, low: int, high: int): int {
    if n < low then low else if n > high then high else n
  }

  function Truncate<T>(s: seq<T>, n: nat): seq<T> {
    if |s| <= n then s else s[..n]
  }

  function Ranked(candidates: seq<Candidate>): seq<Candidate> {
    Sort(Canonical(Sort(candidates, CanonicalLeq), {}, {}), RankLeq)
  }

  /** The two caps, each held within its own range. */
  function Capped(ranked: seq<Candidate>, maxCandidates: nat, limit: nat): seq<Candidate> {
    Truncate(Truncate(ranked, Clamp(maxCandidates, 1, 512)), Clamp(limit, 1, 32))
  }

  function Selected(candidates: seq<Candidate>, maxCandidates: nat, limit: nat): seq<Candidate> {
    Capped(Ranked(candidates), maxCandidates, limit)
  }

  method Deduplicate(candidates: seq<Candidate>) returns (selected: seq<Candidate>)
    ensures selected == Canonical(candidates, {}, {})
  {
    var ids: set<string>, contents: set<string> := {}, {};
    selected := [];
    for i := 0 to |candidates|
      invariant selected + Canonical(candidates[i..], ids, contents) == Canonical(candidates, {}, {})
    {
      var c := candidates[i];
      assert candidates[i..][1..] == candidates[i + 1..];
      if c.id !in ids {
        ids := ids + {c.id};
        if Content(c) !in contents {
          contents := contents + {Content(c)};
          Regroup(selected, [c], Canonical(candidates[i + 1..], ids, contents));
          selected := selected + [c];
        }
      }
    }
  }

  /** The steps of `run_context` between reading the snapshots and printing. Of each identifier the copy
      of the closest scope is taken: the project's before the shared one, that before the global one.
      Results come by falling score; at one score the closer scope comes first. */
  method Select(candidates: seq<Candidate>, maxCandidates: nat, limit: nat) returns (selected: seq<Candidate>)
    ensures selected == Selected(candidates, maxCandidates, limit)
    ensures forall c, d | c in selected && d in candidates && c.id == d.id ::
        && (d.scope == Project ==> c.scope == Project)
        && (d.scope == Shared ==> c.scope != Global)
        && (d.scope == c.scope ==> d.score <= c.score)
    ensures forall i, j | 0 <= i < j < |selected| ::
        && selected[i].score >= selected[j].score
        && (selected[i].score == selected[j].score ==>
              (selected[j].scope == Project ==> selected[i].scope == Project)
              && (selected[j].scope == Shared ==> selected[i].scope != Global)
              && (selected[j].scope == selected[i].scope ==> StringLeq(selected[i].id, selected[j].id)))
    ensures forall c | c in selected :: c in candidates
    ensures |selected| <= 32 && (limit > 0 ==> |selected| <= limit)
        && (maxCandidates > 0 ==> |selected| <= maxCandidates)
    ensures limit == 0 || maxCandidates == 0 ==> |selected| <= 1
    ensures |selected| < |Ranked(candidates)| ==>
        |selected| == 32 || |selected| == limit || |selected| == maxCandidates || limit == 0 || maxCandidates == 0
    ensures candidates != [] ==> selected != []
  {
    selected := Deduplicate(Sort(candidates, CanonicalLeq));
    selected := Sort(selected, RankLeq);
    selected := Truncate(selected, Clamp(maxCandidates, 1, 512));
    selected := Truncate(selected, Clamp(limit, 1, 32));
    ResultsInOrder(candidates, maxCandidates, limit);
    CapsHold(Ranked(candidates), maxCandidates, limit);
    forall c | c in selected
      ensures c in candidates
      ensures forall d | d in candidates && c.id == d.id ::
          && (d.scope == Project ==> c.scope == Project) && (d.scope == Shared ==> c.scope != Global)
          && (d.scope == c.scope ==> d.score <= c.score)
    {
      RankedIsClosest(candidates, c);
    }
    RankedNotEmpty(candidates);
  }

  // -- Which copies are kept ---------------------------------------------------------

  /** Candidate `i` is kept: no earlier one has its identifier, no earlier kept one its content. */
  ghost predicate Kept(candidates: seq<Candidate>, i: int)
    requires 0 <= i < |candidates|
    decreases i
  {
    forall j | 0 <= j < i ::
      candidates[j].id != candidates[i].id && (Kept(candidates, j) ==> Content(candidates[j]) != Content(candidates[i]))
  }

  /** The kept candidates from `i` on. */
  ghost function KeptFrom(candidates: seq<Candidate>, i: nat): seq<Candidate>
    requires i <= |candidates|
    decreases |candidates| - i
  {
    if i == |candidates| then []
    else (if Kept(candidates, i) then [candidates[i]] else []) + KeptFrom(candidates, i + 1)
  }

  ghost predicate MetId(candidates: seq<Candidate>, i: nat, id: string)
    requires i <= |candidates|
  {
    exists j :: 0 <= j < i && candidates[j].id == id
  }

  ghost predicate KeptContent(candidates: seq<Candidate>, i: nat, x: string)
    requires i <= |candidates|
  {
    exists j :: 0 <= j < i && Kept(candidates, j) && Content(candidates[j]) == x
  }

  /** What the pass has recorded before candidate `i`. */
  ghost predicate Recorded(candidates: seq<Candidate>, i: nat, ids: set<string>, contents: set<string>)
    requires i <= |candidates|
  {
    && (forall id :: id in ids <==> MetId(candidates, i, id))
    && (forall x :: x in contents <==> KeptContent(candidates, i, x))
  }

  lemma MetStep(candidates: seq<Candidate>, i: nat, id: string)
    requires i < |candidates|
    ensures MetId(candidates, i + 1, id) <==> MetId(candidates, i, id) || candidates[i].id == id
  {
  }

  lemma KeptStep(candidates: seq<Candidate>, i: nat, x: string)
    requires i < |candidates|
    ensures KeptContent(candidates, i + 1, x)
        <==> KeptContent(candidates, i, x) || (Kept(candidates, i) && Content(candidates[i]) == x)
  {
  }

  lemma KeptMeans(candidates: seq<Candidate>, i: nat)
    requires i < |candidates|
    ensures Kept(candidates, i)
        <==> !MetId(candidates, i, candidates[i].id) && !KeptContent(candidates, i, Content(candidates[i]))
  {
  }

  lemma RecordStep(candidates: seq<Candidate>, i: nat, ids: set<string>, contents: set<string>)
    requires i < |candidates| && Recorded(candidates, i, ids, contents)
    ensures var c := candidates[i];
            && (Kept(candidates, i) <==> c.id !in ids && Content(c) !in contents)
            && Recorded(candidates, i + 1, ids + {c.id}, if Kept(candidates, i) then contents + {Content(c)}
              else contents)
  {
    KeptMeans(candidates, i);
    forall x
      ensures MetId(candidates, i + 1, x) <==> MetId(candidates, i, x) || candidates[i].id == x
      ensures KeptContent(candidates, i + 1, x)
          <==> KeptContent(candidates, i, x) || (Kept(candidates, i) && Content(candidates[i]) == x)
    {
      MetStep(candidates, i, x);
      KeptStep(candidates, i, x);
    }
  }

  lemma CanonicalStep(candidates: seq<Candidate>, i: nat, ids: set<string>, contents: set<string>)
    requires i < |candidates|
    ensures var c := candidates[i];
            var isNew := c.id !in ids && Content(c) !in contents;
            Canonical(candidates[i..], ids, contents) ==
            (if isNew then [c] else [])
            + Canonical(candidates[i + 1..], ids + {c.id}, if isNew then contents + {Content(c)} else contents)
  {
    assert candidates[i..][1..] == candidates[i + 1..];
    assert candidates[i].id in ids ==> ids + {candidates[i].id} == ids;
  }

  /** The pass keeps exactly the candidates that are kept by definition, in their order. */
  lemma {:induction false} CanonicalKeeps(candidates: seq<Candidate>, i: nat, ids: set<string>, contents: set<string>)
    requires i <= |candidates| && Recorded(candidates, i, ids, contents)
    ensures Canonical(candidates[i..], ids, contents) == KeptFrom(candidates, i)
    decreases |candidates| - i
  {
    if i < |candidates| {
      var c := candidates[i];
      RecordStep(candidates, i, ids, contents);
      CanonicalStep(candidates, i, ids, contents);
      CanonicalKeeps(candidates, i + 1, ids + {c.id}, if Kept(candidates, i) then contents + {Content(c)}
        else contents);
    }
  }

  /** An earlier candidate with the same identifier, or an earlier kept one with the same content. */
  ghost predicate Shadows(candidates: seq<Candidate>, j: int, i: int)
    requires 0 <= j < i < |candidates|
  {
    candidates[j].id == candidates[i].id || (Kept(candidates, j) && Content(candidates[j]) == Content(candidates[i]))
  }

  /** A candidate is dropped exactly when an earlier one has its identifier or an earlier kept one its content. */
  lemma DropsExactly(candidates: seq<Candidate>, i: nat)
    requires i < |candidates|
    ensures Canonical(candidates, {}, {}) == KeptFrom(candidates, 0)
    ensures !Kept(candidates, i) <==> (exists j :: 0 <= j < i && Shadows(candidates, j, i))
  {
    assert candidates[0..] == candidates;
    CanonicalKeeps(candidates, 0, {}, {});
    if !Kept(candidates, i) {
      var j :| 0 <= j < i && (candidates[j].id == candidates[i].id
          || (Kept(candidates, j) && Content(candidates[j]) == Content(candidates[i])));
      assert Shadows(candidates, j, i);
    }
  }

  /**
   An identifier is recorded even where its candidate is then dropped for its content, so
   a third candidate can be lost although nothing kept has its identifier or its content.
   */
  lemma LostThird(a: Candidate, b: Candidate, c: Candidate)
    requires a.id != b.id && Content(a) == Content(b) && b.id == c.id && Content(c) != Content(a)
    ensures Canonical([a, b, c], {}, {}) == [a]
  {
    assert [a, b, c][1..] == [b, c] && [b, c][1..] == [c] && [c][1..] == [];
    assert Canonical([c], {a.id, b.id}, {Content(a)}) == Canonical([], {a.id, b.id}, {Content(a)}) == [];
    assert {} + {a.id} == {a.id} && {a.id} + {b.id} == {a.id, b.id} && {} + {Content(a)} == {Content(a)};
    assert Canonical([b, c], {a.id}, {Content(a)}) == Canonical([c], {a.id, b.id}, {Content(a)});
  }

  ghost predicate Distinct(selected: seq<Candidate>) {
    forall i, j | 0 <= i < j < |selected| :: selected[i].id != selected[j].id
        && Content(selected[i]) != Content(selected[j])
  }

  lemma LaterKeptDiffers(candidates: seq<Candidate>, i: nat, j: nat)
    requires i < j < |candidates| && Kept(candidates, i) && Kept(candidates, j)
    ensures candidates[i].id != candidates[j].id && Content(candidates[i]) != Content(candidates[j])
  {
  }

  ghost predicate ComesFrom(candidates: seq<Candidate>, i: nat, c: Candidate) {
    exists j: nat :: i <= j < |candidates| && Kept(candidates, j) && candidates[j] == c
  }

  lemma {:induction false} KeptAreDistinct(candidates: seq<Candidate>, i: nat)
    requires i <= |candidates|
    ensures Distinct(KeptFrom(candidates, i))
    ensures forall c | c in KeptFrom(candidates, i) :: ComesFrom(candidates, i, c)
    decreases |candidates| - i
  {
    if i < |candidates| {
      var rest := KeptFrom(candidates, i + 1);
      KeptAreDistinct(candidates, i + 1);
      forall c | c in rest
        ensures ComesFrom(candidates, i, c)
        ensures Kept(candidates, i) ==> candidates[i].id != c.id && Content(candidates[i]) != Content(c)
      {
        assert ComesFrom(candidates, i + 1, c);
        var j: nat :| i + 1 <= j < |candidates| && Kept(candidates, j) && candidates[j] == c;
        if Kept(candidates, i) {
          LaterKeptDiffers(candidates, i, j);
        }
      }
      if Kept(candidates, i) {
        assert KeptFrom(candidates, i) == [candidates[i]] + rest;
        assert forall k | 0 <= k < |rest| :: rest[k] in rest;
      }
    }
  }

  // -- Orders ------------------------------------------------------------------------

  lemma Orders()
    ensures Total(CanonicalLeq) && Total(RankLeq)
    ensures forall a, b :: CanonicalLeq(a, b) && CanonicalLeq(b, a) ==> a.scope == b.scope && a.id == b.id
    ensures forall a, b :: RankLeq(a, b) && RankLeq(b, a) ==> a.scope == b.scope && a.id == b.id
  {
    StringOrder();
  }

  /** A scope offers each identifier once. */
  ghost predicate OncePerScope(candidates: seq<Candidate>) {
    forall i, j | 0 <= i < j < |candidates| :: candidates[i].scope != candidates[j].scope
        || candidates[i].id != candidates[j].id
  }

  lemma OnceIsUntied(candidates: seq<Candidate>)
    requires OncePerScope(candidates)
    ensures Untied(candidates, CanonicalLeq)
  {
    Orders();
    forall a, b | a in candidates && b in candidates && CanonicalLeq(a, b) && CanonicalLeq(b, a)
      ensures a == b
    {
      var i :| 0 <= i < |candidates| && candidates[i] == a;
      var j :| 0 <= j < |candidates| && candidates[j] == b;
      assert i < j || j < i || i == j;
    }
  }

  lemma OnceTail(candidates: seq<Candidate>)
    requires OncePerScope(candidates) && candidates != []
    ensures OncePerScope(candidates[1..]) && candidates[0] !in candidates[1..]
  {
    var rest := candidates[1..];
    assert forall i | 0 <= i < |rest| :: rest[i] == candidates[i + 1];
  }

  lemma {:induction false} OnceCounts(candidates: seq<Candidate>, c: Candidate)
    requires OncePerScope(candidates)
    ensures multiset(candidates)[c] == if c in candidates then 1 else 0
  {
    if candidates != [] {
      OnceTail(candidates);
      OnceCounts(candidates[1..], c);
      assert candidates == [candidates[0]] + candidates[1..];
    }
  }

  // -- When the order of the candidates matters --------------------------------------

  /** The canonical order does not tell `a` and `b` apart. */
  predicate Tied(a: Candidate, b: Candidate) {
    a.scope == b.scope && a.score == b.score && a.id == b.id
  }

  /** `c` would be dropped at `i`: an earlier candidate has its identifier or an earlier kept one its content. */
  ghost predicate Preempted(s: seq<Candidate>, i: nat, c: Candidate)
    requires i <= |s|
  {
    MetId(s, i, c.id) || KeptContent(s, i, Content(c))
  }

  ghost predicate Harmless(s: seq<Candidate>, i: nat, j: nat)
    requires i < j < |s|
  {
    Tied(s[i], s[j]) && s[i] != s[j] ==> Preempted(s, i, s[i]) && Preempted(s, i, s[j])
  }

  /** Wherever different candidates tie, what comes before them drops them both anyway. */
  ghost predicate TiesAreHarmless(s: seq<Candidate>) {
    forall i, j | 0 <= i < j < |s| :: Harmless(s, i, j)
  }

  /** Every permutation of the candidates is ranked alike. */
  ghost predicate ForgetsOrder(candidates: seq<Candidate>) {
    forall other | multiset(other) == multiset(candidates) :: Ranked(other) == Ranked(candidates)
  }

  /** What the canonical order looks at. */
  function Bare(c: Candidate): Candidate {
    c.(title := [], content := [])
  }

  lemma {:induction false} MapAt(s: seq<Candidate>, i: nat)
    ensures |Map(s, Bare)| == |s|
    ensures i < |s| ==> Map(s, Bare)[i] == Bare(s[i])
  {
    if s != [] {
      MapAt(s[1..], if i > 0 then i - 1 else 0);
    }
  }

  lemma BareSorted(s: seq<Candidate>)
    requires Sorted(s, CanonicalLeq)
    ensures Sorted(Map(s, Bare), CanonicalLeq) && Untied(Map(s, Bare), CanonicalLeq)
  {
    Orders();
    var keys := Map(s, Bare);
    forall i: nat | i < |keys|
      ensures |keys| == |s| && keys[i] == Bare(s[i])
    {
      MapAt(s, i);
    }
    forall x, y | x in keys && y in keys && CanonicalLeq(x, y) && CanonicalLeq(y, x)
      ensures x == y
    {
      var i: nat :| i < |keys| && keys[i] == x;
      var j: nat :| j < |keys| && keys[j] == y;
      assert x == Bare(s[i]) && y == Bare(s[j]);
    }
  }

  /** Two canonical arrangements of the same candidates differ in tied places only. */
  lemma ArrangementsTie(s: seq<Candidate>, t: seq<Candidate>, i: nat)
    requires Sorted(s, CanonicalLeq) && Sorted(t, CanonicalLeq) && multiset(s) == multiset(t)
    ensures |s| == |t|
    ensures i < |s| ==> Tied(s[i], t[i])
  {
    Orders();
    SameElements(s, t);
    BareSorted(s);
    BareSorted(t);
    MapPermutes(s, t, Bare);
    SortedUnique(Map(s, Bare), Map(t, Bare), CanonicalLeq);
    MapAt(s, i);
    MapAt(t, i);
  }

  ghost predicate SameKept(s: seq<Candidate>, t: seq<Candidate>, i: nat)
    requires |s| == |t|
  {
    i < |s| ==> (Kept(s, i) <==> Kept(t, i)) && (Kept(s, i) ==> s[i] == t[i])
  }

  lemma SamePreempted(s: seq<Candidate>, t: seq<Candidate>, i: nat, c: Candidate)
    requires |s| == |t| && i < |s|
    requires forall k: nat | k < i :: s[k].id == t[k].id && SameKept(s, t, k)
    ensures Preempted(s, i, c) <==> Preempted(t, i, c)
  {
    forall k: nat | k < i
      ensures s[k].id == t[k].id && SameKept(s, t, k)
    {
    }
  }

  /** With harmless ties every arrangement keeps the same candidates in the same places. */
  lemma {:induction false} HarmlessKeepsSame(s: seq<Candidate>, t: seq<Candidate>, i: nat)
    requires Sorted(s, CanonicalLeq) && Sorted(t, CanonicalLeq) && multiset(s) == multiset(t)
    requires TiesAreHarmless(s) && |s| == |t|
    ensures SameKept(s, t, i)
    decreases i
  {
    if i < |s| {
      forall k: nat | k <= i
        ensures Tied(s[k], t[k])
        ensures k < i ==> SameKept(s, t, k)
      {
        ArrangementsTie(s, t, k);
        if k < i {
          HarmlessKeepsSame(s, t, k);
        }
      }
      KeptMeans(s, i);
      KeptMeans(t, i);
      SamePreempted(s, t, i, t[i]);
      if s[i] != t[i] {
        SameElements(s, t);
        assert t[i] in s;
        var j: nat :| j < |s| && s[j] == t[i];
        if i < j {
          assert Harmless(s, i, j);
        } else {
          assert s[j].id == s[i].id;
        }
      }
    }
  }

  lemma {:induction false} SameKeptFrom(s: seq<Candidate>, t: seq<Candidate>, i: nat)
    requires |s| == |t| && i <= |s| && forall k :: SameKept(s, t, k)
    ensures KeptFrom(s, i) == KeptFrom(t, i)
    decreases |s| - i
  {
    if i < |s| {
      assert SameKept(s, t, i);
      SameKeptFrom(s, t, i + 1);
    }
  }

  lemma HarmlessForgets(a: seq<Candidate>, b: seq<Candidate>)
    requires multiset(a) == multiset(b) && TiesAreHarmless(Sort(a, CanonicalLeq))
    ensures Ranked(a) == Ranked(b)
  {
    Orders();
    var s, t := Sort(a, CanonicalLeq), Sort(b, CanonicalLeq);
    SortSorts(a, CanonicalLeq);
    SortSorts(b, CanonicalLeq);
    SameElements(s, t);
    forall k
      ensures SameKept(s, t, k)
    {
      HarmlessKeepsSame(s, t, k);
    }
    SameKeptFrom(s, t, 0);
    WholePass(s);
    WholePass(t);
  }

  lemma WholePass(s: seq<Candidate>)
    ensures Canonical(s, {}, {}) == KeptFrom(s, 0)
  {
    assert s[0..] == s;
    CanonicalKeeps(s, 0, {}, {});
  }

  lemma {:induction false} KeptEnters(s: seq<Candidate>, i: nat, m: nat)
    requires i <= m < |s| && Kept(s, m)
    ensures s[m] in KeptFrom(s, i)
    decreases m - i
  {
    if i < m {
      KeptEnters(s, i + 1, m);
    }
  }

  /** A candidate is ranked exactly when it stands at a kept place of the canonical arrangement. */
  lemma RankedExactly(candidates: seq<Candidate>, c: Candidate)
    ensures c in Ranked(candidates) <==> KeptSomewhere(Sort(candidates, CanonicalLeq), c)
  {
    var s := Sort(candidates, CanonicalLeq);
    RankingHoldsKept(candidates);
    SameElements(Ranked(candidates), KeptFrom(s, 0));
    if m: nat :| m < |s| && Kept(s, m) && s[m] == c {
      KeptEnters(s, 0, m);
    }
    if c in Ranked(candidates) {
      var m := RankedIsKept(candidates, c);
    }
  }

  lemma {:induction false} KeptLooksBack(s: seq<Candidate>, t: seq<Candidate>, i: nat)
    requires i < |s| && i < |t| && s[..i + 1] == t[..i + 1]
    ensures Kept(s, i) <==> Kept(t, i)
    decreases i
  {
    assert s[..i + 1][i] == t[..i + 1][i];
    forall j: nat | j < i
      ensures s[j] == t[j] && (Kept(s, j) <==> Kept(t, j))
    {
      assert s[j] == s[..i + 1][j] == t[..i + 1][j] == t[j];
      assert s[..j + 1] == s[..i + 1][..j + 1] && t[..j + 1] == t[..i + 1][..j + 1];
      KeptLooksBack(s, t, j);
    }
  }

  lemma MetLooksBack(s: seq<Candidate>, t: seq<Candidate>, i: nat, id: string)
    requires i <= |s| && i <= |t| && s[..i] == t[..i]
    ensures MetId(s, i, id) <==> MetId(t, i, id)
  {
    assert forall k | 0 <= k < i :: s[k] == s[..i][k] == t[..i][k] == t[k];
  }

  lemma PreemptedLooksBack(s: seq<Candidate>, t: seq<Candidate>, i: nat, c: Candidate)
    requires i < |s| == |t| && s[..i] == t[..i]
    ensures Preempted(s, i, c) <==> Preempted(t, i, c)
  {
    forall k: nat | k < i
      ensures s[k].id == t[k].id && SameKept(s, t, k)
    {
      assert s[k] == s[..i][k] == t[..i][k] == t[k];
      assert s[..k + 1] == s[..i][..k + 1] && t[..k + 1] == t[..i][..k + 1];
      KeptLooksBack(s, t, k);
    }
    SamePreempted(s, t, i, c);
  }

  lemma KeptIsFirst(s: seq<Candidate>, i: nat, m: nat)
    requires i < |s| && m < |s| && Kept(s, m) && s[m].id == s[i].id && !MetId(s, i, s[i].id)
    ensures m == i
  {
    KeptIsEarliest(s, m, i);
  }

  ghost predicate KeptSomewhere(s: seq<Candidate>, c: Candidate) {
    exists m: nat :: m < |s| && Kept(s, m) && s[m] == c
  }

  /** The candidate at the first place of its identifier is kept unless preempted, and no other of that
      identifier ever is. */
  lemma OnlyFirstIsKept(s: seq<Candidate>, i: nat, c: Candidate)
    requires i < |s| && c.id == s[i].id && !MetId(s, i, c.id)
    ensures KeptSomewhere(s, c) <==> s[i] == c && !Preempted(s, i, c)
  {
    if s[i] == c {
      KeptMeans(s, i);
    }
    if KeptSomewhere(s, c) {
      var m: nat :| m < |s| && Kept(s, m) && s[m] == c;
      KeptIsFirst(s, i, m);
    }
  }

  lemma SwapStaysSorted(s: seq<Candidate>, i: nat, j: nat)
    requires i < j < |s| && Sorted(s, CanonicalLeq) && Tied(s[i], s[j])
    ensures Sorted(s[i := s[j]][j := s[i]], CanonicalLeq)
  {
    var t := s[i := s[j]][j := s[i]];
    assert forall k | 0 <= k < |s| :: Tied(s[k], t[k]);
    forall k, l | 0 <= k < l < |t|
      ensures CanonicalLeq(t[k], t[l])
    {
      assert CanonicalLeq(s[k], s[l]);
      assert Tied(s[k], t[k]) && Tied(s[l], t[l]);
    }
  }

  /** Swapping two tied candidates of which one would be kept changes what is ranked. */
  lemma HarmfulTieShows(a: seq<Candidate>, i: nat, j: nat)
    requires var s := Sort(a, CanonicalLeq); i < j < |s| && !Harmless(s, i, j)
    ensures !ForgetsOrder(a)
  {
    Orders();
    var s := Sort(a, CanonicalLeq);
    var t := s[i := s[j]][j := s[i]];
    SortSorts(a, CanonicalLeq);
    SwapPermutes(s, i, j);
    SwapStaysSorted(s, i, j);
    SortedStays(t, CanonicalLeq);
    SwapShows(a, t, i, j);
    assert multiset(t) == multiset(a) && Ranked(t) != Ranked(a);
  }

  lemma SwapShows(a: seq<Candidate>, t: seq<Candidate>, i: nat, j: nat)
    requires var s := Sort(a, CanonicalLeq); i < j < |s| && !Harmless(s, i, j) && t == s[i := s[j]][j := s[i]]
    requires Sort(t, CanonicalLeq) == t
    ensures Ranked(t) != Ranked(a)
  {
    var s := Sort(a, CanonicalLeq);
    assert s[..i] == t[..i];
    PreemptedLooksBack(s, t, i, s[j]);
    MetLooksBack(s, t, i, s[i].id);
    ShowsAt(a, t, i, s[i]);
    ShowsAt(a, t, i, s[j]);
  }

  lemma ShowsAt(a: seq<Candidate>, b: seq<Candidate>, i: nat, c: Candidate)
    requires var s, t := Sort(a, CanonicalLeq), Sort(b, CanonicalLeq);
             && i < |s| && i < |t| && c.id == s[i].id == t[i].id && !MetId(s, i, c.id) && !MetId(t, i, c.id)
    ensures var s, t := Sort(a, CanonicalLeq), Sort(b, CanonicalLeq);
            && (c in Ranked(a) <==> s[i] == c && !Preempted(s, i, c))
            && (c in Ranked(b) <==> t[i] == c && !Preempted(t, i, c))
  {
    RankedExactly(a, c);
    RankedExactly(b, c);
    OnlyFirstIsKept(Sort(a, CanonicalLeq), i, c);
    OnlyFirstIsKept(Sort(b, CanonicalLeq), i, c);
  }

  /** The ranking is a function of the multiset of candidates if and only if all ties are harmless. */
  lemma SelectionForgetsOrder(a: seq<Candidate>)
    ensures ForgetsOrder(a) <==> TiesAreHarmless(Sort(a, CanonicalLeq))
  {
    var s := Sort(a, CanonicalLeq);
    if TiesAreHarmless(s) {
      forall b | multiset(b) == multiset(a)
        ensures Ranked(b) == Ranked(a)
      {
        HarmlessForgets(a, b);
      }
    } else {
      var i, j :| 0 <= i < j < |s| && !Harmless(s, i, j);
      HarmfulTieShows(a, i, j);
    }
  }

  lemma UntiedPair(a: seq<Candidate>, c: Candidate, d: Candidate)
    requires Untied(a, CanonicalLeq) && c in a && d in a
    ensures Tied(c, d) ==> c == d
  {
    StringLeqTotal(c.id, d.id);
  }

  /** Where no two different candidates tie, all ties are harmless: in particular where a scope offers
      an identifier again only with another score. */
  lemma UntiedIsHarmless(a: seq<Candidate>, b: seq<Candidate>, maxCandidates: nat, limit: nat)
    requires Untied(a, CanonicalLeq) && multiset(a) == multiset(b)
    ensures Selected(a, maxCandidates, limit) == Selected(b, maxCandidates, limit)
  {
    var s := Sort(a, CanonicalLeq);
    SameElements(a, s);
    forall i, j | 0 <= i < j < |s|
      ensures Harmless(s, i, j)
    {
      UntiedPair(a, s[i], s[j]);
    }
    HarmlessForgets(a, b);
  }

  /** With each identifier once in a scope, the selection is a function of the set of candidates. */
  lemma OnceForgetsOrder(a: seq<Candidate>, b: seq<Candidate>, maxCandidates: nat, limit: nat)
    requires OncePerScope(a) && OncePerScope(b)
    requires forall c :: c in a <==> c in b
    ensures Selected(a, maxCandidates, limit) == Selected(b, maxCandidates, limit)
  {
    forall c
      ensures multiset(a)[c] == multiset(b)[c]
    {
      OnceCounts(a, c);
      OnceCounts(b, c);
    }
    assert multiset(a) == multiset(b);
    OnceIsUntied(a);
    UntiedIsHarmless(a, b, maxCandidates, limit);
  }

  /** A scope that offers an identifier twice with one score makes the selection depend on their order. */
  lemma TwiceInOneScope(a: Candidate, b: Candidate)
    requires a.scope == b.scope && a.id == b.id && a.score == b.score
    ensures Ranked([a, b]) == [a] && Ranked([b, a]) == [b]
  {
    PairKeepsFirst(a, b);
    PairKeepsFirst(b, a);
  }

  lemma PairKeepsFirst(a: Candidate, b: Candidate)
    requires a.scope == b.scope && a.id == b.id && a.score == b.score
    ensures Ranked([a, b]) == [a]
  {
    StringLeqTotal(a.id, b.id);
    assert [a, b][1..] == [b] && [b][1..] == [] && [a][1..] == [];
    assert Sort([b], CanonicalLeq) == [b];
    assert Sort([a, b], CanonicalLeq) == [a, b];
    assert Canonical([b], {} + {a.id}, {} + {Content(a)}) == [];
    assert Canonical([a, b], {}, {}) == [a];
    assert Sort([a], RankLeq) == [a];
  }

  lemma DistinctPermutes(a: seq<Candidate>, b: seq<Candidate>)
    requires Distinct(a) && multiset(a) == multiset(b)
    ensures Distinct(b)
  {
    SameElements(a, b);
    forall i, j | 0 <= i < j < |b|
      ensures b[i].id != b[j].id && Content(b[i]) != Content(b[j])
    {
      if b[i] == b[j] {
        assert b == b[..i] + [b[i]] + b[i + 1..j] + [b[j]] + b[j + 1..];
        assert multiset(b)[b[i]] >= 2;
        DistinctOnce(a, b[i]);
      } else {
        assert b[i] in a && b[j] in a;
        var k :| 0 <= k < |a| && a[k] == b[i];
        var l :| 0 <= l < |a| && a[l] == b[j];
        assert k < l || l < k;
      }
    }
  }

  lemma DistinctTail(a: seq<Candidate>)
    requires Distinct(a) && a != []
    ensures Distinct(a[1..]) && a[0] !in a[1..]
  {
    var rest := a[1..];
    assert forall i | 0 <= i < |rest| :: rest[i] == a[i + 1];
  }

  lemma {:induction false} DistinctOnce(a: seq<Candidate>, c: Candidate)
    requires Distinct(a)
    ensures multiset(a)[c] <= 1
  {
    if a != [] {
      DistinctTail(a);
      DistinctOnce(a[1..], c);
      assert a == [a[0]] + a[1..];
    }
  }

  /** The ranking holds the kept candidates, by score, scope and identifier, all distinct. */
  lemma RankingHoldsKept(candidates: seq<Candidate>)
    ensures Distinct(Ranked(candidates)) && Sorted(Ranked(candidates), RankLeq)
    ensures multiset(Ranked(candidates)) == multiset(KeptFrom(Sort(candidates, CanonicalLeq), 0))
  {
    var sorted := Sort(candidates, CanonicalLeq);
    assert sorted[0..] == sorted;
    CanonicalKeeps(sorted, 0, {}, {});
    KeptAreDistinct(sorted, 0);
    Orders();
    SortSorts(Canonical(sorted, {}, {}), RankLeq);
    DistinctPermutes(Canonical(sorted, {}, {}), Ranked(candidates));
  }

  /** `selected` is the top of the ranking: distinct, within both caps, and cut short only by one of them. */
  ghost predicate IsTop(selected: seq<Candidate>, ranked: seq<Candidate>, maxCandidates: nat, limit: nat) {
    && Distinct(selected) && selected <= ranked
    && |selected| <= Clamp(limit, 1, 32) && |selected| <= Clamp(maxCandidates, 1, 512)
    && (|selected| < |ranked| ==> |selected| == Clamp(limit, 1, 32) || |selected| == Clamp(maxCandidates, 1, 512))
  }

  lemma CappedIsTop(ranked: seq<Candidate>, maxCandidates: nat, limit: nat)
    requires Distinct(ranked)
    ensures IsTop(Capped(ranked, maxCandidates, limit), ranked, maxCandidates, limit)
  {
    var selected := Capped(ranked, maxCandidates, limit);
    assert selected <= ranked;
    assert forall i | 0 <= i < |selected| :: selected[i] == ranked[i];
  }

  /**
   Results have pairwise distinct identifiers and contents, are ordered by score, scope
   and identifier, respect both caps, and nothing kept that was cut ranks before them.
   */
  lemma SelectionIsRanked(candidates: seq<Candidate>, maxCandidates: nat, limit: nat)
    ensures Sorted(Ranked(candidates), RankLeq)
    ensures IsTop(Selected(candidates, maxCandidates, limit), Ranked(candidates), maxCandidates, limit)
  {
    RankingHoldsKept(candidates);
    CappedIsTop(Ranked(candidates), maxCandidates, limit);
  }

  /**
   The copy of an identifier that enters the ranking is the canonical one: no candidate
   with that identifier is of a closer scope, nor of the same scope with a higher score.
   */
  lemma CanonicalCopyWins(candidates: seq<Candidate>, c: Candidate, d: Candidate)
    requires c in Ranked(candidates) && d in candidates && c.id == d.id
    ensures d.scope == Project ==> c.scope == Project
    ensures d.scope == Shared ==> c.scope != Global
    ensures c.scope == d.scope ==> d.score <= c.score
  {
    var sorted := Sort(candidates, CanonicalLeq);
    var i := RankedIsKept(candidates, c);
    SameElements(candidates, sorted);
    assert d in sorted;
    var j: nat :| 0 <= j < |sorted| && sorted[j] == d;
    KeptIsEarliest(sorted, i, j);
    Orders();
    SortSorts(candidates, CanonicalLeq);
    assert i < j ==> CanonicalLeq(sorted[i], sorted[j]);
  }

  lemma ResultsInOrder(candidates: seq<Candidate>, maxCandidates: nat, limit: nat)
    ensures var selected := Selected(candidates, maxCandidates, limit);
            && selected <= Ranked(candidates)
            && forall i, j | 0 <= i < j < |selected| ::
                 && selected[i].score >= selected[j].score
                 && (selected[i].score == selected[j].score ==>
                       (selected[j].scope == Project ==> selected[i].scope == Project)
                       && (selected[j].scope == Shared ==> selected[i].scope != Global)
                       && (selected[j].scope == selected[i].scope ==> StringLeq(selected[i].id, selected[j].id)))
  {
    SelectionIsRanked(candidates, maxCandidates, limit);
    var selected, ranked := Selected(candidates, maxCandidates, limit), Ranked(candidates);
    forall i, j | 0 <= i < j < |selected|
      ensures RankLeq(selected[i], selected[j])
    {
      assert selected[i] == ranked[i] && selected[j] == ranked[j];
    }
  }

  lemma CapsHold(ranked: seq<Candidate>, maxCandidates: nat, limit: nat)
    ensures var n := |Capped(ranked, maxCandidates, limit)|;
            && n <= 32 && (limit > 0 ==> n <= limit) && (maxCandidates > 0 ==> n <= maxCandidates)
            && (limit == 0 || maxCandidates == 0 ==> n <= 1) && (ranked != [] ==> n > 0)
            && (n < |ranked| ==> n == 32 || n == limit || n == maxCandidates || limit == 0 || maxCandidates == 0)
  {
  }

  lemma RankedIsClosest(candidates: seq<Candidate>, c: Candidate)
    requires c in Ranked(candidates)
    ensures c in candidates
    ensures forall d | d in candidates && c.id == d.id ::
        && (d.scope == Project ==> c.scope == Project) && (d.scope == Shared ==> c.scope != Global)
        && (d.scope == c.scope ==> d.score <= c.score)
  {
    var i := RankedIsKept(candidates, c);
    SameElements(candidates, Sort(candidates, CanonicalLeq));
    forall d | d in candidates && c.id == d.id
      ensures (d.scope == Project ==> c.scope == Project) && (d.scope == Shared ==> c.scope != Global)
      ensures d.scope == c.scope ==> d.score <= c.score
    {
      CanonicalCopyWins(candidates, c, d);
    }
  }

  /** The first candidate of the canonical arrangement is always kept. */
  lemma RankedNotEmpty(candidates: seq<Candidate>)
    ensures candidates != [] ==> Ranked(candidates) != []
  {
    if candidates != [] {
      var sorted := Sort(candidates, CanonicalLeq);
      SameElements(candidates, sorted);
      assert Kept(sorted, 0);
      RankingHoldsKept(candidates);
      SameElements(Ranked(candidates), KeptFrom(sorted, 0));
    }
  }

  /** The canonical arrangement, spelled out: the project's candidates, then the shared, then the global
      ones; within a scope by falling score; at one score by identifier. */
  lemma ArrangedByScope(candidates: seq<Candidate>, i: nat, j: nat)
    requires i < j < |candidates|
    ensures var s := Sort(candidates, CanonicalLeq);
            && |s| == |candidates|
            && (s[j].scope == Project ==> s[i].scope == Project)
            && (s[j].scope == Shared ==> s[i].scope != Global)
            && (s[i].scope == s[j].scope ==> s[i].score >= s[j].score)
            && (s[i].scope == s[j].scope && s[i].score == s[j].score ==> StringLeq(s[i].id, s[j].id))
  {
    var s := Sort(candidates, CanonicalLeq);
    Orders();
    SameElements(candidates, s);
    SortSorts(candidates, CanonicalLeq);
    assert CanonicalLeq(s[i], s[j]);
  }

  /** For titles without the separating character, what is compared is title and content, both. */
  lemma ContentIsBoth(a: Candidate, b: Candidate)
    requires '\0' !in a.title && '\0' !in b.title
    ensures Content(a) == Content(b) <==> a.title == b.title && a.content == b.content
  {
    if Content(a) == Content(b) {
      SeparatorIsFirst(a, b);
      SeparatorIsFirst(b, a);
      assert a.title == Content(a)[..|a.title|] && b.title == Content(b)[..|b.title|];
      assert a.content == Content(a)[|a.title| + 1..] && b.content == Content(b)[|b.title| + 1..];
    }
  }

  lemma SeparatorIsFirst(a: Candidate, b: Candidate)
    requires '\0' !in b.title && Content(a) == Content(b)
    ensures |b.title| <= |a.title|
  {
    assert Content(a)[|a.title|] == '\0';
    assert forall i | 0 <= i < |b.title| :: Content(b)[i] == b.title[i] != '\0';
  }

  lemma KeptIsEarliest(candidates: seq<Candidate>, i: nat, j: nat)
    requires i < |candidates| && j < |candidates| && Kept(candidates, i) && candidates[i].id == candidates[j].id
    ensures i <= j
  {
  }

  lemma RankedIsKept(candidates: seq<Candidate>, c: Candidate) returns (i: nat)
    requires c in Ranked(candidates)
    ensures var sorted := Sort(candidates, CanonicalLeq); i < |sorted| && Kept(sorted, i) && sorted[i] == c
  {
    var sorted := Sort(candidates, CanonicalLeq);
    RankingHoldsKept(candidates);
    SameElements(Ranked(candidates), KeptFrom(sorted, 0));
    KeptAreDistinct(sorted, 0);
    assert ComesFrom(sorted, 0, c);
    i :| 0 <= i < |sorted| && Kept(sorted, i) && sorted[i] == c;
  }

  // -- Cutting at a character --------------------------------------------------------

  type Byte = b: int | 0 <= b < 256

  predicate IsContinuation(b: Byte) {
    0x80 <= b < 0xC0
  }

  /** The shape of an encoded character: one leading byte, then only continuation bytes. */
  predicate IsEncoded(c: seq<Byte>) {
    c != [] && !IsContinuation(c[0]) && forall i | 0 < i < |c| :: IsContinuation(c[i])
  }

  /** The bytes of a code point (section 3 of RFC 3629). */
  function Utf8(c: int): seq<Byte>
    requires 0 <= c < 0x11_0000
  {
    if c < 0x80 then [c]
    else if c < 0x800 then [0xC0 + c / 64, 0x80 + c % 64]
    else if c < 0x1_0000 then [0xE0 + c / 4096, 0x80 + c / 64 % 64, 0x80 + c % 64]
    else [0xF0 + c / 262_144, 0x80 + c / 4096 % 64, 0x80 + c / 64 % 64, 0x80 + c % 64]
  }

  /** Every encoded code point has that shape; and a byte is a continuation if its two top bits are 10. */
  lemma EncodedIsEncoded(c: int, b: Byte)
    requires 0 <= c < 0x11_0000
    ensures IsEncoded(Utf8(c))
    ensures IsContinuation(b) <==> b / 64 == 2
  {
  }

  function Bytes(characters: seq<seq<Byte>>): seq<Byte> {
    if characters == [] then [] else characters[0] + Bytes(characters[1..])
  }

  predicate IsBoundary(value: seq<Byte>, end: nat)
    requires end <= |value|
  {
    end == 0 || end == |value| || !IsContinuation(value[end])
  }

  /** `truncate_utf8`: walks back from the limit to a boundary. */
  method TruncateUtf8(value: seq<Byte>, maxBytes: nat) returns (cut: seq<Byte>)
    ensures IsLongestCut(value, maxBytes, cut)
  {
    if |value| <= maxBytes {
      return value;
    }
    var end: nat := maxBytes;
    while !IsBoundary(value, end)
      invariant end <= maxBytes
      decreases end
      invariant forall e | end < e <= maxBytes :: !IsBoundary(value, e)
    {
      end := end - 1;
    }
    cut := value[..end];
  }

  lemma {:induction false} BytesPrefix(characters: seq<seq<Byte>>, n: nat)
    requires n <= |characters|
    ensures |Bytes(characters[..n])| <= |Bytes(characters)|
        && Bytes(characters)[..|Bytes(characters[..n])|] == Bytes(characters[..n])
  {
    if n > 0 {
      BytesPrefix(characters[1..], n - 1);
      assert characters[..n][0] == characters[0] && characters[..n][1..] == characters[1..][..n - 1];
    }
  }

  /** The boundaries of encoded text are the ends of its characters. */
  lemma {:induction false} BoundariesEndCharacters(characters: seq<seq<Byte>>, end: nat) returns (n: nat)
    requires forall i | 0 <= i < |characters| :: IsEncoded(characters[i])
    requires end <= |Bytes(characters)| && IsBoundary(Bytes(characters), end)
    ensures n <= |characters| && |Bytes(characters[..n])| == end
  {
    if end == 0 {
      n := 0;
    } else {
      var first, rest := characters[0], Bytes(characters[1..]);
      assert Bytes(characters) == first + rest;
      assert forall i | 0 <= i < |first| :: Bytes(characters)[i] == first[i];
      assert end > |first| && end < |Bytes(characters)| ==> Bytes(characters)[end] == rest[end - |first|];
      n := BoundariesEndCharacters(characters[1..], end - |first|);
      assert characters[..n + 1][1..] == characters[1..][..n];
      n := n + 1;
    }
  }

  lemma {:induction false} CharacterEndsAreBoundaries(characters: seq<seq<Byte>>, n: nat)
    requires forall i | 0 <= i < |characters| :: IsEncoded(characters[i])
    requires n <= |characters|
    ensures |Bytes(characters[..n])| <= |Bytes(characters)| && IsBoundary(Bytes(characters), |Bytes(characters[..n])|)
  {
    BytesPrefix(characters, n);
    if 0 < n {
      var end := |Bytes(characters[1..][..n - 1])|;
      assert characters[..n][0] == characters[0] && characters[..n][1..] == characters[1..][..n - 1];
      CharacterEndsAreBoundaries(characters[1..], n - 1);
      if end < |Bytes(characters[1..])| {
        assert Bytes(characters)[|characters[0]| + end] == Bytes(characters[1..])[end];
        if n == 1 {
          assert Bytes(characters[1..])[0] == characters[1][0];
        }
      }
    }
  }

  /** `cut` is the longest prefix of `value` within the limit that ends at a boundary. */
  ghost predicate IsLongestCut(value: seq<Byte>, maxBytes: nat, cut: seq<Byte>) {
    && cut <= value && |cut| <= maxBytes && IsBoundary(value, |cut|)
    && forall e | |cut| < e <= maxBytes && e <= |value| :: !IsBoundary(value, e)
  }

  /** Cut encoded text is encoded text: the longest run of whole characters that fits. */
  lemma CutKeepsCharacters(characters: seq<seq<Byte>>, maxBytes: nat, cut: seq<Byte>) returns (n: nat)
    requires forall i | 0 <= i < |characters| :: IsEncoded(characters[i])
    requires IsLongestCut(Bytes(characters), maxBytes, cut)
    ensures n <= |characters| && cut == Bytes(characters[..n])
    ensures n < |characters| ==> |Bytes(characters[..n + 1])| > maxBytes
  {
    n := BoundariesEndCharacters(characters, |cut|);
    BytesPrefix(characters, n);
    if n < |characters| {
      CharacterEndsAreBoundaries(characters, n + 1);
      BytesPrefix(characters[..n + 1], n);
      assert characters[..n + 1][..n] == characters[..n];
      OneMoreCharacter(characters, n);
    }
  }

  lemma {:induction false} OneMoreCharacter(characters: seq<seq<Byte>>, n: nat)
    requires n < |characters| && characters[n] != []
    ensures |Bytes(characters[..n + 1])| > |Bytes(characters[..n])|
  {
    if n > 0 {
      OneMoreCharacter(characters[1..], n - 1);
      assert characters[..n + 1][1..] == characters[1..][..n] && characters[..n][1..] == characters[1..][..n - 1];
    }
  }
}
