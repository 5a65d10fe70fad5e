/**
 Footnote labels for the sources of an entry: labels the model chose are kept, and
 what is invented never takes one of them.
 */
module FootnoteLabels {
  import opened ArticleIds
  import opened Basics
  import opened Decimals

  datatype Source = Source(id: Option<string>, resource: string, extra: map<string, string>)

  /** `[^label]` can be written with it. */
  predicate IsFootnoteLabel(text: string) {
    text != [] && forall i | 0 <= i < |text| ::
      !IsWhitespace(text[i]) && text[i] != '[' && text[i] != ']' && text[i] != '^'
  }

  // -- Numbered labels ---------------------------------------------------------------------

  function Suffix(n: nat): (s: string)
    ensures forall i | 0 <= i < |s| :: '0' <= s[i] <= '9' || s[i] == '-'
  {
    DecimalDigits(n);
    if n == 1 then [] else "-" + Decimal(n)
  }

  /** `label`, `label-2`, `label-3`... */
  function Candidate(base: string, n: nat): string {
    base + Suffix(n)
  }

  lemma {:induction false} LowerConcat(a: string, b: string)
    ensures Lower(a + b) == Lower(a) + Lower(b)
  {
    if a == [] {
      assert a + b == b;
    } else {
      LowerConcat(a[1..], b);
      assert (a + b)[0] == a[0] && (a + b)[1..] == a[1..] + b;
      Regroup(Lower(a)[..1], Lower(a[1..]), Lower(b));
    }
  }

  lemma {:induction false} LowerKeepsDigits(s: string)
    requires forall i | 0 <= i < |s| :: '0' <= s[i] <= '9' || s[i] == '-'
    ensures Lower(s) == s
  {
    if s != [] {
      LowerKeepsDigits(s[1..]);
    }
  }

  lemma SuffixesDiffer(m: nat, n: nat)
    requires 0 < m < n
    ensures Suffix(m) != Suffix(n)
  {
    DecimalValue(m);
    DecimalValue(n);
    if m != 1 {
      assert Suffix(m)[1..] == Decimal(m) && Suffix(n)[1..] == Decimal(n);
    }
  }

  lemma CandidatesDiffer(base: string, m: nat, n: nat)
    requires 0 < m < n
    ensures Lower(Candidate(base, m)) != Lower(Candidate(base, n))
  {
    LowerConcat(base, Suffix(m));
    LowerConcat(base, Suffix(n));
    LowerKeepsDigits(Suffix(m));
    LowerKeepsDigits(Suffix(n));
    SuffixesDiffer(m, n);
    assert (Lower(base) + Suffix(m))[|Lower(base)|..] == Suffix(m);
    assert (Lower(base) + Suffix(n))[|Lower(base)|..] == Suffix(n);
  }

  lemma CandidateIsLabel(base: string, n: nat)
    requires IsFootnoteLabel(base)
    ensures IsFootnoteLabel(Candidate(base, n))
  {
  }

  /** The folded candidates numbered below `n`. */
  ghost function Tried(base: string, n: nat): set<string> {
    if n <= 1 then {} else Tried(base, n - 1) + {Lower(Candidate(base, n - 1))}
  }

  lemma {:induction false} TriedBelow(base: string, n: nat, x: string) returns (m: nat)
    requires x in Tried(base, n)
    ensures 0 < m < n && Lower(Candidate(base, m)) == x
  {
    if x == Lower(Candidate(base, n - 1)) {
      m := n - 1;
    } else {
      m := TriedBelow(base, n - 1, x);
    }
  }

  lemma {:induction false} TriedCount(base: string, n: nat)
    requires n >= 1
    ensures |Tried(base, n)| == n - 1
  {
    if n > 1 {
      var last := Lower(Candidate(base, n - 1));
      TriedCount(base, n - 1);
      if last in Tried(base, n - 1) {
        var m := TriedBelow(base, n - 1, last);
        CandidatesDiffer(base, m, n - 1);
      }
    }
  }

  /** Pigeonhole: not all of the first `|taken| + 1` candidates are taken. */
  lemma SomeCandidateIsFree(base: string, taken: set<string>, n: nat)
    requires n >= 1 && forall m: nat | 0 < m < n :: Lower(Candidate(base, m)) in taken
    ensures n <= |taken| + 1
  {
    forall x | x in Tried(base, n)
      ensures x in taken
    {
      var m := TriedBelow(base, n, x);
    }
    TriedCount(base, n);
    SubsetSize(Tried(base, n), taken);
  }

  lemma SubsetSize(a: set<string>, b: set<string>)
    requires a <= b
    ensures |a| <= |b|
  {
    assert b == a + (b - a);
  }

  /** `claim_free`: one of the first `|taken| + 1` candidates is free, so the search ends there at the latest. */
  method ClaimFree(base: string, taken: set<string>) returns (free: string, n: nat)
    ensures 1 <= n <= |taken| + 1 && free == Candidate(base, n)
    ensures Lower(free) !in taken && forall m: nat | 0 < m < n :: Lower(Candidate(base, m)) in taken
  {
    n := 1;
    while Lower(Candidate(base, n)) in taken
      invariant n >= 1
      invariant forall m: nat | 0 < m < n :: Lower(Candidate(base, m)) in taken
      invariant n <= |taken| + 1
      decreases |taken| + 1 - n
    {
      SomeCandidateIsFree(base, taken, n + 1);
      n := n + 1;
    }
    free := Candidate(base, n);
  }

  /** A resource whose slug is not empty lends its slug as the label. */
  lemma SlugIsLabel(resource: string)
    ensures IsFootnoteLabel(FromSlug(resource)) <==> FromSlug(resource) != []
  {
    SlugChars(resource);
  }

  // -- Three rounds of claims ------------------------------------------------------------------

  /** The label the model chose, if it can be used. */
  function Chosen(source: Source): Option<string> {
    if source.id.Some? && IsFootnoteLabel(source.id.value) then source.id else None
  }

  function DerivedBase(resource: string): (base: string)
    ensures IsFootnoteLabel(base)
  {
    var derived := FromSlug(resource);
    if IsFootnoteLabel(derived) then derived else "source"
  }

  /** What a source's label is made from: the chosen label, else its resource's slug. */
  function Base(source: Source): (base: string)
    ensures IsFootnoteLabel(base)
  {
    if Chosen(source).Some? then Chosen(source).value else DerivedBase(source.resource)
  }

  /** No source before `i` chose the same label, letter case aside. */
  ghost predicate IsFirstUse(sources: seq<Source>, i: int)
    requires 0 <= i < |sources|
  {
    && Chosen(sources[i]).Some?
    && forall j | 0 <= j < i && Chosen(sources[j]).Some? ::
      Lower(Chosen(sources[j]).value) != Lower(Chosen(sources[i]).value)
  }

  /** First uses claim in round 0, repeats in round 1, sources without a usable label in round 2. */
  ghost function Round(sources: seq<Source>, i: int): nat
    requires 0 <= i < |sources|
  {
    if Chosen(sources[i]) == None then 2 else if IsFirstUse(sources, i) then 0 else 1
  }

  ghost predicate Precedes(sources: seq<Source>, j: int, i: int)
    requires 0 <= i < |sources| && 0 <= j < |sources|
  {
    Round(sources, j) < Round(sources, i) || (Round(sources, j) == Round(sources, i) && j < i)
  }

  ghost predicate Labels(ids: seq<Option<string>>, j: int, x: string) {
    0 <= j < |ids| && ids[j].Some? && Lower(ids[j].value) == x
  }

  ghost predicate TakenBefore(sources: seq<Source>, ids: seq<Option<string>>, i: int, x: string)
    requires |ids| == |sources| && 0 <= i < |ids|
  {
    exists j :: Labels(ids, j, x) && Precedes(sources, j, i)
  }

  /** `n` is the number of the candidate that source `i` got: all earlier ones had been claimed. */
  ghost predicate Claimed(sources: seq<Source>, ids: seq<Option<string>>, i: int, n: nat)
    requires |ids| == |sources| && 0 <= i < |ids|
  {
    && 0 < n && ids[i] == Some(Candidate(Base(sources[i]), n))
    && (Round(sources, i) == 0 ==> n == 1)
    && forall m: nat | 0 < m < n :: TakenBefore(sources, ids, i, Lower(Candidate(Base(sources[i]), m)))
  }

  lemma FirstCandidate(base: string)
    ensures Candidate(base, 1) == base
  {
  }

  /** Source `i` has a usable label, claimed in its turn. */
  ghost predicate Rightful(sources: seq<Source>, ids: seq<Option<string>>, i: int)
    requires |ids| == |sources| && 0 <= i < |ids|
  {
    ids[i].Some? && IsFootnoteLabel(ids[i].value) && exists n :: Claimed(sources, ids, i, n)
  }

  ghost predicate Done(sources: seq<Source>, round: nat, k: nat, i: int)
    requires 0 <= i < |sources|
  {
    Round(sources, i) < round || (Round(sources, i) == round && i < k)
  }

  ghost predicate TakenAre(ids: seq<Option<string>>, taken: set<string>) {
    forall x :: x in taken <==> exists i :: Labels(ids, i, x)
  }

  ghost predicate DistinctLabels(ids: seq<Option<string>>) {
    forall i, j | 0 <= i < j < |ids| && ids[i].Some? && ids[j].Some? :: Lower(ids[i].value) != Lower(ids[j].value)
  }

  ghost predicate DoneExactly(sources: seq<Source>, ids: seq<Option<string>>, round: nat, k: nat)
    requires |ids| == |sources|
  {
    forall i | 0 <= i < |ids| :: ids[i].Some? <==> Done(sources, round, k, i)
  }

  ghost predicate AllRightful(sources: seq<Source>, ids: seq<Option<string>>)
    requires |ids| == |sources|
  {
    forall i | 0 <= i < |ids| && ids[i].Some? :: Rightful(sources, ids, i)
  }

  /** What holds after the first `k` sources of a round. */
  ghost predicate Progress(sources: seq<Source>, ids: seq<Option<string>>, taken: set<string>, round: nat, k: nat) {
    && |ids| == |sources|
    && DoneExactly(sources, ids, round, k)
    && AllRightful(sources, ids)
    && DistinctLabels(ids)
    && TakenAre(ids, taken)
  }

  lemma ClaimKept(sources: seq<Source>, ids: seq<Option<string>>, after: seq<Option<string>>, i: int, n: nat)
    requires |ids| == |sources| == |after| && 0 <= i < |ids| && Claimed(sources, ids, i, n)
    requires forall j | 0 <= j < |ids| && ids[j].Some? :: after[j] == ids[j]
    ensures Claimed(sources, after, i, n)
  {
    forall m: nat | 0 < m < n
      ensures TakenBefore(sources, after, i, Lower(Candidate(Base(sources[i]), m)))
    {
      var x := Lower(Candidate(Base(sources[i]), m));
      assert TakenBefore(sources, ids, i, x);
      var j :| Labels(ids, j, x) && Precedes(sources, j, i);
      assert Labels(after, j, x);
    }
  }

  lemma NewClaim(sources: seq<Source>, ids: seq<Option<string>>, taken: set<string>, round: nat, k: nat, n: nat)
    requires Progress(sources, ids, taken, round, k) && k < |ids| && Round(sources, k) == round
    requires 0 < n && (round == 0 ==> n == 1)
    requires forall m: nat | 0 < m < n :: Lower(Candidate(Base(sources[k]), m)) in taken
    ensures Claimed(sources, ids[k := Some(Candidate(Base(sources[k]), n))], k, n)
  {
    var after := ids[k := Some(Candidate(Base(sources[k]), n))];
    forall m: nat | 0 < m < n
      ensures TakenBefore(sources, after, k, Lower(Candidate(Base(sources[k]), m)))
    {
      var x := Lower(Candidate(Base(sources[k]), m));
      assert x in taken;
      var j :| Labels(ids, j, x);
      assert Labels(after, j, x) && Precedes(sources, j, k);
    }
  }

  lemma TakenGrows(ids: seq<Option<string>>, taken: set<string>, k: nat, text: string)
    requires k < |ids| && ids[k] == None && TakenAre(ids, taken)
    ensures TakenAre(ids[k := Some(text)], taken + {Lower(text)})
  {
    var after := ids[k := Some(text)];
    forall x
      ensures x in taken + {Lower(text)} <==> exists i :: Labels(after, i, x)
    {
      assert Labels(after, k, Lower(text));
      if x in taken {
        var i :| Labels(ids, i, x);
        assert Labels(after, i, x);
      }
      if i :| Labels(after, i, x) && i != k {
        assert Labels(ids, i, x);
      }
    }
  }

  lemma DoneGrows(sources: seq<Source>, ids: seq<Option<string>>, round: nat, k: nat, text: string)
    requires |ids| == |sources| && k < |ids| && Round(sources, k) == round && DoneExactly(sources, ids, round, k)
    ensures ids[k] == None && DoneExactly(sources, ids[k := Some(text)], round, k + 1)
  {
    assert !Done(sources, round, k, k);
  }

  lemma OldClaimsStay(sources: seq<Source>, ids: seq<Option<string>>, k: nat, text: string)
    requires |ids| == |sources| && k < |ids| && ids[k] == None && AllRightful(sources, ids)
    requires Rightful(sources, ids[k := Some(text)], k)
    ensures AllRightful(sources, ids[k := Some(text)])
  {
    var after := ids[k := Some(text)];
    forall i | 0 <= i < |ids| && i != k && ids[i].Some?
      ensures Rightful(sources, after, i)
    {
      assert Rightful(sources, ids, i);
      var m :| Claimed(sources, ids, i, m);
      ClaimKept(sources, ids, after, i, m);
    }
  }

  lemma DistinctGrows(ids: seq<Option<string>>, taken: set<string>, k: nat, text: string)
    requires k < |ids| && ids[k] == None && DistinctLabels(ids) && TakenAre(ids, taken) && Lower(text) !in taken
    ensures DistinctLabels(ids[k := Some(text)])
  {
    forall i | 0 <= i < |ids| && i != k && ids[i].Some?
      ensures Lower(ids[i].value) != Lower(text)
    {
      assert Labels(ids, i, Lower(ids[i].value));
    }
  }

  lemma ClaimStep(sources: seq<Source>, ids: seq<Option<string>>, taken: set<string>, round: nat, k: nat, n: nat)
    requires Progress(sources, ids, taken, round, k) && k < |ids| && Round(sources, k) == round
    requires 0 < n && (round == 0 ==> n == 1)
    requires forall m: nat | 0 < m < n :: Lower(Candidate(Base(sources[k]), m)) in taken
    requires Lower(Candidate(Base(sources[k]), n)) !in taken
    ensures var text := Candidate(Base(sources[k]), n);
            Progress(sources, ids[k := Some(text)], taken + {Lower(text)}, round, k + 1)
  {
    var text := Candidate(Base(sources[k]), n);
    DoneGrows(sources, ids, round, k, text);
    NewClaim(sources, ids, taken, round, k, n);
    CandidateIsLabel(Base(sources[k]), n);
    TakenGrows(ids, taken, k, text);
    OldClaimsStay(sources, ids, k, text);
    DistinctGrows(ids, taken, k, text);
  }

  lemma SkipStep(sources: seq<Source>, ids: seq<Option<string>>, taken: set<string>, round: nat, k: nat)
    requires Progress(sources, ids, taken, round, k) && k < |ids| && Round(sources, k) != round
    ensures Progress(sources, ids, taken, round, k + 1)
  {
    assert forall i | 0 <= i < |ids| :: Done(sources, round, k, i) <==> Done(sources, round, k + 1, i);
  }

  lemma NextRound(sources: seq<Source>, ids: seq<Option<string>>, taken: set<string>, round: nat)
    requires Progress(sources, ids, taken, round, |sources|)
    ensures Progress(sources, ids, taken, round + 1, 0)
  {
    assert forall i | 0 <= i < |ids| :: Done(sources, round, |sources|, i) <==> Done(sources, round + 1, 0, i);
  }

  /** Some source up to `i` uses the label of `i` first. */
  lemma {:induction false} FirstUseExists(sources: seq<Source>, i: nat) returns (first: nat)
    requires i < |sources| && Chosen(sources[i]).Some?
    ensures first <= i && IsFirstUse(sources, first)
    ensures Lower(Chosen(sources[first]).value) == Lower(Chosen(sources[i]).value)
  {
    first := i;
    if !IsFirstUse(sources, i) {
      var j :| 0 <= j < i && Chosen(sources[j]).Some?
          && Lower(Chosen(sources[j]).value) == Lower(Chosen(sources[i]).value);
      first := FirstUseExists(sources, j);
    }
  }

  /** In the first round a chosen label has been taken exactly when it is a repeat. */
  lemma TakenAreRepeats(sources: seq<Source>, ids: seq<Option<string>>, taken: set<string>, k: nat)
    requires Progress(sources, ids, taken, 0, k) && k < |ids| && Chosen(sources[k]).Some?
    ensures Lower(Chosen(sources[k]).value) in taken <==> !IsFirstUse(sources, k)
  {
    var x := Lower(Chosen(sources[k]).value);
    if !IsFirstUse(sources, k) {
      var first := FirstUseExists(sources, k);
      assert Done(sources, 0, k, first) && Rightful(sources, ids, first);
      FirstCandidate(Base(sources[first]));
      var n :| Claimed(sources, ids, first, n);
      assert Labels(ids, first, x);
    }
    if x in taken {
      var j :| Labels(ids, j, x);
      assert Done(sources, 0, k, j) && Rightful(sources, ids, j);
      FirstCandidate(Base(sources[j]));
      var n :| Claimed(sources, ids, j, n);
    }
  }

  method ClaimFirstUses(sources: seq<Source>) returns (ids: seq<Option<string>>, taken: set<string>)
    ensures Progress(sources, ids, taken, 1, 0)
  {
    taken := {};
    ids := seq(|sources|, _ => None);
    for k := 0 to |sources|
      invariant Progress(sources, ids, taken, 0, k)
    {
      var chosen := Chosen(sources[k]);
      if chosen.Some? {
        TakenAreRepeats(sources, ids, taken, k);
        FirstCandidate(chosen.value);
        if Lower(chosen.value) !in taken {
          ClaimStep(sources, ids, taken, 0, k, 1);
          taken, ids := taken + {Lower(chosen.value)}, ids[k := Some(chosen.value)];
        } else {
          SkipStep(sources, ids, taken, 0, k);
        }
      } else {
        SkipStep(sources, ids, taken, 0, k);
      }
    }
    NextRound(sources, ids, taken, 0);
  }

  /** One source of a later round: it claims the first free candidate. */
  method ClaimNext(sources: seq<Source>, ids: seq<Option<string>>, taken: set<string>, round: nat, k: nat, base: string)
    returns (ids': seq<Option<string>>, taken': set<string>)
    requires Progress(sources, ids, taken, round, k) && k < |ids| && Round(sources, k) == round > 0
        && base == Base(sources[k])
    ensures Progress(sources, ids', taken', round, k + 1)
  {
    var free, n := ClaimFree(base, taken);
    ClaimStep(sources, ids, taken, round, k, n);
    ids', taken' := ids[k := Some(free)], taken + {Lower(free)};
  }

  method ClaimRepeats(sources: seq<Source>, ids: seq<Option<string>>, taken: set<string>)
    returns (ids': seq<Option<string>>, taken': set<string>)
    requires Progress(sources, ids, taken, 1, 0)
    ensures Progress(sources, ids', taken', 2, 0)
  {
    ids', taken' := ids, taken;
    for k := 0 to |sources|
      invariant Progress(sources, ids', taken', 1, k)
    {
      assert ids'[k].Some? <==> Done(sources, 1, k, k);
      var chosen := Chosen(sources[k]);
      if ids'[k].None? && chosen.Some? {
        ids', taken' := ClaimNext(sources, ids', taken', 1, k, chosen.value);
      } else {
        SkipStep(sources, ids', taken', 1, k);
      }
    }
    NextRound(sources, ids', taken', 1);
  }

  method ClaimDerived(sources: seq<Source>, ids: seq<Option<string>>, taken: set<string>)
    returns (ids': seq<Option<string>>, taken': set<string>)
    requires Progress(sources, ids, taken, 2, 0)
    ensures Progress(sources, ids', taken', 3, 0)
  {
    ids', taken' := ids, taken;
    for k := 0 to |sources|
      invariant Progress(sources, ids', taken', 2, k)
    {
      assert ids'[k].Some? <==> Done(sources, 2, k, k);
      if ids'[k].None? {
        ids', taken' := ClaimNext(sources, ids', taken', 2, k, DerivedBase(sources[k].resource));
      } else {
        SkipStep(sources, ids', taken', 2, k);
      }
    }
    NextRound(sources, ids', taken', 2);
  }

  function Ids(sources: seq<Source>): (ids: seq<Option<string>>)
    ensures |ids| == |sources| && forall i | 0 <= i < |ids| :: ids[i] == sources[i].id
  {
    seq(|sources|, i requires 0 <= i < |sources| => sources[i].id)
  }

  /** `out` is `sources` with every label claimed in the order of the rounds. */
  ghost predicate Labelled(sources: seq<Source>, out: seq<Source>) {
    && |out| == |sources|
    && (forall i | 0 <= i < |out| :: out[i] == sources[i].(id := out[i].id))
    && (forall i | 0 <= i < |out| :: Rightful(sources, Ids(out), i))
    && DistinctLabels(Ids(out))
  }

  /** `text` is `stem`, or `stem` with a number from 2 on. */
  ghost predicate Numbered(text: string, stem: string) {
    text == stem || exists n: nat :: n >= 2 && text == stem + ("-" + Decimal(n))
  }

  /** The text can stand between the brackets of a footnote mark. */
  predicate CanStand(text: string) {
    text != [] && forall c | c in text :: c !in "[]^" && !IsWhitespace(c)
  }

  /** No other source has this label, letter case aside. */
  ghost predicate OnlyHere(out: seq<Source>, i: int, stem: string) {
    forall j | 0 <= j < |out| && j != i && out[j].id.Some? :: Lower(out[j].id.value) != Lower(stem)
  }

  /** What the label of source `i` is: the model's own where it can stand, verbatim unless an earlier
      source had it; else the slug of the resource, and "source" where that is empty, the bare text if no
      other source has it; with a number where the text was taken. */
  ghost predicate LabelFollows(sources: seq<Source>, out: seq<Source>, i: int)
    requires 0 <= i < |sources| == |out|
  {
    && out[i].id.Some? && CanStand(out[i].id.value)
    && if sources[i].id.Some? && CanStand(sources[i].id.value) then
         && Numbered(out[i].id.value, sources[i].id.value)
         && ((forall j | 0 <= j < i && sources[j].id.Some? ::
                Lower(sources[j].id.value) != Lower(sources[i].id.value)) ==> out[i] == sources[i])
       else
         var stem := if FromSlug(sources[i].resource) != [] then FromSlug(sources[i].resource) else "source";
         Numbered(out[i].id.value, stem) && (OnlyHere(out, i, stem) ==> out[i].id.value == stem)
  }

  /** `with_unique_ids`. */
  method WithUniqueIds(sources: seq<Source>) returns (out: seq<Source>)
    ensures Labelled(sources, out)
    ensures forall i | 0 <= i < |out| :: LabelFollows(sources, out, i)
  {
    var ids, taken := ClaimFirstUses(sources);
    ids, taken := ClaimRepeats(sources, ids, taken);
    ids, taken := ClaimDerived(sources, ids, taken);
    out := seq(|sources|, i requires 0 <= i < |sources| && |ids| == |sources| => sources[i].(id := ids[i]));
    assert Ids(out) == ids;
    forall i | 0 <= i < |out|
      ensures LabelFollows(sources, out, i)
    {
      LabelsFollow(sources, out, i);
    }
  }

  lemma LabelCanStand(text: string)
    ensures IsFootnoteLabel(text) <==> CanStand(text)
  {
  }

  lemma CandidateIsNumbered(base: string, n: nat)
    requires n > 0
    ensures Numbered(Candidate(base, n), base)
  {
  }

  lemma LabelsFollow(sources: seq<Source>, out: seq<Source>, i: int)
    requires Labelled(sources, out) && 0 <= i < |sources|
    ensures LabelFollows(sources, out, i)
  {
    assert Rightful(sources, Ids(out), i);
    var n :| Claimed(sources, Ids(out), i, n);
    var base := Base(sources[i]);
    LabelCanStand(out[i].id.value);
    CandidateIsNumbered(base, n);
    FirstCandidate(base);
    SlugIsLabel(sources[i].resource);
    if sources[i].id.Some? {
      LabelCanStand(sources[i].id.value);
    }
    if n > 1 {
      assert TakenBefore(sources, Ids(out), i, Lower(Candidate(base, 1)));
    }
  }

  // -- What the rounds guarantee ------------------------------------------------------------------

  /** Every source has a usable label, and no two labels are the same, letter case aside. */
  lemma LabelsAreDistinct(sources: seq<Source>, out: seq<Source>)
    requires Labelled(sources, out)
    ensures forall i | 0 <= i < |out| :: out[i].id.Some? && IsFootnoteLabel(out[i].id.value)
    ensures forall i, j | 0 <= i < j < |out| :: Lower(out[i].id.value) != Lower(out[j].id.value)
  {
    forall i | 0 <= i < |out|
      ensures Ids(out)[i] == out[i].id && out[i].id.Some? && IsFootnoteLabel(out[i].id.value)
    {
      assert Rightful(sources, Ids(out), i);
    }
  }

  /** The first occurrence of every usable label is kept verbatim. */
  lemma FirstUsesKept(sources: seq<Source>, out: seq<Source>, i: nat)
    requires Labelled(sources, out) && i < |sources| && IsFirstUse(sources, i)
    ensures out[i] == sources[i]
  {
    assert Rightful(sources, Ids(out), i);
    var n :| Claimed(sources, Ids(out), i, n);
    FirstCandidate(Base(sources[i]));
  }

  /**
   A citation by a label the model chose resolves: exactly one source carries the
   label, letter case aside, and it is the first that chose it, verbatim.
   */
  lemma CitationResolves(sources: seq<Source>, out: seq<Source>, i: nat) returns (first: nat)
    requires Labelled(sources, out) && i < |sources| && Chosen(sources[i]).Some?
    ensures first <= i && IsFirstUse(sources, first) && out[first] == sources[first]
    ensures forall j | 0 <= j < |out| ::
        out[j].id.Some? && (Lower(out[j].id.value) == Lower(sources[i].id.value) <==> j == first)
  {
    first := FirstUseExists(sources, i);
    FirstUsesKept(sources, out, first);
    LabelsAreDistinct(sources, out);
  }

  /** Labelling what is labelled changes nothing. */
  lemma LabellingSettles(sources: seq<Source>, out: seq<Source>, again: seq<Source>)
    requires Labelled(sources, out) && Labelled(out, again)
    ensures again == out
  {
    LabelsAreDistinct(sources, out);
    forall i | 0 <= i < |out|
      ensures again[i] == out[i]
    {
      assert Chosen(out[i]).Some?;
      assert IsFirstUse(out, i);
      FirstUsesKept(out, again, i);
    }
  }

  /** The rounds leave no choice: the labels are a function of the sources. */
  lemma LabellingIsUnique(sources: seq<Source>, a: seq<Source>, b: seq<Source>)
    requires Labelled(sources, a) && Labelled(sources, b)
    ensures a == b
  {
    forall i | 0 <= i < |sources|
      ensures a[i] == b[i]
    {
      SameLabel(sources, a, b, i);
    }
  }

  lemma {:induction false} SameLabel(sources: seq<Source>, a: seq<Source>, b: seq<Source>, i: int)
    requires Labelled(sources, a) && Labelled(sources, b) && 0 <= i < |sources|
    ensures a[i].id == b[i].id
    decreases Round(sources, i), i
  {
    forall j | 0 <= j < |sources| && Precedes(sources, j, i)
      ensures a[j].id == b[j].id
    {
      SameLabel(sources, a, b, j);
    }
    assert Rightful(sources, Ids(a), i) && Rightful(sources, Ids(b), i);
    var m :| Claimed(sources, Ids(a), i, m);
    var n :| Claimed(sources, Ids(b), i, n);
    NotBelow(sources, a, b, i, m, n);
    NotBelow(sources, b, a, i, n, m);
  }

  lemma NotTaken(sources: seq<Source>, out: seq<Source>, i: int, m: nat)
    requires Labelled(sources, out) && 0 <= i < |sources| && Claimed(sources, Ids(out), i, m)
    ensures !TakenBefore(sources, Ids(out), i, Lower(Candidate(Base(sources[i]), m)))
  {
    forall j | Labels(Ids(out), j, Lower(Candidate(Base(sources[i]), m)))
      ensures j == i
    {
    }
  }

  lemma TakenInBoth(sources: seq<Source>, a: seq<Source>, b: seq<Source>, i: int, x: string)
    requires |a| == |b| == |sources| && 0 <= i < |sources|
    requires forall j | 0 <= j < |sources| && Precedes(sources, j, i) :: a[j].id == b[j].id
    requires TakenBefore(sources, Ids(b), i, x)
    ensures TakenBefore(sources, Ids(a), i, x)
  {
    var j :| Labels(Ids(b), j, x) && Precedes(sources, j, i);
    assert a[j].id == b[j].id;
    assert Labels(Ids(a), j, x);
  }

  lemma NotBelow(sources: seq<Source>, a: seq<Source>, b: seq<Source>, i: int, m: nat, n: nat)
    requires Labelled(sources, a) && Labelled(sources, b) && 0 <= i < |sources|
    requires forall j | 0 <= j < |sources| && Precedes(sources, j, i) :: a[j].id == b[j].id
    requires Claimed(sources, Ids(a), i, m) && Claimed(sources, Ids(b), i, n)
    ensures n <= m
  {
    NotTaken(sources, a, i, m);
    if m < n {
      TakenInBoth(sources, a, b, i, Lower(Candidate(Base(sources[i]), m)));
    }
  }
}
