/**
 The inverted index that every write updates in place, against an index built from
 scratch. Scores are kept as the lists of their summands, in the order in which they
 are added, so nothing here depends on rounding.
 */
module TextIndex {
  import opened Basics

  type Id = string
  type Term = string

  /** `count / total`. */
  datatype Frequency = Frequency(count: nat, total: nat)

  type Postings = map<Id, Frequency>

  /** One summand of a score: a term's frequency in a document times its rarity among documents. */
  datatype Summand = Summand(tf: Frequency, documents: nat, holders: nat)

  type Documents = map<Id, seq<Term>>

  function Count(terms: seq<Term>, term: Term): (n: nat)
    ensures n <= |terms|
    ensures n == 0 <==> term !in terms
  {
    if terms == [] then 0 else (if terms[0] == term then 1 else 0) + Count(terms[1..], term)
  }

  lemma CountLast(terms: seq<Term>, i: nat, term: Term)
    requires i < |terms|
    ensures Count(terms[..i + 1], term) == Count(terms[..i], term) + (if terms[i] == term then 1 else 0)
  {
    CountConcat(terms[..i], [terms[i]], term);
    assert terms[..i + 1] == terms[..i] + [terms[i]];
  }

  lemma {:induction false} CountConcat(a: seq<Term>, b: seq<Term>, term: Term)
    ensures Count(a + b, term) == Count(a, term) + Count(b, term)
  {
    if a == [] {
      assert a + b == b;
    } else {
      CountConcat(a[1..], b, term);
      assert (a + b)[0] == a[0] && (a + b)[1..] == a[1..] + b;
    }
  }

  function PostingsOf(inverted: map<Term, Postings>, term: Term): Postings {
    if term in inverted then inverted[term] else map[]
  }

  /** What an index says about one term and one document. */
  function Posting(inverted: map<Term, Postings>, term: Term, id: Id): Option<Frequency> {
    if id in PostingsOf(inverted, term) then Some(PostingsOf(inverted, term)[id]) else None
  }

  /** What an index built from scratch over `docs` says. */
  function Fresh(docs: Documents, term: Term, id: Id): Option<Frequency> {
    if id in docs && term in docs[id] then Some(Frequency(Count(docs[id], term), |docs[id]|)) else None
  }

  ghost function NonEmpty(docs: Documents): set<Id> {
    set id | id in docs && docs[id] != []
  }

  /** The index is that of `docs`, up to empty posting maps. */
  ghost predicate IndexOf(inverted: map<Term, Postings>, docLengths: map<Id, nat>, docCount: nat, docs: Documents) {
    && (forall term, id :: Posting(inverted, term, id) == Fresh(docs, term, id))
    && docLengths.Keys == NonEmpty(docs)
    && (forall id | id in docLengths :: docLengths[id] == |docs[id]|)
    && docCount == |NonEmpty(docs)|
  }

  function SoFar(scores: map<Id, seq<Summand>>, id: Id): seq<Summand> {
    if id in scores then scores[id] else []
  }

  function Added(postings: Postings, docCount: nat, id: Id): seq<Summand> {
    if id in postings then [Summand(postings[id], docCount, |postings|)] else []
  }

  /** `scores.entry(id).or_insert(0.0) += tf * idf` for every posting of one term. */
  function AddTerm(scores: map<Id, seq<Summand>>, postings: Postings, docCount: nat): map<Id, seq<Summand>> {
    map id | id in scores.Keys + postings.Keys :: SoFar(scores, id) + Added(postings, docCount, id)
  }

  function Scores(inverted: map<Term, Postings>, docCount: nat, query: seq<Term>): map<Id, seq<Summand>> {
    if docCount == 0 || query == [] then map[]
    else AddTerm(Scores(inverted, docCount, query[..|query| - 1]), PostingsOf(inverted, query[|query| - 1]), docCount)
  }

  class Index {
    var inverted: map<Term, Postings>
    var docLengths: map<Id, nat>
    var docCount: nat
    /** The documents the index stands for. */
    ghost var docs: Documents

    ghost predicate Valid()
      reads this
    {
      IndexOf(inverted, docLengths, docCount, docs)
    }

    constructor ()
      ensures Valid() && docs == map[]
    {
      inverted, docLengths, docCount, docs := map[], map[], 0, map[];
    }

    method Remove(id: Id)
      requires Valid()
      modifies this
      ensures Valid() && docs == old(docs) - {id}
    {
      if id in docLengths {
        var stripped := Stripped(inverted, id);
        WithoutDocument(inverted, docLengths, docCount, docs, id, stripped);
        docLengths := docLengths - {id};
        if docCount > 0 {
          docCount := docCount - 1;
        }
        inverted := stripped;
      } else {
        WithoutEmpty(inverted, docLengths, docCount, docs, id);
      }
      docs := docs - {id};
    }

    method Enter(id: Id, terms: seq<Term>)
      requires Valid() && id !in docs && terms != []
      modifies this
      ensures Valid() && docs == old(docs)[id := terms]
    {
      var counts := TermCounts(terms);
      var posted := Posted(inverted, id, counts, |terms|);
      WithDocument(inverted, docLengths, docCount, docs, id, terms, counts, posted);
      inverted := posted;
      docLengths := docLengths[id := |terms|];
      docCount := docCount + 1;
      docs := docs[id := terms];
    }

    method Upsert(id: Id, terms: seq<Term>)
      requires Valid()
      modifies this
      ensures Valid() && docs == old(docs)[id := terms]
    {
      assert (docs - {id})[id := terms] == docs[id := terms];
      Remove(id);
      if |terms| == 0 {
        WithEmpty(inverted, docLengths, docCount, docs, id);
        docs := docs[id := terms];
      } else {
        Enter(id, terms);
      }
    }

    /** The score map of a query: how `search` accumulates it. */
    method Search(query: seq<Term>) returns (scores: map<Id, seq<Summand>>)
      ensures scores == Scores(inverted, docCount, query)
      ensures Valid() ==> forall id | id in scores :: id in docs && scores[id] == Earned(docs, query, id)
    {
      if Valid() {
        forall id | id in Scores(inverted, docCount, query)
          ensures id in docs && Scores(inverted, docCount, query)[id] == Earned(docs, query, id)
        {
          ScoredDocuments(inverted, docLengths, docCount, docs, query, id);
          ScoresAreEarned(inverted, docLengths, docCount, docs, query, id);
        }
      }
      scores := map[];
      if docCount == 0 {
        return;
      }
      for i := 0 to |query|
        invariant scores == Scores(inverted, docCount, query[..i])
      {
        assert query[..i + 1][..i] == query[..i];
        if query[i] in inverted {
          scores := AddPostings(scores, inverted[query[i]], docCount);
        } else {
          AddNothing(scores, docCount);
        }
      }
      assert query[..|query|] == query;
    }
  }

  /** Takes `id` out of every posting map, one map after the other. */
  method Stripped(inverted: map<Term, Postings>, id: Id) returns (out: map<Term, Postings>)
    ensures out.Keys == inverted.Keys
    ensures forall term | term in inverted :: out[term] == inverted[term] - {id}
  {
    out := inverted;
    var rest := inverted.Keys;
    while rest != {}
      invariant rest <= inverted.Keys && out.Keys == inverted.Keys
      invariant forall term | term in inverted :: out[term] == if term in rest then inverted[term]
          else inverted[term] - {id}
    {
      var term :| term in rest;
      out := out[term := out[term] - {id}];
      rest := rest - {term};
    }
  }

  ghost predicate CountsOf(counts: map<Term, nat>, terms: seq<Term>) {
    forall term :: (if term in counts then counts[term] else 0) == Count(terms, term)
        && (term in counts ==> counts[term] > 0)
  }

  method TermCounts(terms: seq<Term>) returns (counts: map<Term, nat>)
    ensures CountsOf(counts, terms)
  {
    counts := map[];
    for i := 0 to |terms|
      invariant CountsOf(counts, terms[..i])
    {
      forall term
        ensures Count(terms[..i + 1], term) == Count(terms[..i], term) + (if terms[i] == term then 1 else 0)
      {
        CountLast(terms, i, term);
      }
      counts := counts[terms[i] := (if terms[i] in counts then counts[terms[i]] else 0) + 1];
    }
    assert terms[..|terms|] == terms;
  }

  function AfterEntry(
    inverted: map<Term, Postings>, id: Id, counts: map<Term, nat>, total: nat, term: Term, other: Id): Option<Frequency>
  {
    if other == id && term in counts then Some(Frequency(counts[term], total)) else Posting(inverted, term, other)
  }

  /** Enters the document under each of its terms. */
  method Posted(inverted: map<Term, Postings>, id: Id, counts: map<Term, nat>, total: nat)
      returns (out: map<Term, Postings>)
    ensures forall term, other :: Posting(out, term, other) == AfterEntry(inverted, id, counts, total, term, other)
  {
    out := inverted;
    var rest := counts.Keys;
    while rest != {}
      invariant rest <= counts.Keys
      invariant forall term, other | term !in rest ::
          Posting(out, term, other) == AfterEntry(inverted, id, counts, total, term, other)
      invariant forall term | term in rest :: PostingsOf(out, term) == PostingsOf(inverted, term)
    {
      var term :| term in rest;
      out := out[term := PostingsOf(out, term)[id := Frequency(counts[term], total)]];
      rest := rest - {term};
    }
  }

  lemma AddNothing(scores: map<Id, seq<Summand>>, docCount: nat)
    ensures AddTerm(scores, map[], docCount) == scores
  {
    forall id | id in scores
      ensures AddTerm(scores, map[], docCount)[id] == scores[id]
    {
      assert scores[id] + [] == scores[id];
    }
  }

  /** The scores once the documents outside `rest` have got their summand. */
  ghost predicate PartlyAdded(
    out: map<Id, seq<Summand>>, scores: map<Id, seq<Summand>>, postings: Postings, docCount: nat, rest: set<Id>)
  {
    && (forall id :: id in out <==> id in scores || (id in postings && id !in rest))
    && (forall id | id in rest :: SoFar(out, id) == SoFar(scores, id))
    && (forall id | id !in rest :: SoFar(out, id) == SoFar(scores, id) + Added(postings, docCount, id))
  }

  lemma AllAdded(out: map<Id, seq<Summand>>, scores: map<Id, seq<Summand>>, postings: Postings, docCount: nat)
    requires PartlyAdded(out, scores, postings, docCount, {})
    ensures out == AddTerm(scores, postings, docCount)
  {
    var all := AddTerm(scores, postings, docCount);
    forall id
      ensures id in out <==> id in all
      ensures id in out ==> out[id] == all[id]
    {
      assert SoFar(out, id) == SoFar(scores, id) + Added(postings, docCount, id);
    }
  }

  lemma AddOne(out: map<Id, seq<Summand>>, scores: map<Id, seq<Summand>>, postings: Postings, docCount: nat,
      rest: set<Id>, id: Id)
    requires PartlyAdded(out, scores, postings, docCount, rest) && id in rest && id in postings
    ensures PartlyAdded(out[id := SoFar(out, id) + [Summand(postings[id], docCount, |postings|)]], scores, postings,
        docCount, rest - {id})
  {
  }

  method AddPostings(scores: map<Id, seq<Summand>>, postings: Postings, docCount: nat)
      returns (out: map<Id, seq<Summand>>)
    ensures out == AddTerm(scores, postings, docCount)
  {
    out := scores;
    var rest := postings.Keys;
    while rest != {}
      invariant rest <= postings.Keys
      invariant PartlyAdded(out, scores, postings, docCount, rest)
    {
      var id :| id in rest;
      AddOne(out, scores, postings, docCount, rest, id);
      out := out[id := SoFar(out, id) + [Summand(postings[id], docCount, |postings|)]];
      rest := rest - {id};
    }
    AllAdded(out, scores, postings, docCount);
  }

  // -- One document more or less ---------------------------------------------------------

  lemma WithoutDocument(
    inverted: map<Term, Postings>, lengths: map<Id, nat>, count: nat, docs: Documents, id: Id,
    stripped: map<Term, Postings>)
    requires IndexOf(inverted, lengths, count, docs) && id in lengths
    requires stripped.Keys == inverted.Keys && forall term | term in inverted :: stripped[term] == inverted[term] - {id}
    ensures count > 0 && IndexOf(stripped, lengths - {id}, count - 1, docs - {id})
  {
    assert NonEmpty(docs - {id}) == NonEmpty(docs) - {id};
    forall term, other
      ensures Posting(stripped, term, other) == Fresh(docs - {id}, term, other)
    {
      assert Posting(inverted, term, other) == Fresh(docs, term, other);
    }
  }

  lemma WithoutEmpty(inverted: map<Term, Postings>, lengths: map<Id, nat>, count: nat, docs: Documents, id: Id)
    requires IndexOf(inverted, lengths, count, docs) && id !in lengths
    ensures IndexOf(inverted, lengths, count, docs - {id})
  {
    assert id in docs ==> docs[id] == [];
    assert NonEmpty(docs - {id}) == NonEmpty(docs);
    forall term, other
      ensures Fresh(docs - {id}, term, other) == Fresh(docs, term, other)
    {
    }
  }

  lemma WithEmpty(inverted: map<Term, Postings>, lengths: map<Id, nat>, count: nat, docs: Documents, id: Id)
    requires IndexOf(inverted, lengths, count, docs) && id !in docs
    ensures IndexOf(inverted, lengths, count, docs[id := []])
  {
    assert NonEmpty(docs[id := []]) == NonEmpty(docs);
    forall term, other
      ensures Fresh(docs[id := []], term, other) == Fresh(docs, term, other)
    {
    }
  }

  lemma WithDocument(
    inverted: map<Term, Postings>, lengths: map<Id, nat>, count: nat, docs: Documents, id: Id, terms: seq<Term>,
    counts: map<Term, nat>, posted: map<Term, Postings>)
    requires IndexOf(inverted, lengths, count, docs) && id !in docs && terms != []
    requires CountsOf(counts, terms)
    requires forall term, other ::
        Posting(posted, term, other) == AfterEntry(inverted, id, counts, |terms|, term, other)
    ensures IndexOf(posted, lengths[id := |terms|], count + 1, docs[id := terms])
  {
    var after := docs[id := terms];
    assert NonEmpty(after) == NonEmpty(docs) + {id};
    forall term, other
      ensures Posting(posted, term, other) == Fresh(after, term, other)
    {
      assert Posting(inverted, term, other) == Fresh(docs, term, other);
      EntryIsFresh(inverted, docs, id, terms, counts, term, other);
    }
  }

  lemma EntryIsFresh(
    inverted: map<Term, Postings>, docs: Documents, id: Id, terms: seq<Term>, counts: map<Term, nat>, term: Term,
      other: Id)
    requires CountsOf(counts, terms) && id !in docs
    requires Posting(inverted, term, other) == Fresh(docs, term, other)
    ensures AfterEntry(inverted, id, counts, |terms|, term, other) == Fresh(docs[id := terms], term, other)
  {
    assert term in counts <==> Count(terms, term) > 0;
  }

  // -- Against a fresh rebuild ---------------------------------------------------------

  lemma SamePostings(
    a: map<Term, Postings>, aLengths: map<Id, nat>, aCount: nat,
    b: map<Term, Postings>, bLengths: map<Id, nat>, bCount: nat,
    docs: Documents, term: Term)
    requires IndexOf(a, aLengths, aCount, docs) && IndexOf(b, bLengths, bCount, docs)
    ensures PostingsOf(a, term) == PostingsOf(b, term)
  {
    forall id
      ensures Posting(a, term, id) == Posting(b, term, id)
    {
      assert Posting(a, term, id) == Fresh(docs, term, id);
      assert Posting(b, term, id) == Fresh(docs, term, id);
    }
    assert forall id :: id in PostingsOf(a, term) <==> Posting(a, term, id).Some?;
    assert forall id :: id in PostingsOf(b, term) <==> Posting(b, term, id).Some?;
  }

  /** Two indexes of the same documents give every query the same score map. */
  lemma {:induction false} SameScores(
    a: map<Term, Postings>, aLengths: map<Id, nat>, aCount: nat,
    b: map<Term, Postings>, bLengths: map<Id, nat>, bCount: nat,
    docs: Documents, query: seq<Term>)
    requires IndexOf(a, aLengths, aCount, docs) && IndexOf(b, bLengths, bCount, docs)
    ensures aLengths == bLengths && aCount == bCount
    ensures Scores(a, aCount, query) == Scores(b, bCount, query)
    decreases |query|
  {
    if query != [] {
      SameScores(a, aLengths, aCount, b, bLengths, bCount, docs, query[..|query| - 1]);
      SamePostings(a, aLengths, aCount, b, bLengths, bCount, docs, query[|query| - 1]);
    }
  }

  /** A document scores for a query exactly when it holds one of the terms. */
  lemma {:induction false} ScoredDocuments(
    inverted: map<Term, Postings>, lengths: map<Id, nat>, count: nat, docs: Documents, query: seq<Term>, id: Id)
    requires IndexOf(inverted, lengths, count, docs)
    ensures id in Scores(inverted, count, query) <==> id in docs && exists term :: term in query && term in docs[id]
    decreases |query|
  {
    if query != [] {
      var init, last := query[..|query| - 1], query[|query| - 1];
      ScoredDocuments(inverted, lengths, count, docs, init, id);
      assert query == init + [last];
      assert Posting(inverted, last, id) == Fresh(docs, last, id);
      if id in docs && exists term :: term in query && term in docs[id] {
        assert id in NonEmpty(docs);
      }
    }
  }

  ghost function Holders(docs: Documents, term: Term): set<Id> {
    set id | id in docs && term in docs[id]
  }

  /** What a document earns: for each query term it holds, in the order of the query, the frequency of
      the term in it, the number of documents that are not empty and the number of those that hold it. */
  ghost function Earned(docs: Documents, query: seq<Term>, id: Id): seq<Summand>
    requires id in docs
  {
    if query == [] then []
    else
      var term := query[|query| - 1];
      Earned(docs, query[..|query| - 1], id)
      + if term !in docs[id] then []
        else [Summand(tf := Frequency(count := multiset(docs[id])[term], total := |docs[id]|),
                      documents := |NonEmpty(docs)|, holders := |Holders(docs, term)|)]
  }

  lemma {:induction false} CountsOccurrences(terms: seq<Term>, term: Term)
    ensures Count(terms, term) == multiset(terms)[term]
  {
    if terms != [] {
      CountsOccurrences(terms[1..], term);
      assert terms == [terms[0]] + terms[1..];
    }
  }

  lemma HoldersArePosted(inverted: map<Term, Postings>, lengths: map<Id, nat>, count: nat, docs: Documents, term: Term)
    requires IndexOf(inverted, lengths, count, docs)
    ensures PostingsOf(inverted, term).Keys == Holders(docs, term)
    ensures |PostingsOf(inverted, term)| == |Holders(docs, term)|
  {
    forall id
      ensures id in PostingsOf(inverted, term) <==> id in Holders(docs, term)
    {
      assert Posting(inverted, term, id) == Fresh(docs, term, id);
    }
    assert |PostingsOf(inverted, term)| == |PostingsOf(inverted, term).Keys|;
  }

  lemma AddedIsEarned(inverted: map<Term, Postings>, lengths: map<Id, nat>, count: nat, docs: Documents, term: Term,
      id: Id)
    requires IndexOf(inverted, lengths, count, docs) && id in docs
    ensures Earned(docs, [term], id) == Added(PostingsOf(inverted, term), count, id)
  {
    HoldersArePosted(inverted, lengths, count, docs, term);
    CountsOccurrences(docs[id], term);
    assert Posting(inverted, term, id) == Fresh(docs, term, id);
    assert [term][..0] == [];
  }

  lemma EarnedMore(docs: Documents, query: seq<Term>, id: Id)
    requires id in docs && query != []
    ensures Earned(docs, query, id)
         == Earned(docs, query[..|query| - 1], id) + Earned(docs, [query[|query| - 1]], id)
  {
    assert [query[|query| - 1]][..0] == [];
  }

  /** Every score is made of what the document earns, whatever run of updates the index went through. */
  lemma {:induction false} ScoresAreEarned(
    inverted: map<Term, Postings>, lengths: map<Id, nat>, count: nat, docs: Documents, query: seq<Term>, id: Id)
    requires IndexOf(inverted, lengths, count, docs) && id in docs
    ensures SoFar(Scores(inverted, count, query), id) == Earned(docs, query, id)
    decreases |query|
  {
    if query != [] {
      EarnedMore(docs, query, id);
      AddedIsEarned(inverted, lengths, count, docs, query[|query| - 1], id);
      ScoresAreEarned(inverted, lengths, count, docs, query[..|query| - 1], id);
      if count == 0 {
        assert id !in NonEmpty(docs);
      }
    }
  }

  datatype Operation = Put(id: Id, terms: seq<Term>) | Drop(id: Id)

  /** The documents that survive a run. */
  function Surviving(operations: seq<Operation>): Documents {
    if operations == [] then map[]
    else
      var before := Surviving(operations[..|operations| - 1]);
      match operations[|operations| - 1]
      case Put(id, terms) => before[id := terms]
      case Drop(id) => before - {id}
  }

  method RunAll(operations: seq<Operation>) returns (index: Index)
    ensures fresh(index) && index.Valid() && index.docs == Surviving(operations)
  {
    index := new Index();
    assert operations[..0] == [];
    for i := 0 to |operations|
      invariant fresh(index) && index.Valid() && index.docs == Surviving(operations[..i])
    {
      assert operations[..i + 1][..i] == operations[..i];
      match operations[i] {
        case Put(id, terms) => index.Upsert(id, terms);
        case Drop(id) => index.Remove(id);
      }
    }
    assert operations[..|operations|] == operations;
  }

  /** Whatever the run, a query gets the score map that a fresh build over the survivors gives it. */
  method RunAgainstRebuild(operations: seq<Operation>, rebuild: seq<Operation>, query: seq<Term>)
    returns (incremental: map<Id, seq<Summand>>, rebuilt: map<Id, seq<Summand>>)
    requires forall o | o in rebuild :: o.Put?
    requires Surviving(rebuild) == Surviving(operations)
    ensures incremental == rebuilt
  {
    var a := RunAll(operations);
    var b := RunAll(rebuild);
    incremental := a.Search(query);
    rebuilt := b.Search(query);
    SameScores(a.inverted, a.docLengths, a.docCount, b.inverted, b.docLengths, b.docCount, Surviving(operations),
      query);
  }
}
