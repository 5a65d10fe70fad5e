/**
 Content-addressed prompt snapshots: immutable generation files and one pointer
 per scope. A commit is a sequence of file operations; stopping between any two
 of them is a crash, so the class records the disk after each one.
 */
module PromptSnapshots {
  import opened Basics
  import opened Json
  import opened CompactJson
  import opened JsonIdentity
  import opened Sorting

  /** A wiki entry as it is serialized: its id first, then its other members. */
  datatype Entry = Entry(id: string, rest: seq<Field>)

  function EntryValue(e: Entry): Value {
    Obj([Field("id", Str(e.id))] + e.rest)
  }

  function EntriesValue(entries: seq<Entry>): (v: Value)
    ensures v.Arr? && |v.items| == |entries|
    ensures forall i | 0 <= i < |entries| :: v.items[i] == EntryValue(entries[i])
  {
    Arr(seq(|entries|, i requires 0 <= i < |entries| => EntryValue(entries[i])))
  }

  ghost predicate AllWellSpelled(entries: seq<Entry>) {
    forall e | e in entries :: WellSpelled(EntryValue(e))
  }

  /** SHA-256, as an injective function of the bytes hashed. */
  datatype Generation = Sha256(preimage: string)

  function SnapshotGeneration(scope: string, entriesBytes: string): Generation {
    Sha256("prometheus-prompt-snapshot-v1\0" + scope + "\0" + entriesBytes)
  }

  datatype PromptSnapshot = PromptSnapshot(
    schemaVersion: nat, scope: string, generation: Generation,
    candidateCount: nat, byteCount: nat, entries: seq<Entry>)

  /** A snapshot file: its header, the text of its entries and what that text parses to. */
  datatype StoredSnapshot = StoredSnapshot(
    schemaVersion: nat, scope: string, generation: Generation,
    candidateCount: nat, byteCount: nat, entriesText: string, entries: seq<Entry>)
  {
    /** What the JSON parser guarantees: the text spells the parsed entries. */
    ghost predicate Parsed() {
      && AllWellSpelled(entries)
      && Kept(Between, entriesText) == Compact(EntriesValue(entries))
    }
  }

  datatype Content = SnapshotFile(stored: StoredSnapshot) | Pointer(generation: Generation) | Damaged

  datatype Path =
    | GenerationFile(scope: string, generation: Generation)
    | Current(scope: string)
    | Temporary(scope: string, tag: nat)

  type Disk = map<Path, Content>

  datatype Failure = BadScope | NoPointer | BadPointer | NoGeneration | Unreadable | IdentityMismatch | AlreadyExists

  predicate ValidScope(scope: string) {
    scope == "project" || scope == "shared" || scope == "global"
  }

  predicate IdLeq(a: Entry, b: Entry) {
    StringLeq(a.id, b.id)
  }

  /** The snapshot a commit of `entries` publishes. */
  function SnapshotOf(scope: string, entries: seq<Entry>): PromptSnapshot {
    var sorted := Sort(entries, IdLeq);
    var bytes := Compact(EntriesValue(sorted));
    PromptSnapshot(1, scope, SnapshotGeneration(scope, bytes), |sorted|, |bytes|, sorted)
  }

  /** The entries of one identifier, in order. */
  function OfId(entries: seq<Entry>, id: string): seq<Entry> {
    if entries == [] then [] else IfOfId(entries[0], id) + OfId(entries[1..], id)
  }

  function IfOfId(e: Entry, id: string): seq<Entry> {
    if e.id == id then [e] else []
  }

  lemma OfIdCons(e: Entry, entries: seq<Entry>, id: string)
    ensures OfId([e] + entries, id) == IfOfId(e, id) + OfId(entries, id)
  {
    assert ([e] + entries)[1..] == entries;
  }

  lemma EitherFirst(a: Entry, b: Entry, rest: seq<Entry>, id: string)
    requires a.id != b.id
    ensures IfOfId(a, id) + (IfOfId(b, id) + rest) == IfOfId(b, id) + (IfOfId(a, id) + rest)
  {
  }

  lemma {:induction false} InsertKeepsOrder(e: Entry, entries: seq<Entry>, id: string)
    ensures OfId(Insert(e, entries, IdLeq), id) == IfOfId(e, id) + OfId(entries, id)
  {
    if entries == [] || IdLeq(e, entries[0]) {
      OfIdCons(e, entries, id);
    } else {
      StringLeqTotal(e.id, e.id);
      InsertKeepsOrder(e, entries[1..], id);
      OfIdCons(entries[0], Insert(e, entries[1..], IdLeq), id);
      EitherFirst(entries[0], e, OfId(entries[1..], id), id);
    }
  }

  /** The sort is stable. */
  lemma {:induction false} SortKeepsOrder(entries: seq<Entry>, id: string)
    ensures OfId(Sort(entries, IdLeq), id) == OfId(entries, id)
  {
    if entries != [] {
      SortKeepsOrder(entries[1..], id);
      InsertKeepsOrder(entries[0], Sort(entries[1..], IdLeq), id);
    }
  }

  /** The entries of `entries`, by ascending identifier; those of one identifier in the order they had. */
  ghost predicate HoldsSorted(sorted: seq<Entry>, entries: seq<Entry>) {
    && (forall i, j | 0 <= i < j < |sorted| :: StringLeq(sorted[i].id, sorted[j].id))
    && multiset(sorted) == multiset(entries)
    && forall id :: OfId(sorted, id) == OfId(entries, id)
  }

  /** The snapshot says of itself what is so: its generation is the hash of its scope and its compact
      entries, and both counts are theirs. */
  predicate Genuine(s: PromptSnapshot, scope: string) {
    && s.schemaVersion == 1 && s.scope == scope
    && s.candidateCount == |s.entries|
    && s.byteCount == |Compact(EntriesValue(s.entries))|
    && s.generation == Sha256("prometheus-prompt-snapshot-v1\0" + scope + "\0" + Compact(EntriesValue(s.entries)))
  }

  /** What a snapshot of `entries` is, whatever order they come in. */
  lemma SnapshotHoldsEntries(scope: string, entries: seq<Entry>)
    ensures var s := SnapshotOf(scope, entries); Genuine(s, scope) && HoldsSorted(s.entries, entries)
  {
    var sorted := Sort(entries, IdLeq);
    IdOrder();
    SortSorts(entries, IdLeq);
    SameElements(entries, sorted);
    forall i, j | 0 <= i < j < |sorted|
      ensures StringLeq(sorted[i].id, sorted[j].id)
    {
      assert IdLeq(sorted[i], sorted[j]);
    }
    forall id
      ensures OfId(sorted, id) == OfId(entries, id)
    {
      SortKeepsOrder(entries, id);
    }
  }

  function FileOf(s: PromptSnapshot): StoredSnapshot {
    StoredSnapshot(s.schemaVersion, s.scope, s.generation, s.candidateCount, s.byteCount,
      Pretty(EntriesValue(s.entries), 1), s.entries)
  }

  /** The checks a reader makes before it trusts a generation file. */
  predicate Intact(content: Content, scope: string, generation: Generation) {
    && content.SnapshotFile?
    && var stored := content.stored;
       var bytes := Kept(Between, stored.entriesText);
       && stored.schemaVersion == 1
       && stored.scope == scope
       && stored.generation == generation
       && SnapshotGeneration(scope, bytes) == generation
       && stored.candidateCount == |stored.entries|
       && stored.byteCount == |bytes|
  }

  function ReadPromptSnapshot(disk: Disk, scope: string): Result<PromptSnapshot, Failure> {
    if !ValidScope(scope) then Err(BadScope)
    else if Current(scope) !in disk then Err(NoPointer)
    else if !disk[Current(scope)].Pointer? then Err(BadPointer)
    else
      var generation := disk[Current(scope)].generation;
      var path := GenerationFile(scope, generation);
      if path !in disk then Err(NoGeneration)
      else if !disk[path].SnapshotFile? then Err(Unreadable)
      else if !Intact(disk[path], scope, generation) then Err(IdentityMismatch)
      else
        var s := disk[path].stored;
        Ok(PromptSnapshot(s.schemaVersion, s.scope, s.generation, s.candidateCount, s.byteCount, s.entries))
  }

  // ---------------------------------------------------------------------------
  // A generation identifies the set of entries.
  // ---------------------------------------------------------------------------

  ghost predicate DistinctIds(entries: seq<Entry>) {
    forall a, b | a in entries && b in entries && a.id == b.id :: a == b
  }

  lemma IdOrder()
    ensures Total(IdLeq)
    ensures forall a: Entry, b: Entry :: IdLeq(a, b) && IdLeq(b, a) ==> a.id == b.id
  {
    StringOrder();
  }

  lemma EntriesInjective(a: seq<Entry>, b: seq<Entry>)
    requires EntriesValue(a) == EntriesValue(b)
    ensures a == b
  {
    forall i | 0 <= i < |a|
      ensures a[i] == b[i]
    {
      var p, q := [Field("id", Str(a[i].id))] + a[i].rest, [Field("id", Str(b[i].id))] + b[i].rest;
      assert EntryValue(a[i]) == EntriesValue(a).items[i] == EntriesValue(b).items[i] == EntryValue(b[i]);
      assert p == q && p[0] == q[0] && p[1..] == a[i].rest && q[1..] == b[i].rest;
    }
  }

  lemma WellSpelledArray(entries: seq<Entry>)
    requires AllWellSpelled(entries)
    ensures WellSpelled(EntriesValue(entries))
  {
  }

  lemma PreimageInjective(scope: string, other: string, bytes: string, otherBytes: string)
    requires ValidScope(scope) && ValidScope(other)
    requires SnapshotGeneration(scope, bytes) == SnapshotGeneration(other, otherBytes)
    ensures scope == other && bytes == otherBytes
  {
    var tag := "prometheus-prompt-snapshot-v1\0";
    Assoc(tag + scope, "\0", bytes);
    Assoc(tag, scope, "\0" + bytes);
    Assoc(tag + other, "\0", otherBytes);
    Assoc(tag, other, "\0" + otherBytes);
    DropCommon(tag, scope + ("\0" + bytes), other + ("\0" + otherBytes));
    assert (scope + ("\0" + bytes))[0] == scope[0] && (other + ("\0" + otherBytes))[0] == other[0];
    DropCommon(scope, "\0" + bytes, "\0" + otherBytes);
    DropCommon("\0", bytes, otherBytes);
  }

  /** Two snapshots share a generation exactly when they are of one scope and their entries sort alike.
      Then they hold the same entries; and if no two entries of one share an identifier, holding the
      same entries, in whatever order they were handed over, is enough. */
  lemma GenerationIdentifiesEntries(scope: string, a: seq<Entry>, other: string, b: seq<Entry>)
    requires ValidScope(scope) && ValidScope(other)
    requires AllWellSpelled(a) && AllWellSpelled(b)
    ensures var same := SnapshotOf(scope, a).generation == SnapshotOf(other, b).generation;
            && (same <==> scope == other && Sort(a, IdLeq) == Sort(b, IdLeq))
            && (same ==> multiset(a) == multiset(b))
            && (DistinctIds(a) ==> (same <==> scope == other && multiset(a) == multiset(b)))
  {
    var sa, sb := Sort(a, IdLeq), Sort(b, IdLeq);
    IdOrder();
    if DistinctIds(a) && multiset(a) == multiset(b) {
      SortForgetsOrder(a, b, IdLeq);
    }
    if SnapshotOf(scope, a).generation == SnapshotOf(other, b).generation {
      PreimageInjective(scope, other, Compact(EntriesValue(sa)), Compact(EntriesValue(sb)));
      SameElements(a, sa);
      SameElements(b, sb);
      WellSpelledArray(sa);
      WellSpelledArray(sb);
      CompactInjective(EntriesValue(sa), EntriesValue(sb));
      EntriesInjective(sa, sb);
    }
  }

  /** Every permutation of the entries gets the same generation. */
  ghost predicate GenerationForgetsOrder(scope: string, entries: seq<Entry>) {
    forall other | multiset(other) == multiset(entries) ::
      SnapshotOf(scope, other).generation == SnapshotOf(scope, entries).generation
  }

  lemma SwapKeepsIds(s: seq<Entry>, i: nat, j: nat)
    requires i < j < |s| && s[i].id == s[j].id && Sorted(s, IdLeq)
    ensures Sorted(s[i := s[j]][j := s[i]], IdLeq)
  {
    var t := s[i := s[j]][j := s[i]];
    assert forall k | 0 <= k < |s| :: s[k].id == t[k].id;
    forall k, l | 0 <= k < l < |t|
      ensures IdLeq(t[k], t[l])
    {
      assert IdLeq(s[k], s[l]);
    }
  }

  /** Two different entries of one identifier: handed over the other way round they get another generation. */
  lemma SharedIdShows(scope: string, entries: seq<Entry>, i: nat, j: nat)
    requires ValidScope(scope) && AllWellSpelled(entries)
    requires var s := Sort(entries, IdLeq); i < j < |s| && s[i].id == s[j].id && s[i] != s[j]
    ensures !GenerationForgetsOrder(scope, entries)
  {
    var s := Sort(entries, IdLeq);
    var t := s[i := s[j]][j := s[i]];
    IdOrder();
    SortSorts(entries, IdLeq);
    SwapPermutes(s, i, j);
    SwapKeepsIds(s, i, j);
    SortedStays(t, IdLeq);
    SameElements(entries, t);
    GenerationIdentifiesEntries(scope, t, scope, entries);
    assert t[i] != s[i];
  }

  lemma DistinctForgets(scope: string, entries: seq<Entry>, other: seq<Entry>)
    requires ValidScope(scope) && AllWellSpelled(entries) && DistinctIds(entries)
    requires multiset(other) == multiset(entries)
    ensures SnapshotOf(scope, other).generation == SnapshotOf(scope, entries).generation
  {
    SameElements(entries, other);
    GenerationIdentifiesEntries(scope, entries, scope, other);
  }

  lemma FindShared(entries: seq<Entry>) returns (i: nat, j: nat)
    requires !DistinctIds(entries)
    ensures i < j < |entries| && entries[i].id == entries[j].id && entries[i] != entries[j]
  {
    var x, y :| x in entries && y in entries && x.id == y.id && x != y;
    i :| i < |entries| && entries[i] == x;
    j :| j < |entries| && entries[j] == y;
    if j < i {
      i, j := j, i;
    }
  }

  lemma SortKeepsDistinct(entries: seq<Entry>)
    ensures DistinctIds(Sort(entries, IdLeq)) ==> DistinctIds(entries)
  {
    SameElements(entries, Sort(entries, IdLeq));
  }

  /** The order of the entries never matters if and only if no two different ones share an identifier. */
  lemma OrderForgottenExactly(scope: string, entries: seq<Entry>)
    requires ValidScope(scope) && AllWellSpelled(entries)
    ensures GenerationForgetsOrder(scope, entries) <==> DistinctIds(entries)
  {
    if DistinctIds(entries) {
      forall other | multiset(other) == multiset(entries)
        ensures SnapshotOf(scope, other).generation == SnapshotOf(scope, entries).generation
      {
        DistinctForgets(scope, entries, other);
      }
    } else {
      SortKeepsDistinct(entries);
      var i, j := FindShared(Sort(entries, IdLeq));
      SharedIdShows(scope, entries, i, j);
    }
  }

  /** The file a commit writes passes every check a reader makes. */
  lemma FreshFileIsIntact(scope: string, entries: seq<Entry>)
    requires AllWellSpelled(entries)
    ensures var s := SnapshotOf(scope, entries);
            Intact(SnapshotFile(FileOf(s)), scope, s.generation) && FileOf(s).Parsed()
  {
    var sorted := Sort(entries, IdLeq);
    SameElements(entries, sorted);
    WellSpelledArray(sorted);
    PrettyCompacts(EntriesValue(sorted), 1);
  }

  lemma FreshFileParses(scope: string, entries: seq<Entry>)
    requires AllWellSpelled(entries)
    ensures FileOf(SnapshotOf(scope, entries)).Parsed()
  {
    FreshFileIsIntact(scope, entries);
  }

  /** What a reader accepts is what it says: its generation is the hash of its own scope and entries, and
      both counts are theirs. */
  lemma AcceptedIsGenuine(disk: Disk, scope: string)
    requires AllParsed(disk) && ReadPromptSnapshot(disk, scope).Ok?
    ensures var s := ReadPromptSnapshot(disk, scope).value;
            Genuine(s, scope) && disk[Current(scope)] == Pointer(s.generation)
  {
    var path := GenerationFile(scope, disk[Current(scope)].generation);
    assert disk[path].stored.Parsed();
  }

  /** Each way of failing has its own error. */
  lemma ReadErrors(disk: Disk, scope: string)
    ensures var r := ReadPromptSnapshot(disk, scope);
            && (r == Err(BadScope) <==> scope != "project" && scope != "shared" && scope != "global")
            && (r == Err(NoPointer) <==> scope in {"project", "shared", "global"} && Current(scope) !in disk)
            && (ValidScope(scope) && Current(scope) in disk ==>
                  && (r == Err(BadPointer) <==> !disk[Current(scope)].Pointer?)
                  && (disk[Current(scope)].Pointer? ==>
                        var path := GenerationFile(scope, disk[Current(scope)].generation);
                        && (r == Err(NoGeneration) <==> path !in disk)
                        && (r == Err(Unreadable) <==> path in disk && !disk[path].SnapshotFile?)))
  {
  }

  /** An intact file under the generation of `entries` holds exactly those entries. */
  lemma IntactFileHoldsEntries(scope: string, entries: seq<Entry>, content: Content)
    requires AllWellSpelled(entries) && ValidScope(scope)
    requires Intact(content, scope, SnapshotOf(scope, entries).generation) && content.stored.Parsed()
    ensures content.stored.entries == SnapshotOf(scope, entries).entries
    ensures content.stored.byteCount == SnapshotOf(scope, entries).byteCount
  {
    var sorted := Sort(entries, IdLeq);
    SameElements(entries, sorted);
    WellSpelledArray(sorted);
    WellSpelledArray(content.stored.entries);
    PreimageInjective(scope, scope, Kept(Between, content.stored.entriesText), Compact(EntriesValue(sorted)));
    CompactInjective(EntriesValue(content.stored.entries), EntriesValue(sorted));
    EntriesInjective(content.stored.entries, sorted);
  }

  // ---------------------------------------------------------------------------
  // The commit, one file operation at a time.
  // ---------------------------------------------------------------------------

  /** Every snapshot file on disk came out of the parser. */
  ghost predicate AllParsed(disk: Disk) {
    forall path | path in disk && disk[path].SnapshotFile? :: disk[path].stored.Parsed()
  }

  /** Every generation file on disk is whole: no write of one was torn. */
  ghost predicate AllIntact(disk: Disk) {
    forall path | path in disk && path.GenerationFile? :: Intact(disk[path], path.scope, path.generation)
  }

  /** The pointer of `scope` names `generation`, whose file is missing. */
  predicate Dangling(disk: Disk, scope: string, generation: Generation) {
    && Current(scope) in disk
    && disk[Current(scope)] == Pointer(generation)
    && GenerationFile(scope, generation) !in disk
  }

  /** No generation file of `before` was changed or removed. */
  ghost predicate KeepsGenerations(before: Disk, after: Disk) {
    forall path | path in before && path.GenerationFile? :: path in after && after[path] == before[path]
  }

  /** Everything `ReadPromptSnapshot` looks at for `scope` is alike on both disks. */
  ghost predicate SameView(before: Disk, after: Disk, scope: string) {
    && (Current(scope) in before <==> Current(scope) in after)
    && (Current(scope) in before ==>
          && before[Current(scope)] == after[Current(scope)]
          && (before[Current(scope)].Pointer? ==>
                SameFile(before, after, GenerationFile(scope, before[Current(scope)].generation))))
  }

  ghost predicate SameFile(before: Disk, after: Disk, path: Path) {
    (path in before <==> path in after) && (path in before ==> before[path] == after[path])
  }

  /** No temporary appeared other than `own`. */
  ghost predicate OnlyTemporary(before: Disk, after: Disk, own: Path) {
    forall path | path in after && path.Temporary? :: path in before || path == own
  }

  /** A step of a commit to `scope` that no reader can notice. */
  ghost predicate Unnoticed(before: Disk, after: Disk, scope: string, generation: Generation) {
    && KeepsGenerations(before, after)
    && AllParsed(after)
    && (forall other | other != scope :: SameView(before, after, other))
    && (!Dangling(before, scope, generation) ==> SameView(before, after, scope))
  }

  /** The same generation files, holding the same. */
  ghost predicate SameFiles(before: Disk, after: Disk) {
    forall path: Path | path.GenerationFile? :: SameFile(before, after, path)
  }

  /** The generation files after `steps` operations of a commit of `snapshot`: a missing one is created,
      then filled; an existing one is left alone, and so are all others. */
  ghost predicate Stepped(before: Disk, after: Disk, snapshot: PromptSnapshot, steps: nat) {
    var own := GenerationFile(snapshot.scope, snapshot.generation);
    && (forall path: Path | path.GenerationFile? && path != own :: SameFile(before, after, path))
    && (if own in before || steps == 0 then SameFile(before, after, own)
        else own in after && after[own] == if steps == 1 then Damaged else SnapshotFile(FileOf(snapshot)))
  }

  /** The disk after `steps` operations of a commit: no temporary but its own, the generation files as
      they should be, and, before the last operation, nothing that a reader can notice. */
  ghost predicate CommitStep(before: Disk, after: Disk, snapshot: PromptSnapshot, tag: nat, steps: nat, last: bool) {
    && OnlyTemporary(before, after, Temporary(snapshot.scope, tag))
    && Stepped(before, after, snapshot, steps)
    && (!last ==> Unnoticed(before, after, snapshot.scope, snapshot.generation))
  }

  /** The disk after an operation of replacing the pointer. */
  ghost predicate PointerStep(before: Disk, after: Disk, scope: string, generation: Generation, tag: nat, last: bool) {
    && OnlyTemporary(before, after, Temporary(scope, tag))
    && SameFiles(before, after)
    && (!last ==> Unnoticed(before, after, scope, generation))
  }

  /** The disk once the generation of `snapshot` has a file, whoever wrote it. */
  function Published(disk: Disk, snapshot: PromptSnapshot): Disk {
    var path := GenerationFile(snapshot.scope, snapshot.generation);
    if path in disk then disk else disk[path := SnapshotFile(FileOf(snapshot))]
  }

  /** The disk a finished commit leaves. */
  function Committed(disk: Disk, snapshot: PromptSnapshot): Disk {
    Published(disk, snapshot)[Current(snapshot.scope) := Pointer(snapshot.generation)]
  }

  lemma TemporaryUnnoticed(disk: Disk, temporary: Path, content: Content, scope: string, generation: Generation)
    requires AllParsed(disk) && temporary.Temporary? && !content.SnapshotFile?
    ensures Unnoticed(disk, disk[temporary := content], scope, generation)
    ensures OnlyTemporary(disk, disk[temporary := content], temporary) && SameFiles(disk, disk[temporary := content])
  {
  }

  lemma RenamedTemporary(disk: Disk, temporary: Path, scope: string, generation: Generation)
    requires temporary.Temporary? && temporary !in disk
    ensures var full := disk[temporary := Pointer(generation)];
            (full - {temporary})[Current(scope) := Pointer(generation)] == disk[Current(scope) := Pointer(generation)]
    ensures OnlyTemporary(disk, disk[Current(scope) := Pointer(generation)], temporary)
    ensures SameFiles(disk, disk[Current(scope) := Pointer(generation)])
  {
    var full := disk[temporary := Pointer(generation)];
    assert full - {temporary} == disk;
  }

  lemma CreatedUnnoticed(disk: Disk, snapshot: PromptSnapshot, content: Content)
    requires var path := GenerationFile(snapshot.scope, snapshot.generation); path !in disk
    requires AllParsed(disk) && (content.SnapshotFile? ==> content.stored.Parsed())
    ensures var path := GenerationFile(snapshot.scope, snapshot.generation);
            Unnoticed(disk, disk[path := content], snapshot.scope, snapshot.generation)
  {
  }

  lemma SteppedOn(before: Disk, published: Disk, after: Disk, snapshot: PromptSnapshot, steps: nat)
    requires published == Published(before, snapshot) && SameFiles(published, after)
    requires GenerationFile(snapshot.scope, snapshot.generation) in before || steps >= 2
    ensures Stepped(before, after, snapshot, steps)
  {
    assert SameFile(published, after, GenerationFile(snapshot.scope, snapshot.generation));
    forall path: Path | path.GenerationFile? && path != GenerationFile(snapshot.scope, snapshot.generation)
      ensures SameFile(before, after, path)
    {
      assert SameFile(published, after, path);
    }
  }

  lemma CommitStepOn(before: Disk, published: Disk, after: Disk, snapshot: PromptSnapshot, tag: nat, steps: nat,
      last: bool)
    requires published == Published(before, snapshot)
    requires Unnoticed(before, published, snapshot.scope, snapshot.generation)
    requires PointerStep(published, after, snapshot.scope, snapshot.generation, tag, last)
    requires GenerationFile(snapshot.scope, snapshot.generation) in before || steps >= 2
    ensures CommitStep(before, after, snapshot, tag, steps, last)
  {
    if !last {
      UnnoticedTwice(before, published, after, snapshot.scope, snapshot.generation);
    }
    SteppedOn(before, published, after, snapshot, steps);
  }

  class SnapshotStore {
    var disk: Disk
    /** The disk after every file operation so far, first to last: what a crash may leave behind. */
    var history: seq<Disk>

    constructor ()
      ensures disk == map[] && history == []
    {
      disk, history := map[], [];
    }

    /** `create_new`: fails on an existing file; the new file is empty until it is filled. */
    method CreateNew(path: Path) returns (ok: bool)
      modifies this
      ensures ok <==> path !in old(disk)
      ensures ok ==> disk == old(disk)[path := Damaged] && history == old(history) + [disk]
      ensures !ok ==> disk == old(disk) && history == old(history)
    {
      ok := path !in disk;
      if ok {
        disk := disk[path := Damaged];
        history := history + [disk];
      }
    }

    method Fill(path: Path, content: Content)
      modifies this
      ensures disk == old(disk)[path := content] && history == old(history) + [disk]
    {
      disk := disk[path := content];
      history := history + [disk];
    }

    method Rename(source: Path, target: Path)
      requires source in disk && source != target
      modifies this
      ensures disk == (old(disk) - {source})[target := old(disk)[source]] && history == old(history) + [disk]
    {
      disk := (disk - {source})[target := disk[source]];
      history := history + [disk];
    }

    /** `atomic_replace` of the pointer: a fresh temporary is written whole, then renamed over it. */
    method ReplacePointer(scope: string, generation: Generation, tag: nat) returns (ok: bool)
      requires AllParsed(disk)
      modifies this
      ensures ok <==> Temporary(scope, tag) !in old(disk)
      ensures old(history) <= history
      ensures forall i | |old(history)| <= i < |history| ::
          PointerStep(old(disk), history[i], scope, generation, tag, i == |history| - 1)
      ensures !ok ==> disk == old(disk) && history == old(history)
      ensures ok ==> |history| == |old(history)| + 3 && disk == history[|history| - 1]
      ensures ok ==> disk == old(disk)[Current(scope) := Pointer(generation)]
    {
      var temporary := Temporary(scope, tag);
      ok := CreateNew(temporary);
      if ok {
        TemporaryUnnoticed(old(disk), temporary, Damaged, scope, generation);
        TemporaryUnnoticed(old(disk), temporary, Pointer(generation), scope, generation);
        RenamedTemporary(old(disk), temporary, scope, generation);
        Fill(temporary, Pointer(generation));
        assert disk == old(disk)[temporary := Pointer(generation)];
        Rename(temporary, Current(scope));
      }
    }

    /** Write the generation file, unless a file of that name exists already. */
    method PublishGeneration(snapshot: PromptSnapshot, ghost tag: nat)
      requires AllParsed(disk) && FileOf(snapshot).Parsed()
      modifies this
      ensures old(history) <= history
      ensures forall i | |old(history)| <= i < |history| ::
          CommitStep(old(disk), history[i], snapshot, tag, i + 1 - |old(history)|, false)
      ensures Unnoticed(old(disk), disk, snapshot.scope, snapshot.generation)
      ensures |history| in {|old(history)|, |old(history)| + 2}
      ensures if |history| == |old(history)| then disk == old(disk) else disk == history[|history| - 1]
      ensures GenerationFile(snapshot.scope, snapshot.generation) in old(disk) || |history| == |old(history)| + 2
      ensures disk == Published(old(disk), snapshot)
    {
      var path := GenerationFile(snapshot.scope, snapshot.generation);
      if path !in disk {
        CreatedUnnoticed(disk, snapshot, Damaged);
        CreatedUnnoticed(disk, snapshot, SnapshotFile(FileOf(snapshot)));
        var _ := CreateNew(path);
        Fill(path, SnapshotFile(FileOf(snapshot)));
        assert disk == old(disk)[path := SnapshotFile(FileOf(snapshot))];
      }
    }

    /** The file operations of a commit: the generation's file, then the pointer. */
    method PublishAndPoint(snapshot: PromptSnapshot, tag: nat) returns (ok: bool)
      requires AllParsed(disk) && FileOf(snapshot).Parsed()
      modifies this
      ensures ok <==> Temporary(snapshot.scope, tag) !in old(disk)
      ensures old(history) <= history && |history| <= |old(history)| + 5
      ensures if |history| == |old(history)| then disk == old(disk) else disk == history[|history| - 1]
      ensures ok ==> |history| > |old(history)|
      ensures GenerationFile(snapshot.scope, snapshot.generation) in old(disk) || |history| >= |old(history)| + 2
      ensures forall i | |old(history)| <= i < |history| ::
                CommitStep(old(disk), history[i], snapshot, tag, i + 1 - |old(history)|, ok && i == |history| - 1)
      ensures disk == if ok then Committed(old(disk), snapshot) else Published(old(disk), snapshot)
    {
      PublishGeneration(snapshot, tag);
      ghost var published, steps := disk, |history|;
      ok := ReplacePointer(snapshot.scope, snapshot.generation, tag);
      forall i | steps <= i < |history|
        ensures CommitStep(old(disk), history[i], snapshot, tag, i + 1 - |old(history)|, i == |history| - 1)
      {
        CommitStepOn(old(disk), published, history[i], snapshot, tag, i + 1 - |old(history)|, i == |history| - 1);
      }
    }

    method CommitPromptSnapshot(scope: string, entries: seq<Entry>, tag: nat)
        returns (r: Result<PromptSnapshot, Failure>)
      requires AllWellSpelled(entries) && AllParsed(disk)
      modifies this
      ensures old(history) <= history && |history| <= |old(history)| + 5
      ensures if |history| == |old(history)| then disk == old(disk) else disk == history[|history| - 1]
      // Errors: a bad scope, or a leftover temporary of the same name.
      ensures r == if !ValidScope(scope) then Err(BadScope)
                   else if Temporary(scope, tag) in old(disk) then Err(AlreadyExists)
                   else Ok(SnapshotOf(scope, entries))
      ensures r == Err(BadScope) <==> scope != "project" && scope != "shared" && scope != "global"
      // The snapshot holds the entries in ascending order of their identifiers, those of one identifier in
      // the order in which they came, and its generation is the hash of its scope and its compact entries.
      ensures r.Ok? ==> Genuine(r.value, scope) && HoldsSorted(r.value.entries, entries)
      ensures r.Ok? ==> |history| > |old(history)|
      // Until the last operation of a finished commit no reader notices anything.
      ensures forall i | |old(history)| <= i < |history| ::
                CommitStep(old(disk), history[i], SnapshotOf(scope, entries), tag, i + 1 - |old(history)|,
                  r.Ok? && i == |history| - 1)
      ensures if ValidScope(scope) then GenerationFile(scope, SnapshotOf(scope, entries).generation) in old(disk)
          || |history| >= |old(history)| + 2
              else |history| == |old(history)|
      // A finished commit has the generation's file and points to it; a failed one has at most the file.
      ensures disk == match r
                      case Ok(snapshot) => Committed(old(disk), snapshot)
                      case Err(AlreadyExists) => Published(old(disk), SnapshotOf(scope, entries))
                      case _ => old(disk)
    {
      if !ValidScope(scope) {
        return Err(BadScope);
      }
      var snapshot := SnapshotOf(scope, entries);
      SnapshotHoldsEntries(scope, entries);
      FreshFileParses(scope, entries);
      var replaced := PublishAndPoint(snapshot, tag);
      r := if replaced then Ok(snapshot) else Err(AlreadyExists);
    }
  }

  lemma SameViewTwice(a: Disk, b: Disk, c: Disk, scope: string)
    requires SameView(a, b, scope) && SameView(b, c, scope)
    ensures SameView(a, c, scope)
  {
  }

  lemma UnnoticedTwice(a: Disk, b: Disk, c: Disk, scope: string, generation: Generation)
    requires Unnoticed(a, b, scope, generation) && Unnoticed(b, c, scope, generation)
    ensures Unnoticed(a, c, scope, generation)
  {
    forall other | SameView(a, b, other) && SameView(b, c, other)
      ensures SameView(a, c, other)
    {
      SameViewTwice(a, b, c, other);
    }
  }

  // ---------------------------------------------------------------------------
  // What readers see.
  // ---------------------------------------------------------------------------

  lemma SameViewSameRead(before: Disk, after: Disk, scope: string)
    requires SameView(before, after, scope)
    ensures ReadPromptSnapshot(before, scope) == ReadPromptSnapshot(after, scope)
  {
  }

  /** A finished commit is what readers see, except exactly when it trusted a file that was there
      already and is not intact (a torn write of the same generation). */
  lemma CommitReadsBack(disk: Disk, scope: string, entries: seq<Entry>)
    requires ValidScope(scope) && AllWellSpelled(entries) && AllParsed(disk)
    ensures var s := SnapshotOf(scope, entries);
            var path := GenerationFile(scope, s.generation);
            ReadPromptSnapshot(Committed(disk, s), scope) == Ok(s)
            <==> (path in disk ==> Intact(disk[path], scope, s.generation))
  {
    var s := SnapshotOf(scope, entries);
    var path := GenerationFile(scope, s.generation);
    FreshFileIsIntact(scope, entries);
    if path in disk && Intact(disk[path], scope, s.generation) {
      IntactFileHoldsEntries(scope, entries, disk[path]);
    }
  }

  /** A finished commit changes nothing for other scopes, whatever other files are torn. Its own scope
      shows the new entries, unless the commit trusted a file that is not intact: then it shows an
      error, never other entries. */
  lemma CommitIsLocal(disk: Disk, scope: string, entries: seq<Entry>)
    requires ValidScope(scope) && AllWellSpelled(entries) && AllParsed(disk)
    ensures var s := SnapshotOf(scope, entries);
            var path := GenerationFile(scope, s.generation);
            var after := Committed(disk, s);
            && AllParsed(after)
            && (AllIntact(disk) ==> AllIntact(after) && AllIntact(Published(disk, s)))
            && (forall other | other != scope :: ReadPromptSnapshot(after, other) == ReadPromptSnapshot(disk, other))
            && (if path in disk && !Intact(disk[path], scope, s.generation) then ReadPromptSnapshot(after, scope).Err?
                else ReadPromptSnapshot(after, scope) == Ok(s))
  {
    var s := SnapshotOf(scope, entries);
    var after := Committed(disk, s);
    FreshFileIsIntact(scope, entries);
    CommitReadsBack(disk, scope, entries);
    forall other | other != scope
      ensures ReadPromptSnapshot(after, other) == ReadPromptSnapshot(disk, other)
    {
      SameViewSameRead(disk, after, other);
    }
  }

  /** A crash anywhere before the last operation of a commit leaves every committed scope readable as before. */
  lemma CrashKeepsReads(before: Disk, after: Disk, scope: string, generation: Generation, reader: string)
    requires Unnoticed(before, after, scope, generation)
    requires ReadPromptSnapshot(before, reader).Ok?
    ensures ReadPromptSnapshot(after, reader) == ReadPromptSnapshot(before, reader)
  {
    assert SameView(before, after, reader);
    SameViewSameRead(before, after, reader);
  }

  // ---------------------------------------------------------------------------
  // Any run of commits and crashes.
  // ---------------------------------------------------------------------------

  /** One commit, and how many of its file operations happen before the process stops. If they are just
      those of the commit, it stops before its caller has the snapshot. */
  datatype Attempt = Attempt(scope: string, entries: seq<Entry>, tag: nat, operations: nat)

  /** What becomes of an attempt: nothing that readers see, a snapshot whose caller never hears of it, or
      one that is returned. */
  datatype Outcome = Nothing | Unreported(snapshot: PromptSnapshot) | Reported(snapshot: PromptSnapshot)

  /** The last snapshot that was published for `scope`, reported or not. */
  function LastPublished(outcomes: seq<Outcome>, scope: string): Option<PromptSnapshot> {
    if outcomes == [] then None
    else
      var last := outcomes[|outcomes| - 1];
      if !last.Nothing? && last.snapshot.scope == scope then Some(last.snapshot)
      else LastPublished(outcomes[..|outcomes| - 1], scope)
  }

  lemma {:induction false} LastIndex(outcomes: seq<Outcome>, scope: string) returns (i: nat)
    requires LastPublished(outcomes, scope).Some?
    ensures i < |outcomes| && !outcomes[i].Nothing? && outcomes[i].snapshot.scope == scope
    ensures LastPublished(outcomes, scope) == Some(outcomes[i].snapshot)
    decreases |outcomes|
  {
    i := |outcomes| - 1;
    if outcomes[i].Nothing? || outcomes[i].snapshot.scope != scope {
      i := LastIndex(outcomes[..i], scope);
    }
  }

  function OwnFile(a: Attempt): Path {
    GenerationFile(a.scope, SnapshotOf(a.scope, a.entries).generation)
  }

  /** The attempt gets as far as the generation file at `path`. */
  predicate Touches(a: Attempt, path: Path) {
    ValidScope(a.scope) && a.operations > 0 && OwnFile(a) == path
  }

  ghost predicate Touched(plan: seq<Attempt>, n: nat, path: Path)
    requires n <= |plan|
  {
    exists j :: 0 <= j < n && Touches(plan[j], path)
  }

  /** The first attempt that got to `path` stopped between creating and filling it. */
  ghost predicate Torn(plan: seq<Attempt>, n: nat, path: Path)
    requires n <= |plan|
  {
    exists j :: 0 <= j < n && Touches(plan[j], path) && plan[j].operations == 1 && !Touched(plan, j, path)
  }

  /** After the first `n` attempts the generation files are those they got to, whole unless torn. */
  ghost predicate FileFollows(disk: Disk, plan: seq<Attempt>, n: nat, path: Path)
    requires n <= |plan| && path.GenerationFile?
  {
    && (path in disk <==> Touched(plan, n, path))
    && (path in disk ==> if Torn(plan, n, path) then disk[path] == Damaged
      else Intact(disk[path], path.scope, path.generation))
  }

  lemma TouchedStep(plan: seq<Attempt>, n: nat, path: Path)
    requires n < |plan|
    ensures Touched(plan, n + 1, path) <==> Touched(plan, n, path) || Touches(plan[n], path)
  {
  }

  lemma TornStep(plan: seq<Attempt>, n: nat, path: Path)
    requires n < |plan|
    ensures Torn(plan, n + 1, path)
       <==> Torn(plan, n, path) || (Touches(plan[n], path) && plan[n].operations == 1 && !Touched(plan, n, path))
  {
  }

  /** The generation files after an attempt. */
  ghost predicate Attempted(before: Disk, after: Disk, a: Attempt) {
    Stepped(before, after, SnapshotOf(a.scope, a.entries), if ValidScope(a.scope) then a.operations else 0)
  }

  lemma FileFollowsOn(before: Disk, after: Disk, plan: seq<Attempt>, n: nat, path: Path)
    requires n < |plan| && path.GenerationFile? && FileFollows(before, plan, n, path)
    requires Attempted(before, after, plan[n]) && AllWellSpelled(plan[n].entries)
    ensures FileFollows(after, plan, n + 1, path)
  {
    TouchedStep(plan, n, path);
    TornStep(plan, n, path);
    if path == OwnFile(plan[n]) {
      FreshFileIsIntact(plan[n].scope, plan[n].entries);
    } else {
      assert SameFile(before, after, path);
    }
  }

  ghost predicate FilesFollow(disk: Disk, plan: seq<Attempt>, n: nat)
    requires n <= |plan|
  {
    forall path: Path | path.GenerationFile? :: FileFollows(disk, plan, n, path)
  }

  lemma FilesFollowOn(before: Disk, after: Disk, plan: seq<Attempt>, n: nat)
    requires n < |plan| && FilesFollow(before, plan, n) && Attempted(before, after, plan[n])
    requires AllWellSpelled(plan[n].entries)
    ensures FilesFollow(after, plan, n + 1)
  {
    forall path: Path | path.GenerationFile?
      ensures FileFollows(after, plan, n + 1, path)
    {
      FileFollowsOn(before, after, plan, n, path);
    }
  }

  /** The pointer of `scope` names an existing generation file. */
  ghost predicate Points(disk: Disk, scope: string, generation: Generation) {
    Current(scope) in disk && disk[Current(scope)] == Pointer(generation) && GenerationFile(scope, generation) in disk
  }

  /** The pointer of each scope names the last generation published for it. */
  ghost predicate PointsAtLast(disk: Disk, outcomes: seq<Outcome>) {
    forall scope :: var last := LastPublished(outcomes, scope);
      last.Some? ==> Points(disk, scope, last.value.generation)
  }

  /** What each scope shows: the last snapshot published for it, or an error if the file of its generation is torn. */
  ghost predicate ReadsLast(disk: Disk, plan: seq<Attempt>, outcomes: seq<Outcome>, scope: string) {
    var last := LastPublished(outcomes, scope);
    last.Some? ==>
      ReadPromptSnapshot(disk, scope) ==
      if Torn(plan, |plan|, GenerationFile(scope, last.value.generation)) then Err(Unreadable) else Ok(last.value)
  }

  /** An attempt publishes its snapshot unless it was cut short, was misnamed or met a leftover temporary. */
  ghost predicate Excused(plan: seq<Attempt>, i: nat)
    requires i < |plan|
  {
    || plan[i].operations < 5
    || !ValidScope(plan[i].scope)
    || exists j | 0 <= j < i :: plan[j].scope == plan[i].scope && plan[j].tag == plan[i].tag
  }

  /** Whoever could read a snapshot still reads the same one. */
  ghost predicate KeepsReads(before: Disk, after: Disk) {
    forall reader | ReadPromptSnapshot(before, reader).Ok? ::
      ReadPromptSnapshot(after, reader) == ReadPromptSnapshot(before, reader)
  }

  ghost predicate KeepsPointers(before: Disk, after: Disk) {
    forall reader, generation | Points(before, reader, generation) :: Points(after, reader, generation)
  }

  lemma CrashKeepsAllReads(before: Disk, after: Disk, scope: string, generation: Generation)
    requires Unnoticed(before, after, scope, generation)
    ensures KeepsReads(before, after) && KeepsPointers(before, after)
  {
    forall reader | ReadPromptSnapshot(before, reader).Ok?
      ensures ReadPromptSnapshot(after, reader) == ReadPromptSnapshot(before, reader)
    {
      CrashKeepsReads(before, after, scope, generation, reader);
    }
    forall reader, named | Points(before, reader, named)
      ensures Points(after, reader, named)
    {
      assert SameView(before, after, reader);
    }
  }

  /** A finished commit takes the same steps on the generation files as any number of its operations from two on. */
  lemma CommitSteps(before: Disk, s: PromptSnapshot, operations: nat)
    requires operations >= 2 || GenerationFile(s.scope, s.generation) in before
    ensures Stepped(before, Committed(before, s), s, operations) && Stepped(before, Published(before, s), s, operations)
  {
  }

  /** One commit with its crash, if it has one. */
  method RunAttempt(store: SnapshotStore, attempt: Attempt) returns (outcome: Outcome)
    requires AllWellSpelled(attempt.entries) && AllParsed(store.disk)
    modifies store
    ensures AllParsed(store.disk)
    ensures OnlyTemporary(old(store.disk), store.disk, Temporary(attempt.scope, attempt.tag))
    ensures Attempted(old(store.disk), store.disk, attempt)
    ensures outcome.Nothing? ==> KeepsReads(old(store.disk), store.disk) && KeepsPointers(old(store.disk), store.disk)
    ensures outcome.Nothing? ==>
        attempt.operations < 5 || !ValidScope(attempt.scope) || Temporary(attempt.scope, attempt.tag) in old(store.disk)
    ensures !outcome.Nothing? ==>
              && ValidScope(attempt.scope) && outcome.snapshot == SnapshotOf(attempt.scope, attempt.entries)
              && store.disk == Committed(old(store.disk), outcome.snapshot)
              && (outcome.Unreported? ==> attempt.operations <= 5)
  {
    var before, start := store.disk, |store.history|;
    var r := store.CommitPromptSnapshot(attempt.scope, attempt.entries, attempt.tag);
    ghost var snapshot := SnapshotOf(attempt.scope, attempt.entries);
    outcome := Nothing;
    if start + attempt.operations < |store.history| {
      store.disk := if attempt.operations == 0 then before else store.history[start + attempt.operations - 1];
      if attempt.operations > 0 {
        CrashKeepsAllReads(before, store.disk, attempt.scope, snapshot.generation);
      }
    } else {
      if attempt.operations >= 2 || OwnFile(attempt) in before {
        CommitSteps(before, snapshot, attempt.operations);
      }
      if r.Ok? {
        CommitIsLocal(before, attempt.scope, attempt.entries);
        outcome := if start + attempt.operations == |store.history| then Unreported(r.value) else Reported(r.value);
      } else if start < |store.history| {
        CrashKeepsAllReads(before, store.disk, attempt.scope, snapshot.generation);
      }
    }
  }

  lemma PointsOn(before: Disk, after: Disk, outcomes: seq<Outcome>, outcome: Outcome)
    requires PointsAtLast(before, outcomes)
    requires if outcome.Nothing? then KeepsPointers(before, after) else after == Committed(before, outcome.snapshot)
    ensures PointsAtLast(after, outcomes + [outcome])
  {
    assert (outcomes + [outcome])[..|outcomes|] == outcomes;
    forall scope | LastPublished(outcomes + [outcome], scope).Some?
      ensures Points(after, scope, LastPublished(outcomes + [outcome], scope).value.generation)
    {
      if outcome.Nothing? || outcome.snapshot.scope != scope {
        assert Points(before, scope, LastPublished(outcomes, scope).value.generation);
      }
    }
  }

  ghost predicate TagUsed(plan: seq<Attempt>, n: nat, path: Path)
    requires n <= |plan| && path.Temporary?
  {
    exists j :: 0 <= j < n && plan[j].scope == path.scope && plan[j].tag == path.tag
  }

  /** Temporaries on disk are left over from the first `n` attempts. */
  ghost predicate LeftoversFrom(disk: Disk, plan: seq<Attempt>, n: nat)
    requires n <= |plan|
  {
    forall path | path in disk && path.Temporary? :: TagUsed(plan, n, path)
  }

  lemma LeftoversOn(before: Disk, after: Disk, plan: seq<Attempt>, n: nat)
    requires n < |plan| && LeftoversFrom(before, plan, n)
    requires OnlyTemporary(before, after, Temporary(plan[n].scope, plan[n].tag))
    ensures LeftoversFrom(after, plan, n + 1)
  {
  }

  /** What attempt `i` came to: its snapshot is published, unless it is excused, and reported unless it
      stopped with the last file operation. */
  ghost predicate Gave(plan: seq<Attempt>, i: nat, outcome: Outcome)
    requires i < |plan|
  {
    if outcome.Nothing? then Excused(plan, i)
    else
      && ValidScope(plan[i].scope) && outcome.snapshot == SnapshotOf(plan[i].scope, plan[i].entries)
      && (outcome.Unreported? ==> plan[i].operations <= 5)
  }

  ghost predicate GaveAll(plan: seq<Attempt>, outcomes: seq<Outcome>) {
    |outcomes| <= |plan| && forall i | 0 <= i < |outcomes| :: Gave(plan, i, outcomes[i])
  }

  /** The disk after the attempts that `outcomes` accounts for. */
  ghost predicate Account(disk: Disk, plan: seq<Attempt>, outcomes: seq<Outcome>) {
    && |outcomes| <= |plan|
    && AllParsed(disk) && FilesFollow(disk, plan, |outcomes|) && PointsAtLast(disk, outcomes)
    && LeftoversFrom(disk, plan, |outcomes|)
  }

  lemma AccountOn(before: Disk, after: Disk, plan: seq<Attempt>, outcomes: seq<Outcome>, outcome: Outcome)
    requires Account(before, plan, outcomes) && |outcomes| < |plan| && AllWellSpelled(plan[|outcomes|].entries)
    requires AllParsed(after) && Attempted(before, after, plan[|outcomes|])
    requires OnlyTemporary(before, after, Temporary(plan[|outcomes|].scope, plan[|outcomes|].tag))
    requires if outcome.Nothing? then KeepsPointers(before, after) else after == Committed(before, outcome.snapshot)
    ensures Account(after, plan, outcomes + [outcome])
  {
    var now := outcomes + [outcome];
    var n := |outcomes|;
    assert |now| == n + 1;
    assert FilesFollow(after, plan, n + 1) by {
      FilesFollowOn(before, after, plan, n);
    }
    assert PointsAtLast(after, now) by {
      PointsOn(before, after, outcomes, outcome);
    }
    assert LeftoversFrom(after, plan, n + 1) by {
      LeftoversOn(before, after, plan, n);
    }
  }

  lemma ExcusedBy(disk: Disk, plan: seq<Attempt>, n: nat)
    requires n < |plan| && LeftoversFrom(disk, plan, n)
    requires plan[n].operations < 5 || !ValidScope(plan[n].scope) || Temporary(plan[n].scope, plan[n].tag) in disk
    ensures Excused(plan, n)
  {
    if Temporary(plan[n].scope, plan[n].tag) in disk {
      assert TagUsed(plan, n, Temporary(plan[n].scope, plan[n].tag));
    }
  }

  lemma LastIsRead(disk: Disk, plan: seq<Attempt>, outcomes: seq<Outcome>, scope: string)
    requires Account(disk, plan, outcomes) && GaveAll(plan, outcomes) && |outcomes| == |plan|
    requires forall a | a in plan :: AllWellSpelled(a.entries)
    ensures ReadsLast(disk, plan, outcomes, scope)
  {
    if LastPublished(outcomes, scope).Some? {
      var i := LastIndex(outcomes, scope);
      var path := GenerationFile(scope, outcomes[i].snapshot.generation);
      assert plan[i] in plan && FileFollows(disk, plan, |plan|, path) && Gave(plan, i, outcomes[i]);
      assert Points(disk, scope, outcomes[i].snapshot.generation);
      if !Torn(plan, |plan|, path) {
        IntactFileHoldsEntries(scope, plan[i].entries, disk[path]);
      }
    }
  }

  /** Run every attempt in turn; `outcomes` is what each came to. At the end every scope reads as the last
      snapshot published for it, whether its caller heard of it or not, except exactly when the first
      attempt that got to that generation's file stopped between creating and filling it: then readers
      get an error. */
  method RunAttempts(store: SnapshotStore, plan: seq<Attempt>) returns (outcomes: seq<Outcome>)
    requires store.disk == map[]
    requires forall a | a in plan :: AllWellSpelled(a.entries)
    modifies store
    ensures |outcomes| == |plan|
    ensures forall scope :: ReadsLast(store.disk, plan, outcomes, scope)
    ensures FilesFollow(store.disk, plan, |plan|)
    ensures GaveAll(plan, outcomes)
  {
    outcomes := [];
    for n := 0 to |plan|
      invariant |outcomes| == n && Account(store.disk, plan, outcomes) && GaveAll(plan, outcomes)
    {
      ghost var before := store.disk;
      assert plan[n] in plan;
      var outcome := RunAttempt(store, plan[n]);
      if outcome.Nothing? {
        ExcusedBy(before, plan, n);
      }
      AccountOn(before, store.disk, plan, outcomes, outcome);
      outcomes := outcomes + [outcome];
    }
    forall scope
      ensures ReadsLast(store.disk, plan, outcomes, scope)
    {
      LastIsRead(store.disk, plan, outcomes, scope);
    }
  }

  /** The failing input: a first commit stops between creating and filling the generation's file, a second
      one of the same entries trusts the file, and its scope reads as an error. */
  lemma TornByStop(scope: string, entries: seq<Entry>, tag: nat, later: nat)
    requires ValidScope(scope)
    ensures var s := SnapshotOf(scope, entries);
            var path := GenerationFile(scope, s.generation);
            var torn: Disk := map[path := Damaged];
            var plan := [Attempt(scope, entries, tag, 1), Attempt(scope, entries, later, 6)];
            && Stepped(map[], torn, s, 1) && Torn(plan, 2, path)
            && ReadPromptSnapshot(Committed(torn, s), scope) == Err(Unreadable)
  {
    var plan := [Attempt(scope, entries, tag, 1), Attempt(scope, entries, later, 6)];
    assert Touches(plan[0], OwnFile(plan[0])) && !Touched(plan, 0, OwnFile(plan[0]));
  }
}
