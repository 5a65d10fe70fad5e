/**
 The in-memory store of entries and its map from content hashes to entries, against
 the entries themselves. Hashes stand for the normalized contents they are made from.
 */
module MarkdownStore {
  import opened ArticleIds
  import opened Basics
  import opened TextIndex

  type Hash = string

  /** `terms` is what the tokenizer makes of the title, tags and content. */
  datatype Entry = Entry(id: Id, title: string, hash: Option<Hash>, revision: nat, terms: seq<Term>)

  type Entries = map<Id, Entry>

  type Hashes = map<Hash, Id>

  datatype StoreError = UnsafeId | NotFound | WriteFailed

  /** One page of a scan: its path, its text if it could be read, and its entry if that parsed. */
  datatype Page = Page(path: string, text: Option<string>, entry: Option<Entry>)

  // -- The hash map as functions -------------------------------------------------------

  /** The map after `entry` replaces whatever stood under its identifier. */
  function HashesAfterUpsert(hashes: Hashes, entries: Entries, entry: Entry): Hashes {
    var kept :=
      if entry.id in entries && entries[entry.id].hash.Some? && entry.hash != entries[entry.id].hash
      then hashes - {entries[entry.id].hash.value} else hashes;
    if entry.hash.Some? then kept[entry.hash.value := entry.id] else kept
  }

  function HashesAfterDelete(hashes: Hashes, entries: Entries, id: Id): Hashes
    requires id in entries
  {
    if entries[id].hash.Some? then hashes - {entries[id].hash.value} else hashes
  }

  /** The entries carry their own identifiers. */
  ghost predicate Keyed(entries: Entries) {
    forall id | id in entries :: entries[id].id == id
  }

  /** What the map says is true: `hash h maps to id` means that entry `id` exists and has hash `h`. */
  ghost predicate Backed(hashes: Hashes, entries: Entries) {
    forall h | h in hashes :: hashes[h] in entries && entries[hashes[h]].hash == Some(h)
  }

  /** The map finds every hash that an entry has. */
  ghost predicate Complete(hashes: Hashes, entries: Entries) {
    forall id | id in entries && entries[id].hash.Some? :: entries[id].hash.value in hashes
  }

  /** The map is the inverse of the entries' hashes. */
  ghost predicate Exact(hashes: Hashes, entries: Entries) {
    forall h, id :: (h in hashes && hashes[h] == id) <==> (id in entries && entries[id].hash == Some(h))
  }

  /** Another entry has the hash that `id` has. */
  ghost predicate SharesHash(entries: Entries, id: Id) {
    id in entries && entries[id].hash.Some? && exists other ::
      other in entries && other != id && entries[other].hash == entries[id].hash
  }

  lemma UpsertStaysBacked(hashes: Hashes, entries: Entries, entry: Entry)
    requires Backed(hashes, entries)
    ensures Backed(HashesAfterUpsert(hashes, entries, entry), entries[entry.id := entry])
  {
  }

  lemma DeleteStaysBacked(hashes: Hashes, entries: Entries, id: Id)
    requires Backed(hashes, entries) && id in entries
    ensures Backed(HashesAfterDelete(hashes, entries, id), entries - {id})
  {
  }

  /** Deleting keeps the map complete exactly when no other entry shares the deleted hash. */
  lemma DeleteStaysComplete(hashes: Hashes, entries: Entries, id: Id)
    requires Complete(hashes, entries) && id in entries
    ensures Complete(HashesAfterDelete(hashes, entries, id), entries - {id}) <==> !SharesHash(entries, id)
  {
    var after := HashesAfterDelete(hashes, entries, id);
    if SharesHash(entries, id) {
      var other :| other in entries && other != id && entries[other].hash == entries[id].hash;
      assert other in entries - {id} && (entries - {id})[other].hash.value !in after;
    }
  }

  /** Replacing an entry keeps the map complete exactly when no other entry shares a hash that it gives up. */
  lemma UpsertStaysComplete(hashes: Hashes, entries: Entries, entry: Entry)
    requires Complete(hashes, entries)
    ensures Complete(HashesAfterUpsert(hashes, entries, entry), entries[entry.id := entry])
       <==> !(SharesHash(entries, entry.id) && entry.hash != entries[entry.id].hash)
  {
    var after, all := HashesAfterUpsert(hashes, entries, entry), entries[entry.id := entry];
    if SharesHash(entries, entry.id) && entry.hash != entries[entry.id].hash {
      var other :| other in entries && other != entry.id && entries[other].hash == entries[entry.id].hash;
      assert other in all && all[other].hash == entries[entry.id].hash && all[other].hash.value !in after;
    }
  }

  /** Two entries with one hash: deleting either leaves the other's content unrecorded. */
  lemma SharedHashIsLost(a: Entry, b: Entry, h: Hash)
    requires a.id != b.id && a.hash == b.hash == Some(h)
    ensures var entries := map[a.id := a, b.id := b];
            var hashes := HashesAfterUpsert(map[h := a.id], map[a.id := a], b);
            Backed(hashes, entries) && Complete(hashes, entries)
            && h !in HashesAfterDelete(hashes, entries, a.id) && b.id in entries - {a.id}
  {
  }

  // -- Scanning -----------------------------------------------------------------------

  function ScannedEntries(pages: seq<Page>): Entries {
    if pages == [] then map[]
    else
      var before, last := ScannedEntries(pages[..|pages| - 1]), pages[|pages| - 1].entry;
      if last.Some? then before[last.value.id := last.value] else before
  }

  function ScannedHashes(pages: seq<Page>): Hashes {
    if pages == [] then map[]
    else
      var before, last := ScannedHashes(pages[..|pages| - 1]), pages[|pages| - 1].entry;
      if last.Some? && last.value.hash.Some? then before[last.value.hash.value := last.value.id] else before
  }

  function Sources(pages: seq<Page>): map<string, string> {
    if pages == [] then map[]
    else
      var before, last := Sources(pages[..|pages| - 1]), pages[|pages| - 1];
      if last.text.Some? then before[last.path := last.text.value] else before
  }

  /** The text kept under a path is that of the last page that could be read there. */
  lemma {:induction false} SourceAt(pages: seq<Page>, i: nat)
    requires i < |pages| && pages[i].text.Some?
    requires forall j | i < j < |pages| && pages[j].text.Some? :: pages[j].path != pages[i].path
    ensures pages[i].path in Sources(pages) && Sources(pages)[pages[i].path] == pages[i].text.value
    decreases |pages|
  {
    var n := |pages| - 1;
    if i < n {
      assert forall j | 0 <= j < n :: pages[..n][j] == pages[j];
      SourceAt(pages[..n], i);
    }
  }

  /** Nothing is kept under a path that no page has. */
  lemma {:induction false} SourceOf(pages: seq<Page>, path: string) returns (i: nat)
    requires path in Sources(pages)
    ensures i < |pages| && pages[i].text.Some? && pages[i].path == path
  {
    var n := |pages| - 1;
    if pages[n].text.Some? && pages[n].path == path {
      i := n;
    } else {
      i := SourceOf(pages[..n], path);
    }
  }

  predicate Failures(pages: seq<Page>) {
    exists i :: 0 <= i < |pages| && pages[i].entry == None
  }

  ghost predicate DistinctIds(pages: seq<Page>) {
    forall i, j | 0 <= i < j < |pages| && pages[i].entry.Some? && pages[j].entry.Some? ::
      pages[i].entry.value.id != pages[j].entry.value.id
  }

  lemma {:induction false} ScannedIds(pages: seq<Page>, id: Id)
    ensures Keyed(ScannedEntries(pages))
    ensures id in ScannedEntries(pages)
        <==> exists i :: 0 <= i < |pages| && pages[i].entry.Some? && pages[i].entry.value.id == id
  {
    if pages != [] {
      var n := |pages| - 1;
      ScannedIds(pages[..n], id);
      if i :| 0 <= i < n && pages[i].entry.Some? && pages[i].entry.value.id == id {
        assert pages[..n][i] == pages[i];
      }
    }
  }

  predicate HasHash(page: Page, hash: Hash) {
    page.entry.Some? && page.entry.value.hash == Some(hash)
  }

  predicate HasId(page: Page, id: Id) {
    page.entry.Some? && page.entry.value.id == id
  }

  /** No page after `i` has this hash. */
  ghost predicate LastHash(pages: seq<Page>, i: nat, hash: Hash)
    requires i < |pages|
  {
    HasHash(pages[i], hash) && forall j | i < j < |pages| :: !HasHash(pages[j], hash)
  }

  /** No page after `i` has this identifier. */
  ghost predicate LastId(pages: seq<Page>, i: nat, id: Id)
    requires i < |pages|
  {
    HasId(pages[i], id) && forall j | i < j < |pages| :: !HasId(pages[j], id)
  }

  ghost predicate HashReturns(pages: seq<Page>, i: nat, hash: Hash) {
    exists k :: i < k < |pages| && HasHash(pages[k], hash)
  }

  /** Where a page's identifier comes again, so does its hash, on that later page or on another. */
  ghost predicate HashesOutlive(pages: seq<Page>) {
    forall i, j, id, hash | 0 <= i < j < |pages| && HasId(pages[i], id) && HasHash(pages[i], hash)
        && HasId(pages[j], id) ::
      HashReturns(pages, i, hash)
  }

  lemma {:induction false} ScannedHashAt(pages: seq<Page>, i: nat, hash: Hash)
    requires i < |pages| && LastHash(pages, i, hash)
    ensures hash in ScannedHashes(pages) && ScannedHashes(pages)[hash] == pages[i].entry.value.id
    decreases |pages|
  {
    var n := |pages| - 1;
    if i < n {
      assert !HasHash(pages[n], hash);
      assert forall j | 0 <= j < n :: pages[..n][j] == pages[j];
      ScannedHashAt(pages[..n], i, hash);
    }
  }

  lemma {:induction false} ScannedEntryAt(pages: seq<Page>, i: nat, id: Id)
    requires i < |pages| && LastId(pages, i, id)
    ensures id in ScannedEntries(pages) && ScannedEntries(pages)[id] == pages[i].entry.value
    decreases |pages|
  {
    var n := |pages| - 1;
    if i < n {
      assert !HasId(pages[n], id);
      assert forall j | 0 <= j < n :: pages[..n][j] == pages[j];
      ScannedEntryAt(pages[..n], i, id);
    }
  }

  /** A hash of the map is that of some page, and there is a last one. */
  lemma {:induction false} FindLastHash(pages: seq<Page>, hash: Hash) returns (i: nat)
    requires hash in ScannedHashes(pages)
    ensures i < |pages| && LastHash(pages, i, hash)
    decreases |pages|
  {
    var n := |pages| - 1;
    if HasHash(pages[n], hash) {
      i := n;
    } else {
      i := FindLastHash(pages[..n], hash);
      assert forall j | 0 <= j < n :: pages[..n][j] == pages[j];
    }
  }

  lemma {:induction false} FindLastId(pages: seq<Page>, i: nat, id: Id) returns (j: nat)
    requires i < |pages| && HasId(pages[i], id)
    ensures i <= j < |pages| && LastId(pages, j, id)
    decreases |pages| - i
  {
    if LastId(pages, i, id) {
      j := i;
    } else {
      var k: nat :| i < k < |pages| && HasId(pages[k], id);
      j := FindLastId(pages, k, id);
    }
  }

  lemma {:induction false} FindLaterHash(pages: seq<Page>, i: nat, hash: Hash) returns (j: nat)
    requires i < |pages| && HasHash(pages[i], hash)
    ensures i <= j < |pages| && LastHash(pages, j, hash)
    decreases |pages| - i
  {
    if LastHash(pages, i, hash) {
      j := i;
    } else {
      var k: nat :| i < k < |pages| && HasHash(pages[k], hash);
      j := FindLaterHash(pages, k, hash);
    }
  }

  /** A scan finds every hash that an entry has, whatever the pages. */
  lemma ScanIsComplete(pages: seq<Page>)
    ensures Complete(ScannedHashes(pages), ScannedEntries(pages))
  {
    var entries := ScannedEntries(pages);
    forall id | id in entries && entries[id].hash.Some?
      ensures entries[id].hash.value in ScannedHashes(pages)
    {
      ScannedIds(pages, id);
      var i: nat :| i < |pages| && pages[i].entry.Some? && pages[i].entry.value.id == id;
      assert HasId(pages[i], id);
      var j := FindLastId(pages, i, id);
      ScannedEntryAt(pages, j, id);
      assert HasHash(pages[j], entries[id].hash.value);
      var k := FindLaterHash(pages, j, entries[id].hash.value);
      ScannedHashAt(pages, k, entries[id].hash.value);
    }
  }

  lemma HashIsBacked(pages: seq<Page>, hash: Hash)
    requires HashesOutlive(pages) && hash in ScannedHashes(pages)
    ensures var id := ScannedHashes(pages)[hash];
            id in ScannedEntries(pages) && ScannedEntries(pages)[id].hash == Some(hash)
  {
    var i := FindLastHash(pages, hash);
    ScannedHashAt(pages, i, hash);
    var id := pages[i].entry.value.id;
    assert HasId(pages[i], id);
    var j := FindLastId(pages, i, id);
    ScannedEntryAt(pages, j, id);
    assert i < j ==> HashReturns(pages, i, hash);
  }

  lemma LostHashIsUnbacked(pages: seq<Page>, i: nat, j: nat, id: Id, hash: Hash)
    requires i < j < |pages| && HasId(pages[i], id) && HasHash(pages[i], hash) && HasId(pages[j], id)
    requires !HashReturns(pages, i, hash)
    ensures !Backed(ScannedHashes(pages), ScannedEntries(pages))
  {
    assert forall k | i < k < |pages| :: !HasHash(pages[k], hash);
    ScannedHashAt(pages, i, hash);
    var k := FindLastId(pages, j, id);
    ScannedEntryAt(pages, k, id);
    assert !HasHash(pages[k], hash);
    assert hash in ScannedHashes(pages);
  }

  /** What a scan's map says is true exactly when no page's hash is lost to a later page of its identifier. */
  lemma ScanBackedExactly(pages: seq<Page>)
    ensures Backed(ScannedHashes(pages), ScannedEntries(pages)) <==> HashesOutlive(pages)
  {
    if HashesOutlive(pages) {
      forall hash | hash in ScannedHashes(pages)
        ensures var id := ScannedHashes(pages)[hash];
                id in ScannedEntries(pages) && ScannedEntries(pages)[id].hash == Some(hash)
      {
        HashIsBacked(pages, hash);
      }
    } else {
      var i, j, id, hash :| 0 <= i < j < |pages| && HasId(pages[i], id) && HasHash(pages[i], hash)
          && HasId(pages[j], id)
        && !HashReturns(pages, i, hash);
      LostHashIsUnbacked(pages, i, j, id, hash);
    }
  }

  /** Pages with distinct identifiers scan to a map that is backed and complete. */
  lemma ScanIsBacked(pages: seq<Page>)
    requires DistinctIds(pages)
    ensures HashesOutlive(pages)
    ensures Backed(ScannedHashes(pages), ScannedEntries(pages)) && Complete(ScannedHashes(pages), ScannedEntries(pages))
  {
    ScanBackedExactly(pages);
    ScanIsComplete(pages);
  }

  /** Two pages under one identifier with different hashes: the map keeps the hash of the page that lost. */
  lemma RepeatedIdIsUnbacked(a: Page, b: Page)
    requires a.entry.Some? && b.entry.Some? && a.entry.value.id == b.entry.value.id
    requires a.entry.value.hash.Some? && a.entry.value.hash != b.entry.value.hash
    ensures !Backed(ScannedHashes([a, b]), ScannedEntries([a, b]))
  {
    assert [a, b][..1] == [a] && [a][..0] == [];
    assert ScannedHashes([a]) == map[a.entry.value.hash.value := a.entry.value.id];
    assert a.entry.value.hash.value in ScannedHashes([a, b]);
  }

  // -- One writer ------------------------------------------------------------------------

  /** The identifier under which `compile_with` stores an entry whose content hashes to `hash`. */
  function CompiledId(hashes: Hashes, hash: Hash, near: Option<Id>, own: Id): Id {
    if hash in hashes then hashes[hash] else if near.Some? then near.value else own
  }

  /** When `compile_with` is the only writer, the map stays the inverse of the entries' hashes. */
  lemma CompileStaysExact(hashes: Hashes, entries: Entries, entry: Entry, hash: Hash)
    requires Exact(hashes, entries) && entry.hash == Some(hash)
    requires hash in hashes ==> entry.id == hashes[hash]
    ensures Exact(HashesAfterUpsert(hashes, entries, entry), entries[entry.id := entry])
  {
    var after, all := HashesAfterUpsert(hashes, entries, entry), entries[entry.id := entry];
    forall h, id
      ensures (h in after && after[h] == id) <==> (id in all && all[id].hash == Some(h))
    {
      assert (h in hashes && hashes[h] == id) <==> (id in entries && entries[id].hash == Some(h));
      assert (h in hashes && hashes[h] == entry.id) <==> (entry.id in entries && entries[entry.id].hash == Some(h));
      if hash in hashes {
        assert hashes[hash] in entries && entries[hashes[hash]].hash == Some(hash);
      }
      if id in entries && entries[id].hash == Some(hash) {
        assert hash in hashes && hashes[hash] == id;
      }
    }
  }

  // -- The store -------------------------------------------------------------------------

  class Store {
    var entries: Entries
    var index: Index
    const isSafe: Id -> bool
    var sources: map<string, string>
    var hashes: Hashes

    /** The index stands for the entries. */
    ghost predicate Valid()
      reads this, index
    {
      && index.Valid()
      && index.docs == Indexed(entries)
      && Keyed(entries)
    }

    /** What the hash map says is true. */
    ghost predicate Truthful()
      reads this
    {
      Backed(hashes, entries)
    }

    constructor (pages: seq<Page>)
      ensures Valid() && fresh(index) && isSafe == IsSafePath
      ensures entries == ScannedEntries(pages) && hashes == ScannedHashes(pages)
      ensures Complete(hashes, entries) && (Truthful() <==> HashesOutlive(pages))
    {
      isSafe := IsSafePath;
      var all, scanned, texts, found := ScanPages(pages);
      entries, index, sources, hashes := all, scanned, texts, found;
      new;
      ScannedIds(pages, "");
      ScanIsComplete(pages);
      ScanBackedExactly(pages);
    }

    /** Reloads everything when all pages parse and some text changed; otherwise leaves the store alone. */
    method ReconcileFromDisk(pages: seq<Page>) returns (changed: bool)
      requires Valid()
      modifies this
      ensures Valid() && (index == old(index) || fresh(index))
      ensures changed == (!Failures(pages) && old(sources) != Sources(pages))
      ensures (exists p :: p in pages && p.entry.None?) ==> !changed
      ensures entries == if changed then ScannedEntries(pages) else old(entries)
      ensures hashes == if changed then ScannedHashes(pages) else old(hashes)
      ensures sources == if changed then Sources(pages) else old(sources)
      ensures changed ==> Complete(hashes, entries) && (Truthful() <==> HashesOutlive(pages))
    {
      var all, scanned, texts, found := ScanPages(pages);
      if Failures(pages) {
        return false;
      }
      changed := sources != texts;
      if changed {
        ScannedIds(pages, "");
        ScanIsComplete(pages);
        ScanBackedExactly(pages);
        entries, index, sources, hashes := all, scanned, texts, found;
      }
    }

    /** The hash map makes room for `stored`: the hash given up goes, whichever entry it maps to. */
    method Rehash(stored: Entry)
      modifies `hashes
      ensures hashes == HashesAfterUpsert(old(hashes), entries, stored)
    {
      if stored.id in entries {
        var stale := entries[stored.id].hash;
        if stale.Some? && stored.hash != stale {
          hashes := hashes - {stale.value};
        }
      }
      if stored.hash.Some? {
        hashes := hashes[stored.hash.value := stored.id];
      }
    }

    /** The part of `upsert` under the write lock. */
    method Put(entry: Entry) returns (stored: Entry)
      requires Valid()
      modifies this, index
      ensures Valid() && index == old(index)
      ensures stored == Bumped(old(entries), entry)
      ensures entries == old(entries)[entry.id := stored]
          && hashes == HashesAfterUpsert(old(hashes), old(entries), stored)
    {
      stored := entry;
      if entry.id in entries {
        stored := stored.(revision := stored.revision + 1);
      }
      IndexedMore(entries, stored);
      Rehash(stored);
      index.Upsert(stored.id, stored.terms);
      entries := entries[stored.id := stored];
    }

    /** The map and the entries change first; the page is written after, and its failure undoes nothing. */
    method Upsert(entry: Entry, writes: bool) returns (result: Result<Entry, StoreError>)
      requires Valid()
      modifies this, index
      ensures Valid() && index == old(index)
      ensures old(Truthful()) ==> Truthful()
      ensures !isSafe(entry.id) ==> result == Err(UnsafeId) && entries == old(entries) && hashes == old(hashes)
      ensures isSafe(entry.id) ==>
                var stored := Bumped(old(entries), entry);
                && entries == old(entries)[entry.id := stored]
                && hashes == HashesAfterUpsert(old(hashes), old(entries), stored)
                && result == (if writes then Ok(stored) else Err(WriteFailed))
      ensures isSafe(entry.id) ==>
                entries[entry.id]
                == entry.(revision := if entry.id in old(entries) then entry.revision + 1 else entry.revision)
    {
      if !isSafe(entry.id) {
        return Err(UnsafeId);
      }
      if Truthful() {
        UpsertStaysBacked(hashes, entries, Bumped(entries, entry));
      }
      var stored := Put(entry);
      result := if writes then Ok(stored) else Err(WriteFailed);
    }

    /** The hash of the entry to delete goes, whichever entry it maps to. */
    method Unhash(id: Id)
      requires id in entries
      modifies `hashes
      ensures hashes == HashesAfterDelete(old(hashes), entries, id)
    {
      var removed := entries[id];
      if removed.hash.Some? {
        hashes := hashes - {removed.hash.value};
      }
    }

    method Delete(id: Id) returns (result: Result<(), StoreError>)
      requires Valid()
      modifies this, index
      ensures Valid() && index == old(index)
      ensures old(Truthful()) ==> Truthful()
      ensures id !in old(entries) ==> result == Err(NotFound) && entries == old(entries) && hashes == old(hashes)
      ensures id in old(entries) ==>
                result == Ok(()) && entries == old(entries) - {id}
                  && hashes == HashesAfterDelete(old(hashes), old(entries), id)
    {
      if id !in entries {
        return Err(NotFound);
      }
      if Truthful() {
        DeleteStaysBacked(hashes, entries, id);
      }
      IndexedLess(entries, id);
      Unhash(id);
      index.Remove(id);
      entries := entries - {id};
      result := Ok(());
    }

    /** The identity steps of `compile_with`: a recorded content keeps its entry, whatever the new title;
        one that is not recorded goes to the entry it is near to; only what is neither gets the draft's own
        identifier. */
    method Compile(draft: Entry, hash: Hash, near: Option<Id>, writes: bool) returns (result: Result<Entry, StoreError>)
      requires Valid()
      modifies this, index
      ensures Valid() && index == old(index)
      ensures old(Truthful()) ==> Truthful()
      ensures old(Exact(hashes, entries)) ==> Exact(hashes, entries)
      ensures hash in old(hashes) ==> StoredUnder(old(entries), entries, draft, hash, old(hashes)[hash], isSafe)
      ensures hash !in old(hashes) && near.Some? ==>
                StoredUnder(old(entries), entries, draft, hash, near.value, isSafe)
      ensures hash !in old(hashes) && near.None? ==>
                StoredUnder(old(entries), entries, draft, hash, draft.id, isSafe)
      ensures hash !in old(hashes) && near.Some? && near.value != draft.id ==>
                && (draft.id in entries <==> draft.id in old(entries))
                && (draft.id in entries ==> entries[draft.id] == old(entries)[draft.id])
                && (near.value in old(entries) ==> entries.Keys == old(entries).Keys)
      ensures var id := CompiledId(old(hashes), hash, near, draft.id);
              var stored := Bumped(old(entries), draft.(id := id, hash := Some(hash)));
              if isSafe(id) then entries == old(entries)[id := stored] && hash in hashes && hashes[hash] == id
                                 && result == (if writes then Ok(stored) else Err(WriteFailed))
              else entries == old(entries) && hashes == old(hashes) && result == Err(UnsafeId)
      ensures var id := CompiledId(old(hashes), hash, near, draft.id);
              isSafe(id) && id in old(entries) ==>
                (entries[id].revision > old(entries)[id].revision <==> draft.revision >= old(entries)[id].revision)
    {
      var entry := draft.(id := CompiledId(hashes, hash, near, draft.id), hash := Some(hash));
      if Exact(hashes, entries) {
        CompileStaysExact(hashes, entries, Bumped(entries, entry), hash);
      }
      result := Upsert(entry, writes);
    }
  }

  /** The draft is stored under `id` and no other entry changes; nothing does for an unsafe `id`. */
  ghost predicate StoredUnder(before: Entries, after: Entries, draft: Entry, hash: Hash, id: Id, isSafe: Id -> bool) {
    if isSafe(id) then
      && id in after && after == before[id := after[id]]
      && after[id].id == id && after[id].hash == Some(hash)
      && after[id].title == draft.title && after[id].terms == draft.terms
      && after[id].revision == (if id in before then draft.revision + 1 else draft.revision)
    else
      after == before
  }

  /** A revision is bumped exactly when the identifier is already there. */
  function Bumped(entries: Entries, entry: Entry): Entry {
    if entry.id in entries then entry.(revision := entry.revision + 1) else entry
  }

  /** An upsert raises the stored revision exactly when it brings one that is not behind. */
  lemma RevisionGrowsExactly(entries: Entries, entry: Entry)
    requires entry.id in entries
    ensures Bumped(entries, entry).revision > entries[entry.id].revision
        <==> entry.revision >= entries[entry.id].revision
  {
  }

  /**
   Compiling a recorded content adds no entry, whatever its new title; compiling one that is
   not recorded and near to nothing under an unused identifier adds one. The revision that is
   bumped is the draft's own: the stored one grows exactly when the draft is not behind it.
   */
  lemma RecordedContentAddsNothing(hashes: Hashes, entries: Entries, draft: Entry, hash: Hash, near: Option<Id>)
    requires Backed(hashes, entries)
    ensures var id := CompiledId(hashes, hash, near, draft.id);
            var stored := Bumped(entries, draft.(id := id, hash := Some(hash)));
            && (hash in hashes ==> entries[id := stored].Keys == entries.Keys && stored.revision == draft.revision + 1)
            && (hash in hashes ==> (stored.revision > entries[id].revision <==> draft.revision >= entries[id].revision))
            && (entries[id := stored].Keys == entries.Keys <==> id in entries)
  {
    var id := CompiledId(hashes, hash, near, draft.id);
    var stored := Bumped(entries, draft.(id := id, hash := Some(hash)));
    if id !in entries {
      assert id in entries[id := stored].Keys;
    } else {
      RevisionGrowsExactly(entries, draft.(id := id, hash := Some(hash)));
    }
  }

  /** The entries after every draft of `drafts` was upserted in turn. */
  function UpsertedAll(entries: Entries, drafts: seq<Entry>): Entries {
    if drafts == [] then entries
    else
      var before, last := UpsertedAll(entries, drafts[..|drafts| - 1]), drafts[|drafts| - 1];
      before[last.id := Bumped(before, last)]
  }

  /** Drafts of one entry, all of one revision, as repeated ingests of one content make them. */
  predicate Repeats(drafts: seq<Entry>, id: Id, revision: nat) {
    forall d | d in drafts :: d.id == id && d.revision == revision
  }

  lemma {:induction false} RepeatsSettle(entries: Entries, drafts: seq<Entry>, id: Id, revision: nat)
    requires id in entries && Repeats(drafts, id, revision)
    ensures var after := UpsertedAll(entries, drafts);
            id in after && after[id].revision == if drafts == [] then entries[id].revision else revision + 1
  {
    if drafts != [] {
      assert drafts[|drafts| - 1] in drafts;
      RepeatsSettle(entries, drafts[..|drafts| - 1], id, revision);
    }
  }

  /** The stored revision after `n` of the drafts. */
  function RevisionAfter(entries: Entries, drafts: seq<Entry>, id: Id, revision: nat, n: nat): nat
    requires id in entries && Repeats(drafts, id, revision) && n <= |drafts|
  {
    RepeatsSettle(entries, drafts[..n], id, revision);
    UpsertedAll(entries, drafts[..n])[id].revision
  }

  lemma RevisionAfterSome(entries: Entries, drafts: seq<Entry>, id: Id, revision: nat, n: nat)
    requires id in entries && Repeats(drafts, id, revision) && n <= |drafts|
    ensures RevisionAfter(entries, drafts, id, revision, n) == if n == 0 then entries[id].revision else revision + 1
  {
    RepeatsSettle(entries, drafts[..n], id, revision);
  }

  /** The revision counts each of the ingests exactly when there is none, or a single one whose draft
      carries the stored revision: from the second on it stands still. */
  lemma RevisionCountsIngests(entries: Entries, drafts: seq<Entry>, id: Id, revision: nat)
    requires id in entries && Repeats(drafts, id, revision)
    ensures (forall n | 0 <= n <= |drafts| ::
              RevisionAfter(entries, drafts, id, revision, n) == entries[id].revision + n)
       <==> drafts == [] || (|drafts| == 1 && entries[id].revision == revision)
  {
    forall n | 0 <= n <= |drafts|
      ensures RevisionAfter(entries, drafts, id, revision, n) == if n == 0 then entries[id].revision else revision + 1
    {
      RevisionAfterSome(entries, drafts, id, revision, n);
    }
    if |drafts| >= 2 {
      assert RevisionAfter(entries, drafts, id, revision, 1) == RevisionAfter(entries, drafts, id, revision, 2);
    } else if |drafts| == 1 {
      assert RevisionAfter(entries, drafts, id, revision, 1) == revision + 1;
    }
  }

  /** A draft as the compiler makes it, at revision 0, over an entry that was re-ingested before: the
      third ingest leaves revision 1, and an entry at revision 3 goes back to 1. */
  lemma RevisionGoesBack(entries: Entries, draft: Entry)
    requires draft.id in entries && draft.revision == 0
    ensures Bumped(entries, draft).revision == 1
    ensures entries[draft.id].revision == 1 ==> !(Bumped(entries, draft).revision > entries[draft.id].revision)
    ensures entries[draft.id].revision == 3 ==> Bumped(entries, draft).revision < entries[draft.id].revision
  {
    RevisionGrowsExactly(entries, draft);
  }

  /** In an exact map the recorded contents are exactly the entries' contents: none of them is ever compiled twice. */
  lemma ExactMapFindsAll(hashes: Hashes, entries: Entries, hash: Hash)
    requires Exact(hashes, entries)
    ensures hash in hashes <==> exists id :: id in entries && entries[id].hash == Some(hash)
    ensures Backed(hashes, entries) && Complete(hashes, entries)
    ensures forall a, b | a in entries && b in entries && entries[a].hash.Some?
        && entries[a].hash == entries[b].hash :: a == b
  {
    if hash in hashes {
      assert hashes[hash] in entries && entries[hashes[hash]].hash == Some(hash);
    }
    forall id | id in entries && entries[id].hash.Some?
      ensures entries[id].hash.value in hashes && hashes[entries[id].hash.value] == id
    {
    }
  }

  ghost function Indexed(entries: Entries): Documents {
    map id | id in entries :: entries[id].terms
  }

  lemma IndexedLess(entries: Entries, id: Id)
    ensures Indexed(entries - {id}) == Indexed(entries) - {id}
    ensures Keyed(entries) ==> Keyed(entries - {id})
  {
  }

  lemma IndexedMore(entries: Entries, entry: Entry)
    ensures Indexed(entries[entry.id := entry]) == Indexed(entries)[entry.id := entry.terms]
  {
  }

  /** One pass over the pages, in whatever order the walk finds them. */
  method ScanPages(pages: seq<Page>)
      returns (entries: Entries, index: Index, sources: map<string, string>, hashes: Hashes)
    ensures fresh(index) && index.Valid() && index.docs == Indexed(entries)
    ensures entries == ScannedEntries(pages) && sources == Sources(pages) && hashes == ScannedHashes(pages)
  {
    entries, sources, hashes := map[], map[], map[];
    index := new Index();
    assert pages[..0] == [];
    assert Indexed(map[]) == map[];
    for i := 0 to |pages|
      invariant fresh(index) && index.Valid() && index.docs == Indexed(entries)
      invariant entries == ScannedEntries(pages[..i]) && sources == Sources(pages[..i])
          && hashes == ScannedHashes(pages[..i])
    {
      var page := pages[i];
      assert pages[..i + 1][..i] == pages[..i];
      if page.text.Some? {
        sources := sources[page.path := page.text.value];
      }
      if page.entry.Some? {
        var entry := page.entry.value;
        IndexedMore(entries, entry);
        index.Upsert(entry.id, entry.terms);
        if entry.hash.Some? {
          hashes := hashes[entry.hash.value := entry.id];
        }
        entries := entries[entry.id := entry];
      }
    }
    assert pages[..|pages|] == pages;
  }

  /** What may happen to a store, a reload on pages as they are then. */
  datatype Change =
    | Upserts(entry: Entry, writes: bool)
    | Deletes(id: Id)
    | Compiles(ingest: Ingest)
    | Reconciles(pages: seq<Page>)

  /** Over any run in which no page on disk loses its hash to a later page of its identifier, the hash
      map stays true and the index in step. */
  method Serve(store: Store, changes: seq<Change>)
    requires store.Valid() && store.Truthful()
    requires forall c | c in changes && c.Reconciles? :: HashesOutlive(c.pages)
    modifies store, store.index
    ensures store.Valid() && store.Truthful()
  {
    for i := 0 to |changes|
      invariant store.Valid() && store.Truthful() && (store.index == old(store.index) || fresh(store.index))
    {
      assert changes[i] in changes;
      match changes[i] {
        case Upserts(entry, writes) => var _ := store.Upsert(entry, writes);
        case Deletes(id) => var _ := store.Delete(id);
        case Compiles(ingest) => var _ := store.Compile(ingest.draft, ingest.hash, ingest.near, ingest.writes);
        case Reconciles(pages) => var _ := store.ReconcileFromDisk(pages);
      }
    }
  }

  datatype Ingest = Ingest(draft: Entry, hash: Hash, near: Option<Id>, writes: bool)

  /** No entry was ever counted beyond one. */
  ghost predicate AtMostOnce(entries: Entries) {
    forall id | id in entries :: entries[id].revision <= 1
  }

  /** A store that only `compile_with` writes to: after any run its map is the inverse of its entries'
      hashes. With drafts at revision 0, as they are made, no revision ever passes 1. */
  method IngestAll(ingests: seq<Ingest>) returns (store: Store)
    ensures fresh(store) && fresh(store.index) && store.Valid() && Exact(store.hashes, store.entries)
    ensures (forall g | g in ingests :: g.draft.revision == 0) ==> AtMostOnce(store.entries)
  {
    store := new Store([]);
    for i := 0 to |ingests|
      invariant fresh(store) && fresh(store.index) && store.Valid() && Exact(store.hashes, store.entries)
      invariant (forall g | g in ingests :: g.draft.revision == 0) ==> AtMostOnce(store.entries)
    {
      assert ingests[i] in ingests;
      var _ := store.Compile(ingests[i].draft, ingests[i].hash, ingests[i].near, ingests[i].writes);
    }
  }
}
