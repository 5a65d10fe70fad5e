/**
 What holds for every run of the learning queue that respects the rules of
 `LearningQueue`, wherever it stops: nothing is lost or overwritten, all submissions of
 an id agree, and exactly when a name comes to have two records.
 */
module QueueRuns {
  import opened Basics
  import opened Json
  import opened LearningQueue
  import opened MemoryOperations

  function FollowOne(slot: Slot, e: Event): Slot {
    if e.Renamed? && e.source == slot then e.target else slot
  }

  /** Where the file that was at `slot` is after a run. */
  function Follow(slot: Slot, events: seq<Event>): Slot
    decreases |events|
  {
    if events == [] then slot else FollowOne(Follow(slot, events[..|events| - 1]), events[|events| - 1])
  }

  lemma {:induction false} InvThroughout(w: World, events: seq<Event>)
    requires Inv(w.disk) && SafeRun(w, events)
    ensures Inv(Replay(w, events).disk)
    decreases |events|
  {
    if events != [] {
      InvThroughout(w, events[..|events| - 1]);
      InvStep(Replay(w, events[..|events| - 1]), events[|events| - 1]);
    }
  }

  lemma KeptByOne(w: World, e: Event, slot: Slot)
    requires Safe(w, e) && slot in w.disk && IsMemory(slot)
    ensures var next := FollowOne(slot, e);
            && next in Apply(w, e).disk && IsMemory(next) && next.name == slot.name
            && SameRecord(w.disk[slot], Apply(w, e).disk[next])
  {
  }

  /** No memory record is ever lost: after any run, stopped anywhere, the record that was at `slot` is
      still on disk under its name, holding the same operation. */
  lemma {:induction false} NothingLost(w: World, events: seq<Event>, slot: Slot)
    requires SafeRun(w, events) && slot in w.disk && IsMemory(slot)
    ensures var end := Follow(slot, events);
            && end in Replay(w, events).disk && IsMemory(end) && end.name == slot.name
            && SameRecord(w.disk[slot], Replay(w, events).disk[end])
    decreases |events|
  {
    if events != [] {
      var before := events[..|events| - 1];
      NothingLost(w, before, slot);
      KeptByOne(Replay(w, before), events[|events| - 1], Follow(slot, before));
      SameRecordTransitive(w.disk[slot], Replay(w, before).disk[Follow(slot, before)],
        Replay(w, events).disk[Follow(slot, events)]);
    }
  }

  /** No memory record is ever overwritten by another: two records stay two. */
  lemma {:induction false} NothingOverwritten(w: World, events: seq<Event>, slot: Slot, other: Slot)
    requires SafeRun(w, events) && slot in w.disk && other in w.disk && IsMemory(slot) && IsMemory(other)
    ensures Follow(slot, events) == Follow(other, events) ==> slot == other
    decreases |events|
  {
    if events != [] {
      var before := events[..|events| - 1];
      NothingOverwritten(w, before, slot, other);
      NothingLost(w, before, slot);
      NothingLost(w, before, other);
    }
  }

  /** No name has live records in two directories. */
  ghost predicate OneDirPerName(d: Disk) {
    forall name, dir, dir' | Record(dir, name) in d && Record(dir', name) in d :: dir == dir'
  }

  /** If the event creates a record, no directory had one of its name. */
  ghost predicate CreatesFresh(w: World, e: Event) {
    e.Wrote? && e.slot.Record? && e.slot !in w.disk ==> Absent(w.disk, e.slot.name)
  }

  lemma OneDirPerNameStep(w: World, e: Event)
    requires Safe(w, e) && OneDirPerName(w.disk)
    ensures OneDirPerName(Apply(w, e).disk) <==> CreatesFresh(w, e)
  {
    if e.Wrote? && e.slot.Record? && e.slot !in w.disk && !Absent(w.disk, e.slot.name) {
      var dir :| Record(dir, e.slot.name) in w.disk;
      assert Record(dir, e.slot.name) in Apply(w, e).disk && e.slot in Apply(w, e).disk;
    }
  }

  lemma SafeAt(w: World, events: seq<Event>, i: nat)
    requires SafeRun(w, events) && i < |events|
    ensures Safe(Replay(w, events[..i]), events[i])
    ensures SafeRun(w, events[..i]) && Replay(w, events[..i + 1]) == Apply(Replay(w, events[..i]), events[i])
  {
    SafePrefix(w, events, i + 1);
    assert events[..i + 1][..i] == events[..i];
  }

  /** The part of a run after its first `i` events, replayed from where they left off. */
  lemma {:induction false} Resume(w: World, events: seq<Event>, i: nat, j: nat)
    requires SafeRun(w, events) && i <= j <= |events|
    ensures SafeRun(Replay(w, events[..i]), events[i..j])
    ensures Replay(Replay(w, events[..i]), events[i..j]) == Replay(w, events[..j])
    decreases j
  {
    if i < j {
      Resume(w, events, i, j - 1);
      SafeAt(w, events, j - 1);
      SliceLast(events, i, j);
      SafeSnoc(Replay(w, events[..i]), events[i..j - 1], events[j - 1]);
    } else {
      assert events[i..j] == [];
    }
  }

  /** The disk after the first `k` events. */
  ghost function DiskAt(w: World, events: seq<Event>, k: nat): Disk
    requires k <= |events|
  {
    Replay(w, events[..k]).disk
  }

  ghost predicate FreshAt(w: World, events: seq<Event>, i: nat)
    requires i < |events|
  {
    CreatesFresh(Replay(w, events[..i]), events[i])
  }

  ghost predicate OneDirAt(w: World, events: seq<Event>, k: nat)
    requires k <= |events|
  {
    OneDirPerName(DiskAt(w, events, k))
  }

  ghost predicate FreshAlways(w: World, events: seq<Event>) {
    forall i | 0 <= i < |events| :: FreshAt(w, events, i)
  }

  ghost predicate OneDirAlways(w: World, events: seq<Event>) {
    forall k | 0 <= k <= |events| :: OneDirAt(w, events, k)
  }

  lemma {:induction false} OneDirUntil(w: World, events: seq<Event>, k: nat)
    requires SafeRun(w, events) && OneDirPerName(w.disk) && k <= |events|
    requires forall i | 0 <= i < k :: FreshAt(w, events, i)
    ensures OneDirAt(w, events, k)
  {
    if k > 0 {
      OneDirUntil(w, events, k - 1);
      SafeAt(w, events, k - 1);
      assert FreshAt(w, events, k - 1);
      OneDirPerNameStep(Replay(w, events[..k - 1]), events[k - 1]);
    }
  }

  /** A queue in which each name has one live record stays so throughout a run exactly when no event
      creates a record of a name that has one: an operation is in one state at a time. */
  lemma OneDirPerNameThroughout(w: World, events: seq<Event>)
    requires SafeRun(w, events) && OneDirPerName(w.disk)
    ensures OneDirAlways(w, events) <==> FreshAlways(w, events)
  {
    if FreshAlways(w, events) {
      forall k | 0 <= k <= |events|
        ensures OneDirAt(w, events, k)
      {
        OneDirUntil(w, events, k);
      }
    }
    if OneDirAlways(w, events) {
      forall i | 0 <= i < |events|
        ensures FreshAt(w, events, i)
      {
        assert OneDirAt(w, events, i) && OneDirAt(w, events, i + 1);
        SafeAt(w, events, i);
        OneDirPerNameStep(Replay(w, events[..i]), events[i]);
      }
    }
  }

  // -- Submissions ------------------------------------------------------------

  lemma SameRecordSameRequest(before: File, after: File)
    requires SameRecord(before, after) && before.Stored? && Bound(before.op) && after.Stored? && Bound(after.op)
    ensures RequestOf(before.op) == RequestOf(after.op)
  {
    if before != after {
      var p :| NormalizePayload(before.op.kind, before.op.arguments, p) == Ok(after.op.arguments);
      NormalizationSettles(before.op.kind, before.op.arguments, p, p);
    }
  }

  /** Every submission ever sent for a record, across crashes, restarts and changes of environment,
      carries the same operation id, payload and hash. */
  lemma SubmissionsAgree(w: World, events: seq<Event>, i: nat, j: nat)
    requires SafeRun(w, events) && i < j < |events|
    requires events[i].Submitted? && events[j].Submitted?
    requires Follow(events[i].from, events[i..j]) == events[j].from
    ensures events[i].request == events[j].request
  {
    SafeAt(w, events, i);
    SafeAt(w, events, j);
    Resume(w, events, i, j);
    NothingLost(Replay(w, events[..i]), events[i..j], events[i].from);
    SameRecordSameRequest(Replay(w, events[..i]).disk[events[i].from], Replay(w, events[..j]).disk[events[j].from]);
  }

  /** Records are stored under their operation's id. */
  ghost predicate Titled(d: Disk) {
    forall dir, name | Record(dir, name) in d && d[Record(dir, name)].Stored? ::
        d[Record(dir, name)].op.operationId == name
  }

  lemma TitledStep(w: World, e: Event)
    requires Safe(w, e) && Titled(w.disk)
    ensures Titled(Apply(w, e).disk)
  {
  }

  /** Where each name has one live record, no record is moved aside: it stays live. */
  lemma LiveStep(w: World, e: Event, slot: Slot)
    requires Safe(w, e) && OneDirPerName(w.disk) && slot in w.disk && slot.Record?
    ensures FollowOne(slot, e).Record?
  {
  }

  lemma {:induction false} TitledAt(w: World, events: seq<Event>, k: nat)
    requires SafeRun(w, events) && Titled(w.disk) && k <= |events|
    ensures Titled(DiskAt(w, events, k))
  {
    if k > 0 {
      TitledAt(w, events, k - 1);
      SafeAt(w, events, k - 1);
      TitledStep(Replay(w, events[..k - 1]), events[k - 1]);
    }
  }

  lemma {:induction false} StaysLive(w: World, events: seq<Event>, slot: Slot)
    requires SafeRun(w, events) && slot in w.disk && slot.Record?
    requires forall k | 0 <= k < |events| :: OneDirAt(w, events, k)
    ensures Follow(slot, events).Record?
    decreases |events|
  {
    if events != [] {
      var n := |events| - 1;
      var before := events[..n];
      forall k | 0 <= k < n
        ensures OneDirAt(w, before, k)
      {
        assert OneDirAt(w, events, k) && before[..k] == events[..k];
      }
      StaysLive(w, before, slot);
      NothingLost(w, before, slot);
      assert OneDirAt(w, events, n);
      LiveStep(Replay(w, before), events[n], Follow(slot, before));
    }
  }

  lemma ResumedDisk(w: World, events: seq<Event>, i: nat, j: nat, k: nat)
    requires SafeRun(w, events) && i + k <= j <= |events|
    ensures k <= |events[i..j]| && DiskAt(Replay(w, events[..i]), events[i..j], k) == DiskAt(w, events, i + k)
  {
    Resume(w, events, i, i + k);
    SliceOfSlice(events, i, j, k);
  }

  /** Two submissions of one id, whatever was sent, lost or landed late in between and from whatever
      slot: they carry the same request, as long as a name has one live record. */
  lemma SameIdSameRequest(w: World, events: seq<Event>, i: nat, j: nat)
    requires SafeRun(w, events) && i < j < |events| && Titled(w.disk)
    requires OneDirAlways(w, events)
    requires events[i].Submitted? && events[j].Submitted?
        && events[i].request.operationId == events[j].request.operationId
    ensures events[i].request == events[j].request
  {
    SubmittedFrom(w, events, i);
    SubmittedFrom(w, events, j);
    Resume(w, events, i, j);
    var mid, between := Replay(w, events[..i]), events[i..j];
    forall k | 0 <= k < |between|
      ensures OneDirAt(mid, between, k)
    {
      assert OneDirAt(w, events, i + k);
      ResumedDisk(w, events, i, j, k);
    }
    StaysLive(mid, between, events[i].from);
    NothingLost(mid, between, events[i].from);
    assert OneDirAt(w, events, j);
    SubmissionsAgree(w, events, i, j);
  }

  /** A submission is of the live record that has its id for a name. */
  lemma SubmittedFrom(w: World, events: seq<Event>, i: nat)
    requires SafeRun(w, events) && i < |events| && events[i].Submitted? && Titled(w.disk)
    ensures events[i].from.Record? && events[i].from in DiskAt(w, events, i)
    ensures events[i].from.name == events[i].request.operationId
  {
    SafeAt(w, events, i);
    TitledAt(w, events, i);
    assert events[i].from == Record(events[i].from.dir, events[i].from.name);
  }

  ghost function LedgerAt(w: World, events: seq<Event>, k: nat): map<string, Receipt>
    requires k <= |events|
  {
    Replay(w, events[..k]).ledger
  }

  lemma {:induction false} LedgerGrows(w: World, events: seq<Event>, i: nat, j: nat)
    requires i <= j <= |events|
    ensures LedgerAt(w, events, i).Keys <= LedgerAt(w, events, j).Keys
  {
    if i < j {
      LedgerGrows(w, events, i, j - 1);
      assert events[..j][..j - 1] == events[..j - 1];
    }
  }

  /** All submissions of an id are the same request. */
  ghost predicate SubmissionsOfAnIdAgree(events: seq<Event>) {
    forall i, j | 0 <= i < j < |events| && events[i].Submitted? && events[j].Submitted?
      && events[i].request.operationId == events[j].request.operationId :: events[i].request == events[j].request
  }

  /** The event opens `id` in the ledger: a submission that gets there, at once or late. */
  ghost predicate OpensId(e: Event, id: string) {
    (e.Submitted? && e.landed.Some? && e.request.operationId == id) || (e.Landed? && e.id == id)
  }

  lemma NotOpened(w: World, events: seq<Event>, i: nat, j: nat, id: string)
    requires i < j <= |events| && id !in LedgerAt(w, events, j)
    ensures !OpensId(events[i], id)
  {
    LedgerGrows(w, events, i + 1, j);
    assert events[..i + 1][..i] == events[..i];
  }

  /** The requests a run sent. */
  ghost function Sent(events: seq<Event>): seq<Request>
    decreases |events|
  {
    if events == [] then []
    else Sent(events[..|events| - 1]) + SentBy(events[|events| - 1])
  }

  ghost function SentBy(e: Event): seq<Request> {
    if e.Submitted? then [e.request] else []
  }

  lemma SentSnoc(events: seq<Event>, e: Event)
    ensures Sent(events + [e]) == Sent(events) + SentBy(e)
  {
    assert (events + [e])[..|events|] == events;
  }

  lemma {:induction false} SentGrows(events: seq<Event>, i: nat, j: nat)
    requires i <= j <= |events|
    ensures |Sent(events[..i])| <= |Sent(events[..j])|
  {
    if i < j {
      SentGrows(events, i, j - 1);
      assert events[..j][..j - 1] == events[..j - 1];
    }
  }

  lemma SentSince(events: seq<Event>, k: nat, i: nat, j: nat)
    requires k <= i < j <= |events| && events[i].Submitted?
    ensures Sent(events[..k]) != Sent(events[..j])
  {
    SentGrows(events, k, i);
    SentGrows(events, i + 1, j);
    assert events[..i + 1][..i] == events[..i];
  }

  /** At moment `k` the ledger lacked the id that event `j` submits, and nothing was submitted since. */
  ghost predicate LookedUpAt(w: World, events: seq<Event>, k: nat, j: nat)
    requires k <= j < |events| && events[j].Submitted?
  {
    events[j].request.operationId !in LedgerAt(w, events, k) && Sent(events[..k]) == Sent(events[..j])
  }

  ghost predicate LookedUp(w: World, events: seq<Event>, j: nat)
    requires j < |events| && events[j].Submitted?
  {
    exists k: nat :: k <= j && LookedUpAt(w, events, k, j)
  }

  /** Before each submission the ledger was looked up. */
  ghost predicate Careful(w: World, events: seq<Event>) {
    forall j: nat | j < |events| && events[j].Submitted? :: LookedUp(w, events, j)
  }

  /** A request for `id` lands late between moments `k` and `j`. */
  ghost predicate LandsBetween(events: seq<Event>, k: nat, j: nat, id: string) {
    exists m: nat :: k <= m < j <= |events| && LandsAs(events[m], id)
  }

  ghost predicate LandsAs(e: Event, id: string) {
    e.Landed? && e.id == id
  }

  lemma LandsBetweenStep(events: seq<Event>, k: nat, j: nat, id: string)
    requires k < j <= |events|
    ensures LandsBetween(events, k, j, id) <==> LandsBetween(events, k, j - 1, id) || LandsAs(events[j - 1], id)
  {
  }

  lemma OpenedByOne(w: World, e: Event, id: string)
    requires Safe(w, e) && !e.Submitted?
    ensures id in Apply(w, e).ledger <==> id in w.ledger || LandsAs(e, id)
  {
  }

  /** While nothing is submitted, only a late landing opens an id. */
  lemma {:induction false} OpenedByLanding(w: World, events: seq<Event>, k: nat, j: nat, id: string)
    requires SafeRun(w, events) && k <= j <= |events| && id !in LedgerAt(w, events, k)
    requires forall m: nat | k <= m < j :: !events[m].Submitted?
    ensures id in LedgerAt(w, events, j) <==> LandsBetween(events, k, j, id)
  {
    if k < j {
      OpenedByLanding(w, events, k, j - 1, id);
      SafeAt(w, events, j - 1);
      OpenedByOne(Replay(w, events[..j - 1]), events[j - 1], id);
      LandsBetweenStep(events, k, j, id);
    }
  }

  /** At moment `k` the ledger lacks the id that event `j` submits, and it still does at the submission
      unless in between a request for it lands late. */
  ghost predicate AbsentUnlessLanded(w: World, events: seq<Event>, k: nat, j: nat)
    requires k <= j < |events| && events[j].Submitted?
  {
    var id := events[j].request.operationId;
    && id !in LedgerAt(w, events, k)
    && (id in LedgerAt(w, events, j) <==> LandsBetween(events, k, j, id))
  }

  /** The worker submits an id only while the ledger lacks it, except exactly when a request for it that
      was sent earlier lands between the lookup and the submission. */
  lemma SubmittedOnlyWhileAbsent(w: World, events: seq<Event>, j: nat) returns (k: nat)
    requires SafeRun(w, events) && Careful(w, events) && j < |events| && events[j].Submitted?
    ensures k <= j && AbsentUnlessLanded(w, events, k, j)
  {
    assert LookedUp(w, events, j);
    k :| k <= j && LookedUpAt(w, events, k, j);
    forall m: nat | k <= m < j
      ensures !events[m].Submitted?
    {
      if events[m].Submitted? {
        SentSince(events, k, m, j);
      }
    }
    OpenedByLanding(w, events, k, j, events[j].request.operationId);
  }

  /** Every submission of the run is of an id that the ledger lacks, unless a request lands in between. */
  ghost predicate SubmitsOnlyWhileAbsent(w: World, events: seq<Event>) {
    forall j: nat | j < |events| && events[j].Submitted? ::
      exists k: nat :: k <= j && AbsentUnlessLanded(w, events, k, j)
  }

  lemma AllSubmittedWhileAbsent(w: World, events: seq<Event>)
    requires SafeRun(w, events) && Careful(w, events)
    ensures SubmitsOnlyWhileAbsent(w, events)
    ensures (forall m: nat | m < |events| :: !events[m].Landed?) ==>
              forall j: nat | j < |events| && events[j].Submitted? ::
                events[j].request.operationId !in LedgerAt(w, events, j)
  {
    forall j: nat | j < |events| && events[j].Submitted?
      ensures exists k: nat :: k <= j && AbsentUnlessLanded(w, events, k, j)
      ensures (forall m: nat | m < |events| :: !events[m].Landed?) ==>
                events[j].request.operationId !in LedgerAt(w, events, j)
    {
      var k := SubmittedOnlyWhileAbsent(w, events, j);
    }
  }

  /** If `e` is a submission, the ledger was seen to lack its id, and nothing was submitted since. */
  ghost predicate MaySend(w: World, events: seq<Event>, e: Event) {
    e.Submitted? ==> exists k: nat :: k <= |events| && MaySendSince(w, events, k, e)
  }

  ghost predicate MaySendSince(w: World, events: seq<Event>, k: nat, e: Event)
    requires k <= |events| && e.Submitted?
  {
    e.request.operationId !in LedgerAt(w, events, k) && Sent(events[..k]) == Sent(events)
  }

  lemma LookedUpSame(w: World, events: seq<Event>, others: seq<Event>, j: nat)
    requires j < |events| && j < |others| && events[j].Submitted? && LookedUp(w, events, j)
    requires events[j] == others[j] && events[..j] == others[..j]
    ensures LookedUp(w, others, j)
  {
    var k: nat :| k <= j && LookedUpAt(w, events, k, j);
    assert others[..k] == others[..j][..k] && events[..k] == events[..j][..k];
    assert LookedUpAt(w, others, k, j);
  }

  lemma CarefulSnoc(w: World, events: seq<Event>, e: Event)
    requires Careful(w, events) && MaySend(w, events, e)
    ensures Careful(w, events + [e])
  {
    var all := events + [e];
    assert all[..|events|] == events;
    forall j: nat | j < |all| && all[j].Submitted?
      ensures LookedUp(w, all, j)
    {
      if j < |events| {
        LookedUpSame(w, events, all, j);
      } else {
        var k: nat :| k <= |events| && MaySendSince(w, events, k, e);
        assert all[..k] == events[..k];
        assert LookedUpAt(w, all, k, j);
      }
    }
  }

  lemma CarefulPrefix(w: World, events: seq<Event>, n: nat)
    requires Careful(w, events) && n <= |events|
    ensures Careful(w, events[..n])
  {
    var part := events[..n];
    forall j: nat | j < n && part[j].Submitted?
      ensures LookedUp(w, part, j)
    {
      assert part[..j] == events[..j];
      LookedUpSame(w, events, part, j);
    }
  }

  /** An id is submitted again only if the earlier submission had not landed when the ledger was looked
      up for the later one: late landings are the only way to a second submission of an opened id. */
  lemma ResubmittedOnlyIfNotLanded(w: World, events: seq<Event>, i: nat, j: nat) returns (k: nat)
    requires Careful(w, events) && i < j < |events| && events[i].Submitted? && events[j].Submitted?
    requires events[i].request.operationId == events[j].request.operationId
    ensures i < k <= j && events[j].request.operationId !in LedgerAt(w, events, k)
    ensures events[i].landed.None?
    ensures forall m: nat | m < k :: !OpensId(events[m], events[j].request.operationId)
  {
    assert LookedUp(w, events, j);
    k :| k <= j && LookedUpAt(w, events, k, j);
    if k <= i {
      SentSince(events, k, i, j);
    }
    forall m: nat | m < k
      ensures !OpensId(events[m], events[j].request.operationId)
    {
      NotOpened(w, events, m, k, events[j].request.operationId);
    }
    assert !OpensId(events[i], events[j].request.operationId);
  }

  // -- Polls ------------------------------------------------------------------

  ghost predicate PacedRun(w: World, events: seq<Event>) {
    forall j: nat | j < |events| :: PacedEvent(DiskAt(w, events, j), events[j])
  }

  lemma PacedSnoc(w: World, events: seq<Event>, e: Event)
    requires PacedRun(w, events) && PacedEvent(Replay(w, events).disk, e)
    ensures PacedRun(w, events + [e])
  {
    var all := events + [e];
    assert all[..|events|] == events;
    forall j: nat | j < |all|
      ensures PacedEvent(DiskAt(w, all, j), all[j])
    {
      if j < |events| {
        assert all[..j] == events[..j] && PacedEvent(DiskAt(w, events, j), events[j]);
      }
    }
  }

  lemma PacedPrefix(w: World, events: seq<Event>, n: nat)
    requires PacedRun(w, events) && n <= |events|
    ensures PacedRun(w, events[..n])
  {
    forall j: nat | j < n
      ensures PacedEvent(DiskAt(w, events[..n], j), events[..n][j])
    {
      assert events[..n][..j] == events[..j] && PacedEvent(DiskAt(w, events, j), events[j]);
    }
  }

  /** The accepted record of this name waits for its next poll. */
  predicate WaitsAt(d: Disk, name: string) {
    var slot := Record(Accepted, name);
    slot in d && d[slot].Stored? && Waits(d[slot].op)
  }

  /** From moment `i` to moment `j` it does all the time: no receipt changes it and no command moves it. */
  ghost predicate WaitsThroughout(w: World, events: seq<Event>, name: string, i: nat, j: nat)
    requires i <= j <= |events|
  {
    forall m: nat | i <= m <= j :: WaitsAt(DiskAt(w, events, m), name)
  }

  /** What was in the record at each of these moments. */
  ghost function Contents(w: World, events: seq<Event>, name: string, i: nat, j: nat): (ops: seq<MemoryOperation>)
    requires i <= j <= |events| && WaitsThroughout(w, events, name, i, j)
    ensures |ops| == j - i + 1
    ensures forall m: nat | m < |ops| ::
              WaitsAt(DiskAt(w, events, i + m), name) && ops[m] == DiskAt(w, events, i + m)[Record(Accepted, name)].op
  {
    seq(j - i + 1, m requires 0 <= m <= j - i => DiskAt(w, events, i + m)[Record(Accepted, name)].op)
  }

  lemma PacedByOne(w: World, e: Event, name: string)
    requires Safe(w, e) && PacedEvent(w.disk, e) && WaitsAt(w.disk, name) && WaitsAt(Apply(w, e).disk, name)
    ensures Paced(w.disk[Record(Accepted, name)].op, Apply(w, e).disk[Record(Accepted, name)].op)
  {
  }

  lemma ContentsArePaced(w: World, events: seq<Event>, name: string, i: nat, j: nat)
    requires SafeRun(w, events) && PacedRun(w, events)
    requires i <= j <= |events| && WaitsThroughout(w, events, name, i, j)
    ensures PacedSeq(Contents(w, events, name, i, j))
  {
    var ops := Contents(w, events, name, i, j);
    forall m | 0 < m < |ops|
      ensures Paced(ops[m - 1], ops[m])
    {
      var k := i + m - 1;
      assert WaitsAt(DiskAt(w, events, k), name) && WaitsAt(DiskAt(w, events, k + 1), name);
      assert PacedEvent(DiskAt(w, events, k), events[k]);
      SafeAt(w, events, k);
      PacedByOne(Replay(w, events[..k]), events[k], name);
    }
  }

  /** While an accepted record only waits, the unchanged polls that a run gives it are bounded by the
      time from the first to the last of them: six, and one more for every whole hour. */
  ghost predicate PollsBounded(w: World, events: seq<Event>) {
    forall name, i: nat, j: nat | i <= j <= |events| && WaitsThroughout(w, events, name, i, j) ::
      FewPolls(Contents(w, events, name, i, j))
  }

  lemma PollsOfRunBounded(w: World, events: seq<Event>)
    requires SafeRun(w, events) && PacedRun(w, events)
    ensures PollsBounded(w, events)
  {
    forall name, i: nat, j: nat | i <= j <= |events| && WaitsThroughout(w, events, name, i, j)
      ensures FewPolls(Contents(w, events, name, i, j))
    {
      ContentsArePaced(w, events, name, i, j);
      PacedSeqSpreads(Contents(w, events, name, i, j));
    }
  }

  // -- What a process keeps ---------------------------------------------------

  /** `w` is where a run from `origin` has led that kept all rules. */
  ghost predicate Sound(origin: World, events: seq<Event>, w: World) {
    && w == Replay(origin, events)
    && SafeRun(origin, events) && Careful(origin, events) && PacedRun(origin, events)
    && Inv(w.disk)
  }

  lemma SoundOn(origin: World, events: seq<Event>, w: World, e: Event)
    requires Sound(origin, events, w) && Safe(w, e) && MaySend(origin, events, e) && PacedEvent(w.disk, e)
    ensures Sound(origin, events + [e], Apply(w, e))
    ensures Sent(events + [e]) == Sent(events) + SentBy(e)
  {
    SafeSnoc(origin, events, e);
    CarefulSnoc(origin, events, e);
    PacedSnoc(origin, events, e);
    InvStep(w, e);
    SentSnoc(events, e);
  }

  lemma SoundPrefix(origin: World, events: seq<Event>, w: World, n: nat)
    requires Sound(origin, events, w) && n <= |events| && Inv(origin.disk)
    ensures Sound(origin, events[..n], Replay(origin, events[..n]))
  {
    SafePrefix(origin, events, n);
    CarefulPrefix(origin, events, n);
    PacedPrefix(origin, events, n);
    InvThroughout(origin, events[..n]);
  }

  // -- Jobs -------------------------------------------------------------------

  lemma {:induction false} PagesStay(w: World, events: seq<Event>, slot: Slot)
    requires SafeRun(w, events) && slot in w.disk && slot.WikiPage?
    ensures slot in Replay(w, events).disk
    decreases |events|
  {
    if events != [] {
      PagesStay(w, events[..|events| - 1], slot);
    }
  }

  lemma {:induction false} StaysPresent(w: World, events: seq<Event>, i: nat, j: nat, name: string)
    requires SafeRun(w, events) && i <= j <= |events| && !Absent(DiskAt(w, events, i), name)
    ensures !Absent(DiskAt(w, events, j), name)
  {
    if i < j {
      StaysPresent(w, events, i, j - 1, name);
      SafeAt(w, events, j - 1);
      PresentAfterOne(Replay(w, events[..j - 1]), events[j - 1], name);
    }
  }

  lemma PresentAfterOne(w: World, e: Event, name: string)
    requires Safe(w, e) && !Absent(w.disk, name)
    ensures !Absent(Apply(w, e).disk, name)
  {
    var dir :| Record(dir, name) in w.disk;
    if e.Renamed? && e.source == Record(dir, name) {
      if e.target.PreservedRecord? {
        var other :| other != dir && Record(other, name) in w.disk;
        assert Record(other, name) in Apply(w, e).disk;
      } else {
        assert Record(e.target.dir, name) in Apply(w, e).disk;
      }
    } else {
      assert Record(dir, name) in Apply(w, e).disk;
    }
  }

  /** Event `i` creates a memory record named `name`. */
  ghost predicate CreatesRecord(w: World, events: seq<Event>, i: nat, name: string)
    requires i < |events|
  {
    events[i].Wrote? && IsMemory(events[i].slot) && events[i].slot.name == name
      && events[i].slot !in DiskAt(w, events, i)
  }

  lemma CreatedIsPresent(w: World, events: seq<Event>, i: nat, name: string)
    requires SafeRun(w, events) && i < |events| && CreatesRecord(w, events, i, name)
    ensures !Absent(DiskAt(w, events, i + 1), name)
    ensures Absent(DiskAt(w, events, i), name) || RepeatEnqueues(DiskAt(w, events, i), name)
  {
    SafeAt(w, events, i);
    assert Record(Pending, name) in DiskAt(w, events, i + 1);
  }

  lemma AppearsByWrite(w: World, e: Event, name: string)
    requires Safe(w, e) && Absent(w.disk, name) && !Absent(Apply(w, e).disk, name)
    ensures e.Wrote? && e.slot == Record(Pending, name) && e.slot !in w.disk
  {
    var dir :| Record(dir, name) in Apply(w, e).disk;
  }

  /** A name that comes to have a record got it by an event that created it. */
  lemma {:induction false} FirstCreation(w: World, events: seq<Event>, n: nat, name: string) returns (i: nat)
    requires SafeRun(w, events) && n <= |events| && Absent(w.disk, name) && !Absent(DiskAt(w, events, n), name)
    ensures i < n && CreatesRecord(w, events, i, name)
  {
    assert events[..0] == [];
    if Absent(DiskAt(w, events, n - 1), name) {
      i := n - 1;
      SafeAt(w, events, i);
      AppearsByWrite(Replay(w, events[..i]), events[i], name);
    } else {
      i := FirstCreation(w, events, n - 1, name);
    }
  }

  ghost predicate CreatedTwice(w: World, events: seq<Event>, name: string) {
    exists i: nat, j: nat :: i < j < |events| && CreatesRecord(w, events, i, name) && CreatesRecord(w, events, j, name)
  }

  ghost predicate CreatedAgain(w: World, events: seq<Event>, j: nat, name: string)
    requires j < |events|
  {
    CreatesRecord(w, events, j, name) && !Absent(DiskAt(w, events, j), name)
  }

  /** However often jobs are processed again after crashes, at most one event of a run creates a record
      of a name, and none does when the run starts with one, exactly if no event creates one while
      some directory holds another. */
  lemma CreatedAtMostOnce(w: World, events: seq<Event>, name: string)
    requires SafeRun(w, events)
    ensures CreatedTwice(w, events, name) || (!Absent(w.disk, name) && exists i: nat ::
        i < |events| && CreatesRecord(w, events, i, name))
       <==> exists j: nat :: j < |events| && CreatedAgain(w, events, j, name)
  {
    if CreatedTwice(w, events, name) {
      var i: nat, j: nat :| i < j < |events| && CreatesRecord(w, events, i, name) && CreatesRecord(w, events, j, name);
      CreatedIsPresent(w, events, i, name);
      StaysPresent(w, events, i + 1, j, name);
      assert CreatedAgain(w, events, j, name);
    } else if i: nat :| i < |events| && CreatesRecord(w, events, i, name) && !Absent(w.disk, name) {
      assert events[..0] == [];
      StaysPresent(w, events, 0, i, name);
      assert CreatedAgain(w, events, i, name);
    }
    if j: nat :| j < |events| && CreatedAgain(w, events, j, name) {
      if Absent(w.disk, name) {
        var i := FirstCreation(w, events, j, name);
      }
    }
  }

  /** No job of this event was published while the queue had a record of it or another job for it. */
  ghost predicate NoRepeat(d: Disk, name: string) {
    forall slot | slot in d && d[slot].JobFile? && d[slot].repeat :: d[slot].job.eventId != name
  }

  ghost predicate PublishesRepeat(e: Event, name: string) {
    e.Wrote? && e.file.JobFile? && e.file.repeat && e.file.job.eventId == name
  }

  ghost predicate NoRepeatEver(w: World, events: seq<Event>, name: string) {
    NoRepeat(w.disk, name) && forall i | 0 <= i < |events| :: !PublishesRepeat(events[i], name)
  }

  lemma {:induction false} NoRepeatStays(w: World, events: seq<Event>, k: nat, name: string)
    requires k <= |events| && NoRepeat(w.disk, name) && forall i | 0 <= i < k :: !PublishesRepeat(events[i], name)
    ensures NoRepeat(DiskAt(w, events, k), name)
  {
    if k > 0 {
      NoRepeatStays(w, events, k - 1, name);
      assert events[..k][..k - 1] == events[..k - 1];
      assert !PublishesRepeat(events[k - 1], name);
    }
  }

  /** An event whose jobs were all published when it was new to the queue gets one record at most,
      however often its jobs are processed, interrupted and processed again. */
  lemma NewEventsCreateOnce(w: World, events: seq<Event>, name: string)
    requires SafeRun(w, events) && NoRepeatEver(w, events, name)
    ensures !CreatedTwice(w, events, name)
    ensures !Absent(w.disk, name) ==> forall i: nat | i < |events| :: !CreatesRecord(w, events, i, name)
  {
    CreatedAtMostOnce(w, events, name);
    forall j: nat | j < |events|
      ensures !CreatedAgain(w, events, j, name)
    {
      if CreatesRecord(w, events, j, name) {
        CreatedIsPresent(w, events, j, name);
        NoRepeatStays(w, events, j, name);
      }
    }
  }

  // -- The laws together ------------------------------------------------------

  /** `NothingLost` and `NothingOverwritten` for all records at once. */
  lemma RecordsKept(w: World, events: seq<Event>)
    requires SafeRun(w, events)
    ensures forall slot | slot in w.disk && IsMemory(slot) ::
              var end := Follow(slot, events);
              && end in Replay(w, events).disk && IsMemory(end) && end.name == slot.name
              && SameRecord(w.disk[slot], Replay(w, events).disk[end])
    ensures forall slot, other | slot in w.disk && other in w.disk && IsMemory(slot) && IsMemory(other)
        && slot != other ::
              Follow(slot, events) != Follow(other, events)
  {
    forall slot | slot in w.disk && IsMemory(slot)
      ensures var end := Follow(slot, events);
              && end in Replay(w, events).disk && IsMemory(end) && end.name == slot.name
              && SameRecord(w.disk[slot], Replay(w, events).disk[end])
    {
      NothingLost(w, events, slot);
    }
    forall slot, other | slot in w.disk && other in w.disk && IsMemory(slot) && IsMemory(other) && slot != other
      ensures Follow(slot, events) != Follow(other, events)
    {
      NothingOverwritten(w, events, slot, other);
    }
  }

  lemma OneRecordEach(w: World, events: seq<Event>)
    requires SafeRun(w, events)
    ensures OneDirPerName(w.disk) ==> (OneDirAlways(w, events) <==> FreshAlways(w, events))
    ensures Titled(w.disk) && OneDirPerName(w.disk) && FreshAlways(w, events) ==> SubmissionsOfAnIdAgree(events)
    ensures forall name | NoRepeatEver(w, events, name) :: !CreatedTwice(w, events, name)
  {
    if OneDirPerName(w.disk) {
      OneDirPerNameThroughout(w, events);
      if Titled(w.disk) && FreshAlways(w, events) {
        forall i, j | 0 <= i < j < |events| && events[i].Submitted? && events[j].Submitted?
          && events[i].request.operationId == events[j].request.operationId
          ensures events[i].request == events[j].request
        {
          SameIdSameRequest(w, events, i, j);
        }
      }
    }
    forall name | NoRepeatEver(w, events, name)
      ensures !CreatedTwice(w, events, name)
    {
      NewEventsCreateOnce(w, events, name);
    }
  }

  // -- What `enqueue_memory` looks at -----------------------------------------

  /** The disk after `enqueue_memory` for a job of event `id`: it looks in `pending` and `completed`. */
  function Enqueued(d: Disk, id: string, operation: MemoryOperation): Disk {
    if Record(Pending, id) in d || Record(Completed, id) in d then d else d[Record(Pending, id) := Stored(operation)]
  }

  /** Enqueueing gives an event a second live record exactly when its record is in one of the six
      directories that are not looked at, and in neither of the two that are. */
  lemma SecondRecordExactly(d: Disk, id: string, operation: MemoryOperation)
    ensures Enqueued(d, id, operation) != d && !Absent(d, id)
       <==> && Record(Pending, id) !in d && Record(Completed, id) !in d
            && exists dir :: dir in {Submitting, Accepted, Retry, Rejected, DeadLetter, Stalled} && Record(dir, id) in d
    ensures OneDirPerName(d) ==>
              (OneDirPerName(Enqueued(d, id, operation)) <==> Enqueued(d, id, operation) == d || Absent(d, id))
  {
    var after := Enqueued(d, id, operation);
    if !Absent(d, id) {
      var dir :| Record(dir, id) in d;
      if after != d {
        assert Record(dir, id) in after && Record(Pending, id) in after;
        assert dir.Submitting? || dir.Accepted? || dir.Retry? || dir.Rejected? || dir.DeadLetter? || dir.Stalled?;
      }
    }
    if Record(Pending, id) !in d && Record(Completed, id) !in d {
      assert Record(Pending, id) in after;
    }
  }

  /** The failing input: the event's record is in `accepted`, its server still at work. */
  lemma SecondBesideAccepted(id: string, accepted: MemoryOperation, operation: MemoryOperation)
    ensures var d: Disk := map[Record(Accepted, id) := Stored(accepted)];
            var after := Enqueued(d, id, operation);
            && OneDirPerName(d) && !OneDirPerName(after)
            && Record(Accepted, id) in after && after[Record(Pending, id)] == Stored(operation)
  {
    var d: Disk := map[Record(Accepted, id) := Stored(accepted)];
    SecondRecordExactly(d, id, operation);
    assert !Absent(d, id) by {
      assert Record(Accepted, id) in d;
    }
  }

  /** Each wiki page is created at most once. */
  lemma PageCreatedAtMostOnce(w: World, events: seq<Event>, i: nat, j: nat)
    requires SafeRun(w, events) && i < j < |events|
    requires events[i].Wrote? && events[j].Wrote? && events[i].slot.WikiPage?
    ensures events[i].slot != events[j].slot
  {
    SafeAt(w, events, i);
    SafeAt(w, events, j);
    Resume(w, events, i + 1, j);
    PagesStay(Replay(w, events[..i + 1]), events[i + 1..j], events[i].slot);
  }

  /** However often the process stopped on the way, a completed job has its wiki page and its memory
      operation. */
  lemma CompletedJobsHaveEvidence(w: World, events: seq<Event>, name: string)
    requires Inv(w.disk) && SafeRun(w, events)
    requires var d := Replay(w, events).disk;
        JobSlot(JobCompleted, name) in d && d[JobSlot(JobCompleted, name)].JobFile?
    ensures var d := Replay(w, events).disk; Evidence(d, d[JobSlot(JobCompleted, name)].job)
  {
    InvThroughout(w, events);
  }
}
