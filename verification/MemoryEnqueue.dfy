/**
 `queue_memory` of `pk candidates accept`, step by step: eight looks, one directory
 after the other, and then the write, with whatever the worker, its operators and
 other enqueuers do in between, since it takes no lock.
 */
module MemoryEnqueue {
  import opened Basics
  import opened Json
  import opened LearningQueue
  import opened MemoryOperations
  import opened QueueRuns

  /** The order in which the directories are looked at. */
  function Place(dir: MemoryDir): nat {
    match dir
    case Pending => 0
    case Submitting => 1
    case Accepted => 2
    case Retry => 3
    case Completed => 4
    case Rejected => 5
    case DeadLetter => 6
    case Stalled => 7
  }

  function Looked(k: nat): (dir: MemoryDir)
    requires k < 8
    ensures Place(dir) == k
  {
    match k
    case 0 => Pending
    case 1 => Submitting
    case 2 => Accepted
    case 3 => Retry
    case 4 => Completed
    case 5 => Rejected
    case 6 => DeadLetter
    case 7 => Stalled
  }

  /** How many events of a run have happened at each of the eight looks and, last, at the write. */
  ghost predicate IsSchedule(times: seq<nat>, events: seq<Event>) {
    && |times| == 9
    && (forall k, l | 0 <= k <= l < 9 :: times[k] <= times[l])
    && times[8] <= |events|
  }

  /** Look `k` finds nothing under the name. */
  ghost predicate MissesAt(w: World, events: seq<Event>, times: seq<nat>, k: nat, name: string)
    requires IsSchedule(times, events) && k < 8
  {
    Record(Looked(k), name) !in DiskAt(w, events, times[k])
  }

  /** All eight looks find nothing, so the operation is written. */
  ghost predicate MissesAll(w: World, events: seq<Event>, times: seq<nat>, name: string)
    requires IsSchedule(times, events)
  {
    forall k | 0 <= k < 8 :: MissesAt(w, events, times, k, name)
  }

  // -- What can go wrong between two looks ---------------------------------------------

  /** A live record of this name in a directory at place `k` or later. */
  ghost predicate From(d: Disk, name: string, k: nat) {
    exists dir :: Record(dir, name) in d && Place(dir) >= k
  }

  /** The rename takes a record of this name to an earlier place, or aside while the others are at
      earlier places: the release of a stalled record, or the migration of a legacy one. */
  ghost predicate MovesBack(d: Disk, e: Event, name: string) {
    && e.Renamed? && e.source in d && e.source.Record? && e.source.name == name
    && if e.target.Record? then Place(e.target.dir) < Place(e.source.dir)
       else forall dir | Record(dir, name) in d :: Place(dir) <= Place(e.source.dir)
  }

  /** Another program creates a record of this name. */
  ghost predicate Creates(d: Disk, e: Event, name: string) {
    e.Wrote? && e.slot.Record? && e.slot.name == name && e.slot !in d
  }

  ghost predicate DisturbedAt(w: World, events: seq<Event>, m: nat, name: string)
    requires m < |events|
  {
    var d := DiskAt(w, events, m);
    MovesBack(d, events[m], name) || Creates(d, events[m], name)
  }

  /** Between the first look and the write, a record of this name moves back or another is created. */
  ghost predicate Disturbed(w: World, events: seq<Event>, times: seq<nat>, name: string)
    requires IsSchedule(times, events)
  {
    exists m: nat :: times[0] <= m < times[8] && DisturbedAt(w, events, m, name)
  }

  lemma FromAfterOne(w: World, e: Event, name: string, k: nat)
    requires Safe(w, e) && From(w.disk, name, k) && !MovesBack(w.disk, e, name)
    ensures From(Apply(w, e).disk, name, k)
  {
    var dir :| Record(dir, name) in w.disk && Place(dir) >= k;
    if e.Renamed? && e.source == Record(dir, name) {
      if e.target.Record? {
        assert Record(e.target.dir, name) in Apply(w, e).disk;
      } else {
        var other :| Record(other, name) in w.disk && Place(other) > Place(dir);
        assert Record(other, name) in Apply(w, e).disk;
      }
    } else {
      assert Record(dir, name) in Apply(w, e).disk;
    }
  }

  lemma {:induction false} FromStays(w: World, events: seq<Event>, i: nat, j: nat, name: string, k: nat)
    requires SafeRun(w, events) && i <= j <= |events| && From(DiskAt(w, events, i), name, k)
    requires forall m: nat | i <= m < j :: !DisturbedAt(w, events, m, name)
    ensures From(DiskAt(w, events, j), name, k)
  {
    if i < j {
      FromStays(w, events, i, j - 1, name, k);
      SafeAt(w, events, j - 1);
      assert !DisturbedAt(w, events, j - 1, name);
      FromAfterOne(Replay(w, events[..j - 1]), events[j - 1], name, k);
    }
  }

  /** After `k` fruitless looks at a record that only moves forward, it is at place `k` or later. */
  lemma {:induction false} StillAhead(w: World, events: seq<Event>, times: seq<nat>, name: string, k: nat)
    requires SafeRun(w, events) && IsSchedule(times, events) && !Disturbed(w, events, times, name) && k <= 8
    requires !Absent(DiskAt(w, events, times[0]), name)
    requires forall l | 0 <= l < k :: MissesAt(w, events, times, l, name)
    ensures From(DiskAt(w, events, times[k]), name, k)
  {
    if k == 0 {
      var dir :| Record(dir, name) in DiskAt(w, events, times[0]);
      assert Place(dir) >= 0;
    } else {
      StillAhead(w, events, times, name, k - 1);
      assert MissesAt(w, events, times, k - 1, name);
      var d := DiskAt(w, events, times[k - 1]);
      var dir :| Record(dir, name) in d && Place(dir) >= k - 1;
      OnePlace(dir, Looked(k - 1));
      assert From(d, name, k);
      FromStays(w, events, times[k - 1], times[k], name, k);
    }
  }

  lemma OnePlace(a: MemoryDir, b: MemoryDir)
    ensures Place(a) == Place(b) <==> a == b
  {
  }

  /** The order of the looks is right: a record that is there at the first look and only moves forward
      until the write is found. */
  lemma ForwardIsFound(w: World, events: seq<Event>, times: seq<nat>, name: string)
    requires SafeRun(w, events) && IsSchedule(times, events) && !Disturbed(w, events, times, name)
    requires !Absent(DiskAt(w, events, times[0]), name)
    ensures !MissesAll(w, events, times, name)
  {
    if MissesAll(w, events, times, name) {
      StillAhead(w, events, times, name, 8);
    }
  }

  // -- When the write meets a record ---------------------------------------------------

  lemma DisturbedIsPresent(w: World, events: seq<Event>, m: nat, name: string)
    requires SafeRun(w, events) && m < |events| && DisturbedAt(w, events, m, name)
    ensures !Absent(DiskAt(w, events, m + 1), name)
  {
    var d := DiskAt(w, events, m);
    SafeAt(w, events, m);
    if MovesBack(d, events[m], name) {
      assert events[m].source == Record(events[m].source.dir, name);
      PresentAfterOne(Replay(w, events[..m]), events[m], name);
    } else {
      assert Record(events[m].slot.dir, name) in DiskAt(w, events, m + 1);
    }
  }

  lemma {:induction false} AbsentStays(w: World, events: seq<Event>, i: nat, j: nat, name: string)
    requires SafeRun(w, events) && i <= j <= |events| && Absent(DiskAt(w, events, i), name)
    requires forall m: nat | i <= m < j :: !DisturbedAt(w, events, m, name)
    ensures Absent(DiskAt(w, events, j), name)
  {
    if i < j {
      AbsentStays(w, events, i, j - 1, name);
      SafeAt(w, events, j - 1);
      assert !DisturbedAt(w, events, j - 1, name);
      if !Absent(DiskAt(w, events, j), name) {
        AppearsByWrite(Replay(w, events[..j - 1]), events[j - 1], name);
      }
    }
  }

  /** When all looks miss, the name has a record at the write exactly if in between one moved back or
      another program created one. Nothing else fools the eight looks. */
  lemma MissedExactly(w: World, events: seq<Event>, times: seq<nat>, name: string)
    requires SafeRun(w, events) && IsSchedule(times, events) && MissesAll(w, events, times, name)
    ensures !Absent(DiskAt(w, events, times[8]), name) <==> Disturbed(w, events, times, name)
  {
    if Disturbed(w, events, times, name) {
      var m: nat :| times[0] <= m < times[8] && DisturbedAt(w, events, m, name);
      DisturbedIsPresent(w, events, m, name);
      StaysPresent(w, events, m + 1, times[8], name);
    } else if Absent(DiskAt(w, events, times[0]), name) {
      AbsentStays(w, events, times[0], times[8], name);
    } else {
      ForwardIsFound(w, events, times, name);
    }
  }

  /** The event puts a file at `memory/pending/<name>.json` where there was none. */
  ghost predicate PutsAt(w: World, events: seq<Event>, m: nat, name: string)
    requires m < |events|
  {
    Puts(DiskAt(w, events, m), events[m], name)
  }

  ghost predicate Puts(d: Disk, e: Event, name: string) {
    var slot := Record(Pending, name);
    slot !in d && ((e.Wrote? && e.slot == slot) || (e.Renamed? && e.source in d && e.target == slot))
  }

  ghost predicate TakesAt(events: seq<Event>, m: nat, name: string)
    requires m < |events|
  {
    events[m].Renamed? && events[m].source == Record(Pending, name)
  }

  /** Since the first look, event `m` put a file at `memory/pending/<name>.json`, and it has stayed there. */
  ghost predicate PutAndLeft(w: World, events: seq<Event>, m: nat, j: nat, name: string)
    requires m < j <= |events|
  {
    PutsAt(w, events, m, name) && forall l: nat | m < l < j :: !TakesAt(events, l, name)
  }

  lemma PendingAfterOne(w: World, events: seq<Event>, m: nat, name: string)
    requires SafeRun(w, events) && m < |events|
    ensures Record(Pending, name) in DiskAt(w, events, m + 1)
       <==> PutsAt(w, events, m, name) || (Record(Pending, name) in DiskAt(w, events, m) && !TakesAt(events, m, name))
  {
    SafeAt(w, events, m);
  }

  ghost predicate PutSince(w: World, events: seq<Event>, i: nat, j: nat, name: string)
    requires j <= |events|
  {
    exists m: nat :: i <= m < j && PutAndLeft(w, events, m, j, name)
  }

  lemma PutSinceStep(w: World, events: seq<Event>, i: nat, j: nat, name: string)
    requires i < j <= |events|
    ensures PutSince(w, events, i, j, name)
       <==> PutsAt(w, events, j - 1, name) || (PutSince(w, events, i, j - 1, name) && !TakesAt(events, j - 1, name))
  {
    if PutSince(w, events, i, j, name) {
      var m: nat :| i <= m < j && PutAndLeft(w, events, m, j, name);
      if m < j - 1 {
        assert PutAndLeft(w, events, m, j - 1, name) && !TakesAt(events, j - 1, name);
      }
    }
    if PutsAt(w, events, j - 1, name) {
      assert PutAndLeft(w, events, j - 1, j, name);
    }
    if PutSince(w, events, i, j - 1, name) && !TakesAt(events, j - 1, name) {
      var m: nat :| i <= m < j - 1 && PutAndLeft(w, events, m, j - 1, name);
      assert PutAndLeft(w, events, m, j, name);
    }
  }

  lemma {:induction false} PendingExactly(w: World, events: seq<Event>, i: nat, j: nat, name: string)
    requires SafeRun(w, events) && i <= j <= |events| && Record(Pending, name) !in DiskAt(w, events, i)
    ensures Record(Pending, name) in DiskAt(w, events, j) <==> PutSince(w, events, i, j, name)
  {
    if i < j {
      PendingExactly(w, events, i, j - 1, name);
      PendingAfterOne(w, events, j - 1, name);
      PutSinceStep(w, events, i, j, name);
    }
  }

  /** Only another enqueuer or a move back puts a file in `memory/pending`. */
  lemma PutIsBack(w: World, e: Event, name: string)
    requires Safe(w, e) && Puts(w.disk, e, name)
    ensures MovesBack(w.disk, e, name) || Creates(w.disk, e, name)
  {
  }

  lemma PutDisturbs(w: World, events: seq<Event>, m: nat, name: string)
    requires SafeRun(w, events) && m < |events| && PutsAt(w, events, m, name)
    ensures DisturbedAt(w, events, m, name)
  {
    SafeAt(w, events, m);
    PutIsBack(Replay(w, events[..m]), events[m], name);
  }

  /** When all looks miss, the write replaces a record exactly if since the first look one was put in
      `memory/pending` and left there: by another enqueuer, or by a move back to it. */
  lemma ReplacesExactly(w: World, events: seq<Event>, times: seq<nat>, name: string)
    requires SafeRun(w, events) && IsSchedule(times, events) && MissesAll(w, events, times, name)
    ensures Record(Pending, name) in DiskAt(w, events, times[8]) <==> PutSince(w, events, times[0], times[8], name)
    ensures forall m: nat | times[0] <= m < times[8] && PutAndLeft(w, events, m, times[8], name) ::
        DisturbedAt(w, events, m, name)
  {
    assert MissesAt(w, events, times, 0, name);
    PendingExactly(w, events, times[0], times[8], name);
    forall m: nat | times[0] <= m < times[8] && PutAndLeft(w, events, m, times[8], name)
      ensures DisturbedAt(w, events, m, name)
    {
      PutDisturbs(w, events, m, name);
    }
  }

  function EnqueueEvent(id: string, arguments: Value, queuedAt: Stamp): Event {
    Wrote(Record(Pending, id), Stored(NewOperation(id, arguments, queuedAt)))
  }

  /** An enqueue that nothing disturbs is a step like those of module `LearningQueue`: the run with its
      write keeps the rules, so nothing is lost and no name gets a second record by it. */
  lemma UndisturbedIsSafe(w: World, events: seq<Event>, times: seq<nat>, id: string, arguments: Value, queuedAt: Stamp)
    requires SafeRun(w, events) && IsSchedule(times, events) && times[8] == |events|
    requires MissesAll(w, events, times, id) && !Disturbed(w, events, times, id)
    ensures var all := events + [EnqueueEvent(id, arguments, queuedAt)];
            SafeRun(w, all) && FreshAt(w, all, |events|)
  {
    var e := EnqueueEvent(id, arguments, queuedAt);
    MissedExactly(w, events, times, id);
    assert events[..|events|] == events;
    assert Absent(Replay(w, events).disk, id);
    SafeSnoc(w, events, e);
    assert (events + [e])[..|events|] == events;
  }

  // -- The failing inputs --------------------------------------------------------------

  /** The first look comes before the one event there is, the others after it. */
  const ONE_BETWEEN: seq<nat> := [0, 1, 1, 1, 1, 1, 1, 1, 1]

  lemma OneStep(w: World, e: Event)
    ensures DiskAt(w, [e], 0) == w.disk && DiskAt(w, [e], 1) == Apply(w, e).disk
    ensures SafeRun(w, [e]) <==> Safe(w, e)
    ensures IsSchedule(ONE_BETWEEN, [e])
  {
    assert [e][..0] == [] && [e][..1] == [e];
  }

  /** The worker migrates a legacy record while `accept` looks: all looks miss, and the write destroys
      it. No file holds the operation any more. */
  lemma MigrationDuringLooks(ledger: map<string, Receipt>, queued: MemoryOperation, arguments: Value, queuedAt: Stamp)
    requires Bound(queued) && !SameRecord(Stored(queued), Stored(NewOperation(queued.operationId, arguments, queuedAt)))
    ensures var id := queued.operationId;
            var w := World(map[Record(Retry, id) := Stored(queued)], ledger);
            var events := [Renamed(Record(Retry, id), Record(Pending, id))];
            var after := Apply(Replay(w, events), EnqueueEvent(id, arguments, queuedAt)).disk;
            && SafeRun(w, events) && IsSchedule(ONE_BETWEEN, events) && MissesAll(w, events, ONE_BETWEEN, id)
            && forall slot | slot in after :: !SameRecord(Stored(queued), after[slot])
  {
    var id := queued.operationId;
    var w := World(map[Record(Retry, id) := Stored(queued)], ledger);
    var e := Renamed(Record(Retry, id), Record(Pending, id));
    OneStep(w, e);
    assert Apply(w, e).disk == map[Record(Pending, id) := Stored(queued)];
    assert SafeRename(w.disk, e.source, e.target);
    assert Replay(w, [e]) == Apply(w, e);
    MissesByPlace(w, e, id);
  }

  /** Between the first look and the others the record is at a place that was looked at before. */
  lemma MissesByPlace(w: World, e: Event, id: string)
    requires Record(Pending, id) !in w.disk
    requires forall dir | dir != Pending :: Record(dir, id) !in Apply(w, e).disk
    ensures IsSchedule(ONE_BETWEEN, [e]) && MissesAll(w, [e], ONE_BETWEEN, id)
  {
    OneStep(w, e);
    forall k | 0 <= k < 8
      ensures MissesAt(w, [e], ONE_BETWEEN, k, id)
    {
      if k > 0 {
        OnePlace(Looked(k), Pending);
        assert ONE_BETWEEN[k] == 1;
      }
    }
  }

  /** An operator releases a stalled record that the server never answered for: the same loss. */
  lemma ReleaseDuringLooks(ledger: map<string, Receipt>, queued: MemoryOperation, arguments: Value, queuedAt: Stamp)
    requires Bound(queued) && !SameRecord(Stored(queued), Stored(NewOperation(queued.operationId, arguments, queuedAt)))
    ensures var id := queued.operationId;
            var w := World(map[Record(Stalled, id) := Stored(queued)], ledger);
            var events := [Renamed(Record(Stalled, id), Record(Pending, id))];
            var after := Apply(Replay(w, events), EnqueueEvent(id, arguments, queuedAt)).disk;
            && SafeRun(w, events) && IsSchedule(ONE_BETWEEN, events) && MissesAll(w, events, ONE_BETWEEN, id)
            && forall slot | slot in after :: !SameRecord(Stored(queued), after[slot])
  {
    var id := queued.operationId;
    var w := World(map[Record(Stalled, id) := Stored(queued)], ledger);
    var e := Renamed(Record(Stalled, id), Record(Pending, id));
    OneStep(w, e);
    assert Apply(w, e).disk == map[Record(Pending, id) := Stored(queued)];
    assert SafeRename(w.disk, e.source, e.target);
    assert Replay(w, [e]) == Apply(w, e);
    MissesByPlace(w, e, id);
  }

  /** The first three looks come before the one event, the others after it. */
  const LATER_BETWEEN: seq<nat> := [0, 0, 0, 1, 1, 1, 1, 1, 1]

  /** The release of one that the server has answered for takes it to `memory/accepted` after that was
      looked at: nothing is lost, but the name has two live records. */
  lemma ReleaseMakesTwo(ledger: map<string, Receipt>, queued: MemoryOperation, arguments: Value, queuedAt: Stamp)
    requires Bound(queued)
    ensures var id := queued.operationId;
            var w := World(map[Record(Stalled, id) := Stored(queued)], ledger);
            var events := [Renamed(Record(Stalled, id), Record(Accepted, id))];
            var after := Apply(Replay(w, events), EnqueueEvent(id, arguments, queuedAt)).disk;
            && SafeRun(w, events) && IsSchedule(LATER_BETWEEN, events) && MissesAll(w, events, LATER_BETWEEN, id)
            && OneDirPerName(w.disk) && !OneDirPerName(after)
  {
    var id := queued.operationId;
    var w := World(map[Record(Stalled, id) := Stored(queued)], ledger);
    var e := Renamed(Record(Stalled, id), Record(Accepted, id));
    OneStep(w, e);
    var moved := Apply(w, e).disk;
    assert moved == map[Record(Accepted, id) := Stored(queued)];
    assert SafeRename(w.disk, e.source, e.target);
    assert Replay(w, [e]) == Apply(w, e);
    forall k | 0 <= k < 8
      ensures MissesAt(w, [e], LATER_BETWEEN, k, id)
    {
      OnePlace(Looked(k), Accepted);
      OnePlace(Looked(k), Stalled);
      assert LATER_BETWEEN[k] == if k < 3 then 0 else 1;
    }
    var after := Apply(Replay(w, [e]), EnqueueEvent(id, arguments, queuedAt)).disk;
    assert Record(Accepted, id) in after && Record(Pending, id) in after;
  }

  /** Two programs accept one candidate at once: the second write replaces the first. */
  lemma TwoAccepts(ledger: map<string, Receipt>, id: string, first: Value, second: Value, firstAt: Stamp,
      secondAt: Stamp)
    requires first != second || firstAt != secondAt
    ensures var w := World(map[], ledger);
            var events := [EnqueueEvent(id, first, firstAt)];
            var after := Apply(Replay(w, events), EnqueueEvent(id, second, secondAt)).disk;
            && SafeRun(w, events) && IsSchedule(ONE_BETWEEN, events) && MissesAll(w, events, ONE_BETWEEN, id)
            && forall slot | slot in after :: !SameRecord(Stored(NewOperation(id, first, firstAt)), after[slot])
  {
    var w := World(map[], ledger);
    var e := EnqueueEvent(id, first, firstAt);
    OneStep(w, e);
    assert Replay(w, [e]) == Apply(w, e);
    MissesByPlace(w, e, id);
    if firstAt == secondAt {
      var a, b := NewOperation(id, first, firstAt), NewOperation(id, second, secondAt);
      assert !NormalizesTo(a.kind, a.arguments, b.arguments);
    }
  }
}
