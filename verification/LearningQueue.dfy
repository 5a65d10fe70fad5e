/**
 The learning queue as a state machine: the files on disk and the server's
 ledger, changed one durable event at a time. A crash is a stop between two
 events, so whatever holds after every prefix of a run holds after any crash.
 `Safe` says what each event of the worker, of its operators' commands and of
 the other programs that feed the queue respects; `Inv` is kept by every safe event.
 */
module LearningQueue {
  import opened Basics
  import opened Json
  import opened MemoryOperations

  // ---------------------------------------------------------------------------
  // The disk and the ledger.
  // ---------------------------------------------------------------------------

  datatype JobDir = JobPending | JobProcessing | JobRetry | JobCompleted | JobRejected

  /** A learning job. `base` is the knowledge base its scope selects; `arguments` is the payload of
      its memory operation. */
  datatype LearningJob = LearningJob(schemaVersion: int, eventId: string, base: string, arguments: Value)

  /** A path below the queue root or a knowledge base. Names are file names without their suffix. */
  datatype Slot =
    | Record(dir: MemoryDir, name: string)
    | PreservedRecord(name: string, reason: string, millis: int)
    | JobSlot(jobDir: JobDir, name: string)
    | PreservedJob(name: string, reason: string, millis: int)
    | WikiPage(base: string, id: string)

  /** `repeat` says that the queue already had a record of the job's event, or another job that waited
      for it, when the job was published. It is part of the story, not of the file: no program reads it. */
  datatype File = Stored(op: MemoryOperation) | JobFile(job: LearningJob, repeat: bool) | Page | Garbled(bytes: string)

  type Disk = map<Slot, File>

  datatype World = World(disk: Disk, ledger: map<string, Receipt>)

  datatype Request = Request(operationId: string, kind: Method, dependencies: seq<string>, payloadHash: Digest,
    payload: Value)

  datatype Event =
    | Wrote(slot: Slot, file: File)
    | Renamed(source: Slot, target: Slot)
    /** A POST of the record at `from`; `landed` is the receipt the ledger opened for it, if it got there at once. */
    | Submitted(from: Slot, request: Request, landed: Option<Receipt>)
    /** A request that was on its way gets to the ledger. */
    | Landed(id: string, receipt: Receipt)
    | Progressed(id: string, receipt: Receipt)

  function Apply(w: World, e: Event): World {
    match e
    case Wrote(slot, file) => w.(disk := w.disk[slot := file])
    case Renamed(source, target) =>
      if source in w.disk then w.(disk := (w.disk - {source})[target := w.disk[source]]) else w
    case Submitted(_, request, landed) =>
      if landed.Some? then w.(ledger := w.ledger[request.operationId := landed.value]) else w
    case Landed(id, receipt) => w.(ledger := w.ledger[id := receipt])
    case Progressed(id, receipt) => w.(ledger := w.ledger[id := receipt])
  }

  function Replay(w: World, events: seq<Event>): World
    decreases |events|
  {
    if events == [] then w else Apply(Replay(w, events[..|events| - 1]), events[|events| - 1])
  }

  // ---------------------------------------------------------------------------
  // What a file is, whatever is rewritten in it.
  // ---------------------------------------------------------------------------

  ghost predicate NormalizesTo(kind: Method, before: Value, after: Value) {
    exists project :: NormalizePayload(kind, before, project) == Ok(after)
  }

  /** Both files hold the same operation: its identity, its payload once fixed, the hash once stored
      and the time of first acceptance once known are all the same. */
  ghost predicate SameRecord(before: File, after: File) {
    || before == after
    || (&& before.Stored? && after.Stored?
        && before.op.operationId == after.op.operationId
        && before.op.kind == after.op.kind
        && before.op.dependencies == after.op.dependencies
        && before.op.queuedAt == after.op.queuedAt
        && NormalizesTo(before.op.kind, before.op.arguments, after.op.arguments)
        && (before.op.payloadHash.Some? ==> after.op.payloadHash == before.op.payloadHash)
        && (before.op.firstAcceptedAt.Some? ==> after.op.firstAcceptedAt == before.op.firstAcceptedAt))
  }

  lemma SameRecordTransitive(a: File, b: File, c: File)
    requires SameRecord(a, b) && SameRecord(b, c)
    ensures SameRecord(a, c)
  {
    if a != b && b != c {
      var p :| NormalizePayload(a.op.kind, a.op.arguments, p) == Ok(b.op.arguments);
      var q :| NormalizePayload(b.op.kind, b.op.arguments, q) == Ok(c.op.arguments);
      NormalizationSettles(a.op.kind, a.op.arguments, p, q);
    }
  }

  // ---------------------------------------------------------------------------
  // The rules.
  // ---------------------------------------------------------------------------

  /** No directory of the memory queue holds a record of this name. */
  predicate Absent(d: Disk, name: string) {
    forall dir :: Record(dir, name) !in d
  }

  /** Some memory record of this name exists, live or preserved. */
  ghost predicate MemoryPresent(d: Disk, name: string) {
    exists slot :: slot in d && (slot.Record? || slot.PreservedRecord?) && slot.name == name
  }

  predicate Queued(dir: JobDir) {
    dir == JobPending || dir == JobProcessing || dir == JobRetry
  }

  /** The job at `slot` waits to be processed and has not been completed under its name before. */
  predicate Waiting(d: Disk, slot: Slot) {
    && slot in d && slot.JobSlot? && Queued(slot.jobDir) && d[slot].JobFile?
    && JobSlot(JobCompleted, slot.name) !in d
  }

  /** Some job still has to enqueue (or has just enqueued) the memory operation of this name. */
  predicate Awaited(d: Disk, name: string) {
    exists slot :: slot in d && Waiting(d, slot) && d[slot].job.eventId == name
  }

  /** Nothing in the queue belongs to the event yet, or a job of this name is completed and the one to
      be published under it will not be processed at all. */
  predicate IsNews(d: Disk, name: string, eventId: string) {
    (Absent(d, eventId) && !Awaited(d, eventId)) || JobSlot(JobCompleted, name) in d
  }

  /** The job waits, and its event was new when it was published. */
  predicate Original(d: Disk, slot: Slot) {
    Waiting(d, slot) && !d[slot].repeat
  }

  predicate Owed(d: Disk, name: string) {
    exists slot :: slot in d && Original(d, slot) && d[slot].job.eventId == name
  }

  /** A job published for an event that was not new waits, and neither of the two directories that
      `enqueue_memory` looks at has one: it will create another. */
  predicate RepeatEnqueues(d: Disk, name: string) {
    && Record(Pending, name) !in d && Record(Completed, name) !in d
    && exists slot :: slot in d && Waiting(d, slot) && d[slot].repeat && d[slot].job.eventId == name
  }

  function EntryId(eventId: string): (id: string)
    ensures id == "karpathy-session-" + eventId[..Min(16, |eventId|)]
  {
    "karpathy-session-" + if |eventId| > 16 then eventId[..16] else eventId
  }

  /** A completed job's wiki page and memory operation exist. */
  ghost predicate Evidence(d: Disk, job: LearningJob) {
    WikiPage(job.base, EntryId(job.eventId)) in d && MemoryPresent(d, job.eventId)
  }

  function RequestOf(op: MemoryOperation): Request
    requires op.payloadHash.Some?
  {
    Request(op.operationId, op.kind, op.dependencies, op.payloadHash.value, op.arguments)
  }

  ghost predicate SafeWrite(d: Disk, slot: Slot, file: File) {
    match slot
    case Record(dir, name) =>
      && file.Stored? && Bound(file.op)
      && if slot in d then SameRecord(d[slot], file)
         else dir == Pending && file.op.state == In(Pending) && file.op.operationId == name
                 && (Absent(d, name) || RepeatEnqueues(d, name))
    case JobSlot(dir, name) =>
      && dir == JobPending && slot !in d
      && (file.JobFile? ==> (file.repeat <==> !IsNews(d, name, file.job.eventId)))
    case WikiPage(_, _) => slot !in d
    case _ => false
  }

  ghost predicate SafeRename(d: Disk, source: Slot, target: Slot) {
    && source in d && source != target
    && match source
       case Record(dir, name) =>
         && target !in d && !Owed(d, name)
         && (|| (target.PreservedRecord? && exists other :: other != dir && Record(other, name) in d)
             || (target.Record? && target.dir in {Pending, Submitting, Accepted} && d[source].Stored?
               && Bound(d[source].op))
             || (target.Record? && target.dir in {Completed, Rejected, Stalled}))
         && target.name == name
       case JobSlot(dir, name) =>
         && Queued(dir)
         && (|| (target.PreservedJob? && target !in d)
             || (target.JobSlot? && Queued(target.jobDir) && target !in d)
             || (target.JobSlot? && target.jobDir == JobCompleted && target !in d && d[source].JobFile?
               && Evidence(d, d[source].job))
             || (target.JobSlot? && target.jobDir == JobRejected))
         && target.name == name
       case _ => false
  }

  ghost predicate Safe(w: World, e: Event) {
    match e
    case Wrote(slot, file) => SafeWrite(w.disk, slot, file)
    case Renamed(source, target) => SafeRename(w.disk, source, target)
    case Submitted(from, request, landed) =>
      && from in w.disk && from.Record? && w.disk[from].Stored? && Bound(w.disk[from].op)
      && request == RequestOf(w.disk[from].op)
    case Landed(_, _) => true
    case Progressed(id, _) => id in w.ledger
  }

  /** A write of an accepted record in place respects its backoff window. */
  predicate PacedEvent(d: Disk, e: Event) {
    e.Wrote? && e.slot.Record? && e.slot.dir == Accepted && e.slot in d && d[e.slot].Stored? && e.file.Stored? ==>
      Paced(d[e.slot].op, e.file.op)
  }

  ghost predicate SafeRun(w: World, events: seq<Event>)
    decreases |events|
  {
    events == [] ||
    (SafeRun(w, events[..|events| - 1]) && Safe(Replay(w, events[..|events| - 1]), events[|events| - 1]))
  }

  ghost predicate AcceptedBound(d: Disk) {
    forall name | Record(Accepted, name) in d && d[Record(Accepted, name)].Stored? ::
        Bound(d[Record(Accepted, name)].op)
  }

  ghost predicate PendingBound(d: Disk) {
    forall name | Record(Pending, name) in d && d[Record(Pending, name)].Stored? ::
      d[Record(Pending, name)].op.state in {In(Pending), BlankState} || Bound(d[Record(Pending, name)].op)
  }

  ghost predicate CompletedBacked(d: Disk) {
    forall name | JobSlot(JobCompleted, name) in d && d[JobSlot(JobCompleted, name)].JobFile? ::
      Evidence(d, d[JobSlot(JobCompleted, name)].job)
  }

  ghost predicate OriginalsPending(d: Disk) {
    forall slot, dir | Original(d, slot) && dir != Pending :: Record(dir, d[slot].job.eventId) !in d
  }

  /** Records outside `memory/pending` that are submitted without being rewritten first are bound to
      their payload, completed jobs have their evidence, and no record of a waiting job's operation
      has left `memory/pending` if the job's event was new. */
  ghost predicate Inv(d: Disk) {
    AcceptedBound(d) && PendingBound(d) && CompletedBacked(d) && OriginalsPending(d)
  }

  // ---------------------------------------------------------------------------
  // The other programs that feed the queue.
  // ---------------------------------------------------------------------------

  /** A fresh pending operation, as both enqueuers build it. */
  function NewOperation(id: string, arguments: Value, queuedAt: Stamp): (op: MemoryOperation)
    ensures Bound(op) && op.state == In(Pending) && op.operationId == id
    ensures op.schemaVersion == 2 && op.kind == AddMemory && op.arguments == arguments && op.dependencies == []
    ensures op.payloadHash == Some(Sha256(Compact(arguments))) && op.queuedAt == queuedAt
    ensures op.receipt.None? && op.firstAcceptedAt.None? && op.lastReceiptState.None? && op.unchangedPolls == 0
  {
    MemoryOperation(2, id, AddMemory, arguments, [], Some(PayloadHash(arguments)), In(Pending), queuedAt, None,
                    None, None, None, None, None, 0, None)
  }

  /** An operation as it is queued. */
  predicate IsNewRecord(file: File) {
    file.Stored? && Bound(file.op) && file.op.state == In(Pending)
  }

  /** From `d` to `d'` only other programs acted: `pk candidates accept` queued operations under names
      that no directory held and no waiting job will use, and hooks published jobs under free names. */
  ghost predicate Grown(d: Disk, d': Disk) {
    && (forall s | s in d :: s in d' && d'[s] == d[s])
    && (forall s | s in d' && s !in d :: Arrived(d, d', s))
  }

  ghost predicate Arrived(d: Disk, d': Disk, s: Slot)
    requires s in d'
  {
    match s
    case Record(dir, name) => dir == Pending && Absent(d, name) && !Awaited(d, name) && IsNewRecord(d'[s])
    case JobSlot(dir, name) =>
      && dir == JobPending
      && (forall other | Queued(other) :: JobSlot(other, name) !in d)
      && (Original(d', s) ==> Absent(d', d'[s].job.eventId) && !Awaited(d, d'[s].job.eventId))
    case _ => false
  }

  lemma GrownTwice(a: Disk, b: Disk, c: Disk)
    requires Grown(a, b) && Grown(b, c)
    ensures Grown(a, c)
  {
    forall s | s in c && s !in a
      ensures Arrived(a, c, s)
    {
      if s in b {
        assert Arrived(a, b, s);
      } else {
        assert Arrived(b, c, s);
      }
    }
  }

  lemma GrownKeepsWrite(d: Disk, d': Disk, slot: Slot, file: File)
    requires Grown(d, d') && SafeWrite(d, slot, file)
    requires slot in d || slot.WikiPage? || (slot.Record? && Awaited(d, slot.name))
    ensures SafeWrite(d', slot, file)
  {
  }

  lemma GrownKeepsRename(d: Disk, d': Disk, source: Slot, target: Slot)
    requires Grown(d, d') && SafeRename(d, source, target)
    ensures SafeRename(d', source, target)
  {
  }

  /** Every waiting job outside `todo` is one whose memory operation does not exist yet, or did when it
      was published. */
  ghost predicate Calm(d: Disk, todo: set<Slot>) {
    forall slot | Original(d, slot) :: slot in todo || Absent(d, d[slot].job.eventId)
  }

  /** Calm apart from `todo` and the job at `slot`; and while that one waits, every other waiting job
      whose event was new and is the same as its own is in `todo`. */
  ghost predicate JobReady(d: Disk, todo: set<Slot>, slot: Slot) {
    Calm(d, todo + {slot}) && (Waiting(d, slot) ==> Covered(d, todo + {slot}, d[slot].job.eventId))
  }

  ghost predicate Covered(d: Disk, todo: set<Slot>, eventId: string) {
    forall s | Original(d, s) && d[s].job.eventId == eventId :: s in todo
  }

  lemma GrownStaysReady(d: Disk, d': Disk, todo: set<Slot>, slot: Slot)
    requires Grown(d, d') && JobReady(d, todo, slot) && slot in d
    ensures JobReady(d', todo, slot)
  {
    GrownStaysCalm(d, d', todo + {slot});
    if Waiting(d', slot) {
      forall s | Original(d', s) && d'[s].job.eventId == d'[slot].job.eventId
        ensures s in todo + {slot}
      {
        if s in d {
          assert Original(d, s);
        } else {
          assert Waiting(d, slot) && Awaited(d, d'[slot].job.eventId) && Arrived(d, d', s);
        }
      }
    }
  }

  /** Nothing but a page or the operation of the waiting job itself is added. */
  lemma WrittenStaysReady(d: Disk, written: Slot, file: File, todo: set<Slot>, slot: Slot)
    requires JobReady(d, todo, slot) && Waiting(d, slot) && written !in d
    requires written.WikiPage? || written == Record(Pending, d[slot].job.eventId)
    ensures JobReady(d[written := file], todo, slot)
  {
    var d' := d[written := file];
    assert forall s | Waiting(d', s) :: Waiting(d, s) && d'[s] == d[s];
  }

  lemma GrownStaysCalm(d: Disk, d': Disk, todo: set<Slot>)
    requires Grown(d, d') && Calm(d, todo)
    ensures Calm(d', todo)
  {
  }

  // ---------------------------------------------------------------------------
  // Runs, their prefixes and their extension.
  // ---------------------------------------------------------------------------

  lemma {:induction false} SafePrefix(w: World, events: seq<Event>, k: nat)
    requires SafeRun(w, events) && k <= |events|
    ensures SafeRun(w, events[..k])
    decreases |events|
  {
    if k < |events| {
      SafePrefix(w, events[..|events| - 1], k);
      assert events[..|events| - 1][..k] == events[..k];
    } else {
      assert events[..k] == events;
    }
  }

  lemma SafeSnoc(w: World, events: seq<Event>, e: Event)
    requires SafeRun(w, events) && Safe(Replay(w, events), e)
    ensures SafeRun(w, events + [e])
    ensures Replay(w, events + [e]) == Apply(Replay(w, events), e)
  {
    assert (events + [e])[..|events|] == events;
  }

  lemma InvStep(w: World, e: Event)
    requires Inv(w.disk) && Safe(w, e)
    ensures Inv(Apply(w, e).disk)
  {
    var d, d' := w.disk, Apply(w, e).disk;
    match e
    case Wrote(slot, file) => InvWrite(d, slot, file);
    case Renamed(source, target) => InvRename(d, source, target);
    case _ =>
  }

  lemma WriteKeepsEvidence(d: Disk, slot: Slot, file: File, job: LearningJob)
    requires Evidence(d, job)
    ensures Evidence(d[slot := file], job)
  {
    var record :| record in d && (record.Record? || record.PreservedRecord?) && record.name == job.eventId;
    assert record in d[slot := file];
  }

  lemma WriteKeepsBacked(d: Disk, slot: Slot, file: File)
    requires CompletedBacked(d) && SafeWrite(d, slot, file)
    ensures CompletedBacked(d[slot := file])
  {
    var d' := d[slot := file];
    forall name | JobSlot(JobCompleted, name) in d' && d'[JobSlot(JobCompleted, name)].JobFile?
      ensures Evidence(d', d'[JobSlot(JobCompleted, name)].job)
    {
      WriteKeepsEvidence(d, slot, file, d[JobSlot(JobCompleted, name)].job);
    }
  }

  /** A write never makes another file a waiting job. */
  lemma WaitingBefore(d: Disk, slot: Slot, file: File, s: Slot)
    requires SafeWrite(d, slot, file) && Waiting(d[slot := file], s) && s != slot
    ensures Waiting(d, s)
  {
  }

  lemma WriteKeepsOriginals(d: Disk, slot: Slot, file: File)
    requires OriginalsPending(d) && SafeWrite(d, slot, file)
    ensures OriginalsPending(d[slot := file])
  {
    var d' := d[slot := file];
    forall s, dir | Original(d', s) && dir != Pending
      ensures Record(dir, d'[s].job.eventId) !in d'
    {
      if s != slot {
        WaitingBefore(d, slot, file, s);
      }
    }
  }

  lemma InvWrite(d: Disk, slot: Slot, file: File)
    requires Inv(d) && SafeWrite(d, slot, file)
    ensures Inv(d[slot := file])
  {
    WriteKeepsBacked(d, slot, file);
    WriteKeepsOriginals(d, slot, file);
  }

  lemma RenameKeepsEvidence(d: Disk, source: Slot, target: Slot, job: LearningJob)
    requires SafeRename(d, source, target) && Evidence(d, job)
    ensures Evidence((d - {source})[target := d[source]], job)
  {
    var d' := (d - {source})[target := d[source]];
    var record :| record in d && (record.Record? || record.PreservedRecord?) && record.name == job.eventId;
    if record == source {
      assert target in d';
    } else {
      assert record in d';
    }
  }

  function Renaming(d: Disk, source: Slot, target: Slot): Disk
    requires source in d
  {
    (d - {source})[target := d[source]]
  }

  lemma RenameKeepsBound(d: Disk, source: Slot, target: Slot)
    requires AcceptedBound(d) && PendingBound(d) && SafeRename(d, source, target)
    ensures AcceptedBound(Renaming(d, source, target)) && PendingBound(Renaming(d, source, target))
  {
  }

  lemma RenameKeepsBacked(d: Disk, source: Slot, target: Slot)
    requires CompletedBacked(d) && SafeRename(d, source, target)
    ensures CompletedBacked(Renaming(d, source, target))
  {
    var d' := Renaming(d, source, target);
    forall name | JobSlot(JobCompleted, name) in d' && d'[JobSlot(JobCompleted, name)].JobFile?
      ensures Evidence(d', d'[JobSlot(JobCompleted, name)].job)
    {
      RenameKeepsEvidence(d, source, target, d'[JobSlot(JobCompleted, name)].job);
    }
  }

  /** Where a waiting job stood before a rename. */
  function Origin(source: Slot, target: Slot, s: Slot): Slot {
    if s == target then source else s
  }

  lemma WaitedBefore(d: Disk, source: Slot, target: Slot, s: Slot)
    requires SafeRename(d, source, target) && Waiting(Renaming(d, source, target), s)
    ensures var o := Origin(source, target, s);
            Waiting(d, o) && d[o] == Renaming(d, source, target)[s]
  {
  }

  lemma RenameKeepsOriginals(d: Disk, source: Slot, target: Slot)
    requires OriginalsPending(d) && SafeRename(d, source, target)
    ensures OriginalsPending(Renaming(d, source, target))
  {
    var d' := Renaming(d, source, target);
    forall s, dir | Original(d', s) && dir != Pending
      ensures Record(dir, d'[s].job.eventId) !in d'
    {
      WaitedBefore(d, source, target, s);
    }
  }

  lemma InvRename(d: Disk, source: Slot, target: Slot)
    requires Inv(d) && SafeRename(d, source, target)
    ensures Inv(Renaming(d, source, target))
  {
    RenameKeepsBound(d, source, target);
    RenameKeepsBacked(d, source, target);
    RenameKeepsOriginals(d, source, target);
  }

  predicate IsMemory(slot: Slot) {
    slot.Record? || slot.PreservedRecord?
  }
}
