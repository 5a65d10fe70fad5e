/**
 What the worker's steps mean on the disk: which records are settled, migrated,
 relocated or awaited, what each outcome stands for in the counts, and how these
 facts survive the next step.
 */
module WorkerSteps {
  import opened Basics
  import opened Json
  import opened MemoryOperations
  import opened LearningQueue

  // ---------------------------------------------------------------------------
  // What the outside world may do.
  // ---------------------------------------------------------------------------

  datatype Arrival =
    | QueueOperation(id: string, arguments: Value, queuedAt: Stamp)
    | PublishedJob(name: string, job: LearningJob)
    | LedgerProgress(id: string, receipt: Receipt)
    | LateLanding(id: string, receipt: Receipt)

  /** How one HTTP exchange goes: no answer, an answer other than the one asked for, or that answer. */
  datatype LookupFate = LookupTimedOut | LookupFailed | LookupAnswered
  datatype ReadyFate = ReadyTimedOut | NotReady | Ready
  /** A POST that times out has reached the ledger, or may still (`LateLanding`), or never will. One
      that has reached it may be answered with an error or with a text that does not parse. */
  datatype SubmitFate =
    | RequestLost | ReplyLost(receipt: Receipt)
    | SubmitRefused | ReplyUnusable(receipt: Receipt) | SubmitAnswered(receipt: Receipt)

  datatype Conversation = Conversation(lookup: LookupFate, ready: ReadyFate, submit: SubmitFate)

  // ---------------------------------------------------------------------------
  // Pure steps.
  // ---------------------------------------------------------------------------

  /** `read_operation`: parse, then normalize. */
  function ReadOperation(file: File, project: string): Result<MemoryOperation, Failure> {
    if file.Stored? then NormalizeOperation(file.op, project) else Err(UnreadableRecord)
  }

  predicate Readable(file: File, project: string) {
    ReadOperation(file, project).Ok?
  }

  /** Rewriting a record after reading it keeps its identity, as long as only mutable fields differ. */
  lemma RewriteIsSame(file: File, project: string, after: MemoryOperation)
    requires Readable(file, project)
    requires var read := ReadOperation(file, project).value;
             && after.operationId == read.operationId && after.kind == read.kind
             && after.dependencies == read.dependencies && after.queuedAt == read.queuedAt
             && after.arguments == read.arguments && after.payloadHash == read.payloadHash
             && (read.firstAcceptedAt.Some? ==> after.firstAcceptedAt == read.firstAcceptedAt)
    ensures SameRecord(file, Stored(after)) && Bound(after)
    ensures Readable(Stored(after), project)
  {
    NormalizationSettles(file.op.kind, file.op.arguments, project, project);
    assert NormalizesTo(file.op.kind, file.op.arguments, after.arguments);
    ReadingSettles(after, project, project);
  }

  /** The receipt answers this very operation. */
  predicate ReceiptMatches(op: MemoryOperation, receipt: Receipt) {
    && receipt.schemaVersion == 2
    && receipt.operationId == op.operationId
    && receipt.kind == op.kind
    && Some(receipt.payloadHash) == op.payloadHash
    && receipt.dependencies == op.dependencies
  }

  /** What a receipt did to a local operation. */
  datatype ReceiptOutcome = Transitioned | Progressed | Unchanged

  function OutcomeOf(before: MemoryOperation, receipt: Receipt): ReceiptOutcome
    requires Destination(receipt.state).Some?
  {
    if before.state != In(Destination(receipt.state).value) then Transitioned
    else if ReceiptChanged(before, receipt) then ReceiptOutcome.Progressed
    else Unchanged
  }

  /** The record a submission starts from: a pending one is marked first. */
  function Started(read: MemoryOperation): MemoryOperation {
    if read.state == In(Pending) then read.(state := In(Submitting), lastError := None) else read
  }

  function StartedAt(slot: Slot, read: MemoryOperation): Slot
    requires slot.Record?
  {
    if read.state == In(Pending) then Record(Submitting, slot.name) else slot
  }

  predicate BroughtIn(d: Disk, d': Disk, s: Slot)
    requires s in d'
  {
    || (s.Record? && s.dir == Pending && Absent(d, s.name) && IsNewRecord(d'[s]))
    || (s.JobSlot? && s.jobDir == JobPending)
  }

  /** Between `d` and `d'` nothing changed but the memory files named `name` and what other programs
      brought in under names no directory held. */
  ghost predicate Only(d: Disk, d': Disk, name: string) {
    && (forall s | s in d && !(IsMemory(s) && s.name == name) :: s in d' && d'[s] == d[s])
    && (forall s | s in d' && s !in d && !(IsMemory(s) && s.name == name) :: BroughtIn(d, d', s))
  }

  lemma OnlyTwice(a: Disk, b: Disk, c: Disk, name: string)
    requires Only(a, b, name) && Only(b, c, name)
    ensures Only(a, c, name)
  {
    forall s | s in c && s !in a && !(IsMemory(s) && s.name == name)
      ensures BroughtIn(a, c, s)
    {
      if s in b {
        assert BroughtIn(a, b, s);
      } else {
        assert BroughtIn(b, c, s);
      }
    }
  }

  /** From `d` to `d'` only records in `dirs` were rewritten or moved (or preserved as duplicates); the
      rest is as it was, apart from what other programs brought in. */
  ghost predicate Frame(d: Disk, d': Disk, dirs: set<MemoryDir>) {
    && (forall s | s in d && !(s.Record? && s.dir in dirs) :: s in d' && d'[s] == d[s])
    && (forall s | s in d' && s !in d && !(s.Record? && s.dir in dirs) && !s.PreservedRecord? :: BroughtIn(d, d', s))
    && (forall n | !Absent(d, n) :: !Absent(d', n))
  }

  lemma FrameTwice(a: Disk, b: Disk, c: Disk, dirs: set<MemoryDir>)
    requires Frame(a, b, dirs) && Frame(b, c, dirs)
    ensures Frame(a, c, dirs)
  {
    forall s | s in c && s !in a && !(s.Record? && s.dir in dirs) && !s.PreservedRecord?
      ensures BroughtIn(a, c, s)
    {
      if s in b {
        assert BroughtIn(a, b, s);
      } else {
        assert BroughtIn(b, c, s);
      }
    }
  }

  lemma OnlyIsFrame(d: Disk, d': Disk, name: string, dirs: set<MemoryDir>)
    requires Only(d, d', name)
    requires forall s | IsMemory(s) && s.name == name && !(s.Record? && s.dir in dirs) && s in d ::
        s in d' && d'[s] == d[s]
    requires forall dir | dir !in dirs && Record(dir, name) in d' :: Record(dir, name) in d
    requires !Absent(d', name)
    ensures Frame(d, d', dirs)
  {
    forall n | !Absent(d, n)
      ensures !Absent(d', n)
    {
      if n != name {
        var dir :| Record(dir, n) in d;
        assert Record(dir, n) in d';
      }
    }
  }

  /** A new event's waiting job has no record outside `memory/pending`, so none is owed elsewhere. */
  lemma InvNotOwed(d: Disk, name: string, dir: MemoryDir)
    requires Inv(d) && Record(dir, name) in d && dir != Pending
    ensures !Owed(d, name)
  {
  }

  /** All jobs that wait at this moment. */
  function AllWaiting(d: Disk): (todo: set<Slot>)
    ensures Calm(d, todo)
  {
    set s | s in d && Waiting(d, s)
  }

  /** In a calm queue no new event's waiting job is owed a name that already has a record. */
  lemma CalmNotOwed(d: Disk, name: string, dir: MemoryDir)
    requires Calm(d, {}) && Record(dir, name) in d
    ensures !Owed(d, name)
  {
  }

  lemma GrownIsOnly(d: Disk, d': Disk, name: string)
    requires Grown(d, d') && !Absent(d, name)
    ensures Only(d, d', name)
    ensures forall s | IsMemory(s) && s.name == name :: s in d' <==> s in d
  {
    forall s | s in d' && s !in d
      ensures BroughtIn(d, d', s)
    {
      assert Arrived(d, d', s);
    }
  }

  /** The names of a directory's records. The worker lists them sorted; the model takes them in any order. */
  function JsonFiles(d: Disk, dir: MemoryDir): (names: set<string>)
    ensures forall n :: n in names <==> Record(dir, n) in d
  {
    set s | s in d && s.Record? && s.dir == dir :: s.name
  }

  /** Every record in `memory/submitting` is normalized and marked, as recovery leaves it. */
  ghost predicate SubmittingReady(d: Disk) {
    forall n :: ReadyAt(d, n)
  }

  ghost predicate ReadyAt(d: Disk, name: string) {
    Record(Submitting, name) in d ==>
      var f := d[Record(Submitting, name)]; f.Stored? && Bound(f.op) && f.op.state == In(Submitting)
  }

  /** How a reconciliation pass counts one operation. */
  datatype Tally = Delivered | InFlight | DeferredPoll | AwaitingReconciliation

  /** The stored state does not claim a directory the record is not in. A crash between writing a
      receipt's state and moving the record breaks this. */
  predicate Tidy(slot: Slot, op: MemoryOperation)
    requires slot.Record?
  {
    if slot.dir == Accepted then op.state == In(Accepted)
    else op.state !in {In(Accepted), In(Completed), In(Rejected)}
  }

  predicate Listed(dir: MemoryDir) {
    dir.Submitting? || dir.Accepted? || dir.Pending?
  }

  /** The records of this name that a pass lists are tidy. */
  ghost predicate TidyName(d: Disk, name: string) {
    forall dir | Listed(dir) :: TidyAt(d, Record(dir, name))
  }

  predicate TidyAt(d: Disk, slot: Slot)
    requires slot.Record?
  {
    slot in d && d[slot].Stored? ==> Tidy(slot, d[slot].op)
  }

  ghost predicate TidyQueue(d: Disk) {
    forall name, dir | Listed(dir) :: TidyAt(d, Record(dir, name))
  }

  /** What began tidy ends tidy. */
  ghost predicate KeepsTidy(d: Disk, d': Disk) {
    TidyQueue(d) ==> TidyQueue(d')
  }

  /** A record that was there before stays tidy if it is the same, and one that came in is tidy. */
  lemma SlotStaysTidy(d: Disk, d': Disk, slot: Slot)
    requires slot.Record? && TidyAt(d, slot)
    requires slot in d && slot in d' ==> d'[slot] == d[slot]
    requires slot in d' && slot !in d ==> BroughtIn(d, d', slot)
    ensures TidyAt(d', slot)
  {
  }

  lemma OnlyKeepsTidy(d: Disk, d': Disk, name: string)
    requires Only(d, d', name) && (TidyName(d, name) ==> TidyName(d', name))
    ensures KeepsTidy(d, d')
  {
    if TidyQueue(d) {
      assert TidyName(d, name);
      forall n, dir | Listed(dir)
        ensures TidyAt(d', Record(dir, n))
      {
        assert TidyAt(d, Record(dir, n));
        if n != name {
          SlotStaysTidy(d, d', Record(dir, n));
        }
      }
    }
  }

  /** What a tally says about the record that was at `slot`. */
  ghost predicate TallyMeans(d: Disk, d': Disk, slot: Slot, tally: Tally)
    requires slot.Record? && slot in d
  {
    match tally
    case DeferredPoll => SameFamily(d, d', slot.name)
    case Delivered =>
      slot !in d' && exists dir ::
        dir in {Accepted, Completed, Rejected} && dir != slot.dir && Record(dir, slot.name) in d'
    case InFlight => slot.dir == Accepted && slot in d' && d'[slot].Stored? && d'[slot].op.state == In(Accepted)
    case AwaitingReconciliation => slot in d' || Record(Submitting, slot.name) in d'
  }

  /** A receipt counts as a transition exactly when it moves the record, for every receipt, if and only
      if the record is tidy: that is when delivery counts are exact. */
  lemma CountsExactWhenTidy(slot: Slot, op: MemoryOperation)
    requires slot.Record? && slot.dir in {Submitting, Accepted, Pending}
    ensures Tidy(slot, op) <==>
            forall receipt: Receipt | Destination(receipt.state).Some? ::
              OutcomeOf(op, receipt) == Transitioned <==> Destination(receipt.state).value != slot.dir
  {
    if !Tidy(slot, op) {
      var state := match op.state
        case In(Accepted) => Underway(Planned)
        case In(Completed) => Committed
        case In(Rejected) => Refused
        case _ => Underway(Planned);
      var receipt := Receipt("", 2, AddMemory, Foreign(""), [], state, None, 0, At(0), At(0));
      assert Destination(receipt.state).Some?;
      assert (OutcomeOf(op, receipt) == Transitioned) != (Destination(receipt.state).value != slot.dir);
    }
  }

  /** An untidy record can arise: the first file operation of applying a receipt to a tidy accepted record
      keeps the rules, and a stop right after it leaves a record whose next receipt moves it and is not
      counted as delivered. */
  lemma StopMiscounts(w: World, name: string, op: MemoryOperation, receipt: Receipt, now: int, next: Receipt)
    requires Record(Accepted, name) in w.disk && w.disk[Record(Accepted, name)] == Stored(op)
    requires Bound(op) && op.state == In(Accepted) && receipt.state == Committed == next.state
    ensures var slot, after := Record(Accepted, name), Applied(op, receipt, now);
            var e := Wrote(slot, Stored(after));
            && Safe(w, e) && slot in Apply(w, e).disk && Apply(w, e).disk[slot] == Stored(after)
            && Tidy(slot, op) && !Tidy(slot, after)
            && Destination(next.state).value != slot.dir && OutcomeOf(after, next) != Transitioned
  {
    AppliedIsSame(w.disk[Record(Accepted, name)], op, receipt, now);
  }

  /** Where `locate_memory_operation` finds a record again: at its slot, else in the first of six directories. */
  function Locate(d: Disk, slot: Slot): (found: Option<Slot>)
    requires slot.Record?
    ensures slot in d ==> found == Some(slot)
    ensures slot !in d ==>
      found == FirstIn(d, [Submitting, Accepted, Pending, Completed, Rejected, Stalled], slot.name)
  {
    if slot in d then Some(slot) else FirstIn(d, [Submitting, Accepted, Pending, Completed, Rejected, Stalled],
        slot.name)
  }

  function FirstIn(d: Disk, dirs: seq<MemoryDir>, name: string): (r: Option<Slot>)
    ensures r.Some? ==> r.value.Record? && r.value in d && r.value.name == name && r.value.dir in dirs
    ensures r.None? ==> forall dir | dir in dirs :: Record(dir, name) !in d
  {
    if dirs == [] then None
    else if Record(dirs[0], name) in d then Some(Record(dirs[0], name))
    else FirstIn(d, dirs[1..], name)
  }

  function ErrorText(e: Failure): string {
    match e
    case Transport => "transport failure"
    case LedgerNotReady => "memory operation ledger is not explicitly ready"
    case LedgerRefused => "the ledger refused the request"
    case ReceiptMismatch => "receipt contract, identity, or payload hash does not match local operation"
    case UnknownReceiptState => "operation receipt has unknown state"
    case HashMismatch => "stored payload hash does not match normalized operation payload"
    case MalformedArguments => "malformed arguments"
    case UnsupportedOperation => "unsupported memory method"
    case _ => "unreadable record"
  }

  // ---------------------------------------------------------------------------
  // One pass over the listed records.
  // ---------------------------------------------------------------------------

  /** The first `k` listed directories were passed: every name they held at the start has an outcome,
      and so has every name that is still being submitted. */
  ghost predicate Passed(start: Disk, d: Disk, outcomes: map<string, Tally>, k: nat)
    requires k <= 3
  {
    && (forall j, n | 0 <= j < k && Record(LISTED[j], n) in start :: n in outcomes)
    && (k > 0 ==> forall n | Record(Submitting, n) in d :: n in outcomes)
  }

  /** A record that a pass lists cannot be read. */
  ghost predicate SomeUnreadable(d: Disk, project: string) {
    exists dir, n :: dir in LISTED && Record(dir, n) in d && !Readable(d[Record(dir, n)], project)
  }

  /** Every name with an outcome was listed at the start, or came in during the pass. */
  ghost predicate AllListed(start: Disk, outcomes: map<string, Tally>) {
    forall n | n in outcomes :: FirstIn(start, LISTED, n).Some? || Absent(start, n)
  }

  lemma PassedOne(start: Disk, d: Disk, before: map<string, Tally>, after: map<string, Tally>, k: nat)
    requires k < 3 && before.Keys <= after.Keys
    requires forall j, n | 0 <= j < k && Record(LISTED[j], n) in start :: n in before
    requires forall n | Record(LISTED[k], n) in start :: n in after
    requires forall n | Record(Submitting, n) in d :: n in after
    ensures Passed(start, d, after, k + 1)
  {
  }

  lemma StillListed(start: Disk, before: map<string, Tally>, after: map<string, Tally>, k: nat)
    requires k < 3 && AllListed(start, before)
    requires forall n | n in after && n !in before :: Record(LISTED[k], n) in start || Absent(start, n)
    ensures AllListed(start, after)
  {
  }

  /** The memory files named `name` are the same on both disks. */
  ghost predicate SameFamily(d: Disk, d': Disk, name: string) {
    forall s | IsMemory(s) && s.name == name :: (s in d <==> s in d') && (s in d ==> d'[s] == d[s])
  }

  /** The disk once the record read at `slot` is ready to be sent: a pending one is marked and moved
      to `memory/submitting`, any other stays. */
  function Begun(d: Disk, slot: Slot, read: MemoryOperation): Disk
    requires slot.Record?
  {
    if read.state == In(Pending) then (d - {slot})[Record(Submitting, slot.name) := Stored(Started(read))] else d
  }

  lemma BegunByMove(d: Disk, marked: Disk, d': Disk, slot: Slot, file: File)
    requires slot.Record? && slot.dir != Submitting && slot in marked && marked[slot] == file
    requires forall s | IsMemory(s) && s.name == slot.name && s != slot ::
        (s in marked <==> s in d) && (s in marked ==> marked[s] == d[s])
    requires slot !in d' && Record(Submitting, slot.name) in d' && d'[Record(Submitting, slot.name)] == file
    requires forall s | IsMemory(s) && s.name == slot.name && s != slot && s != Record(Submitting, slot.name) ::
               (s in d' <==> s in marked) && (s in d' ==> d'[s] == marked[s])
    ensures SameFamily((d - {slot})[Record(Submitting, slot.name) := file], d', slot.name)
  {
  }

  /** Why an exchange with the server yields no receipt, if it does not; `known` says whether the
      ledger has the operation. */
  function NetError(known: bool, net: Conversation): Option<Failure> {
    match net.lookup
    case LookupTimedOut => Some(Transport)
    case LookupFailed => Some(LedgerRefused)
    case LookupAnswered =>
      if known then None
      else match net.ready
        case ReadyTimedOut => Some(Transport)
        case NotReady => Some(LedgerNotReady)
        case Ready =>
          match net.submit
          case RequestLost => Some(Transport)
          case ReplyLost(_) => Some(Transport)
          case SubmitRefused => Some(LedgerRefused)
          case ReplyUnusable(_) => Some(LedgerRefused)
          case SubmitAnswered(_) => None
  }

  /** Why an exchange ends without a receipt: no answer in time at any step, an answer other than the one
      asked for, or a ledger that does not declare itself ready. */
  predicate FailsWith(known: bool, net: Conversation, e: Failure) {
    if net.lookup == LookupTimedOut then e == Transport
    else if net.lookup == LookupFailed then e == LedgerRefused
    else
      && !known
      && if net.ready == ReadyTimedOut then e == Transport
         else if net.ready == NotReady then e == LedgerNotReady
         else if net.submit == RequestLost || net.submit.ReplyLost? then e == Transport
         else (net.submit.SubmitRefused? || net.submit.ReplyUnusable?) && e == LedgerRefused
  }

  lemma FailsExactly(known: bool, net: Conversation, e: Failure)
    ensures NetError(known, net) == Some(e) <==> FailsWith(known, net, e)
  {
  }

  lemma NoFailure(known: bool, net: Conversation)
    ensures NetError(known, net).None? <==> forall e :: !FailsWith(known, net, e)
  {
    forall e
      ensures NetError(known, net) == Some(e) <==> FailsWith(known, net, e)
    {
      FailsExactly(known, net, e);
    }
    if NetError(known, net).Some? {
      FailsExactly(known, net, NetError(known, net).value);
    }
  }

  /** Whether the exchange gets as far as a submission. */
  predicate Sends(known: bool, net: Conversation) {
    !known && net.lookup == LookupAnswered && net.ready == Ready
  }

  /** What the exchange sends. */
  function Requested(known: bool, net: Conversation, op: MemoryOperation): seq<Request>
    requires op.payloadHash.Some?
  {
    if Sends(known, net) then [RequestOf(op)] else []
  }

  /** Whether the exchange opens the operation in the ledger, and with which receipt. */
  function OpensWith(known: bool, net: Conversation): Option<Receipt> {
    if known || net.lookup != LookupAnswered || net.ready != Ready then None
    else match net.submit
      case ReplyLost(receipt) => Some(receipt)
      case ReplyUnusable(receipt) => Some(receipt)
      case SubmitAnswered(receipt) => Some(receipt)
      case _ => None
  }

  lemma SettledLooksAtFamily(d: Disk, e: Disk, d': Disk, place: Slot, op: MemoryOperation, destination: MemoryDir)
    requires place.Record? && SameFamily(d, e, place.name) && Settled(d, d', place, op, destination)
    ensures Settled(e, d', place, op, destination)
  {
    if place != Record(destination, place.name) && Record(destination, place.name) in d {
      var kept :| kept in d' && kept !in d && kept.PreservedRecord? && kept.name == place.name
          && d'[kept] == Stored(op);
      assert kept !in e;
    }
    forall dir | dir != place.dir && dir != destination
      ensures SameFileAt(e, d', Record(dir, place.name))
    {
      assert IsMemory(Record(dir, place.name));
    }
  }

  /** What a settled record means for the counts, and that it has left `memory/submitting`. */
  lemma SettledMeans(d: Disk, d': Disk, slot: Slot, read: MemoryOperation, receipt: Receipt, now: int)
    requires slot.Record? && slot in d && slot.dir in {Submitting, Accepted, Pending}
        && Destination(receipt.state).Some?
    requires slot.dir == Submitting ==> read.state == In(Submitting)
    requires slot.dir != Submitting ==> Record(Submitting, slot.name) !in d
    requires Settled(Begun(d, slot, read), d', StartedAt(slot, read), Applied(Started(read), receipt, now),
        Destination(receipt.state).value)
    ensures ReadyAt(d', slot.name)
    ensures Tidy(slot, read) ==>
              TallyMeans(d, d', slot, if OutcomeOf(Started(read), receipt) == Transitioned then Delivered else InFlight)
  {
    var place, dest := StartedAt(slot, read), Destination(receipt.state).value;
    assert dest in {Accepted, Completed, Rejected};
    if dest != slot.dir {
      assert Record(dest, slot.name) in d';
    }
  }

  /** What a failed reconciliation leaves: the record where it was or in `memory/submitting`. It is
      found there again, and noting the error on it fails only for a record that cannot be read. */
  lemma FailedMeans(d: Disk, mid: Disk, slot: Slot, read: Result<MemoryOperation, Failure>, project: string)
    requires slot.Record? && slot in d && slot.dir in {Submitting, Accepted, Pending}
        && read == ReadOperation(d[slot], project)
    requires SubmittingReady(d) && (slot.dir != Submitting ==> Record(Submitting, slot.name) !in d)
    requires SameFamily(if read.Ok? then Begun(d, slot, read.value) else d, mid, slot.name)
    ensures var found := Locate(mid, slot);
            && found.Some?
            && found.value == (if read.Ok? then StartedAt(slot, read.value) else slot)
            && (read.Err? ==> ReadOperation(mid[found.value], project) == read && mid[found.value] == d[slot])
            && (read.Ok? ==> ReadOperation(mid[found.value], project) == Ok(Started(read.value)))
  {
    assert IsMemory(slot) && IsMemory(Record(Submitting, slot.name)) && ReadyAt(d, slot.name);
    if read.Ok? {
      ReadingSettles(d[slot].op, project, project);
      if read.value.state == In(Pending) {
        assert mid[Record(Submitting, slot.name)] == Stored(Started(read.value));
        assert slot !in mid;
        assert Locate(mid, slot) == Some(Record(Submitting, slot.name));
        ReadingSettles(Started(read.value), project, project);
      } else {
        assert mid[slot] == d[slot];
      }
    }
  }

  lemma NotedMeans(d: Disk, mid: Disk, d': Disk, slot: Slot, read: MemoryOperation, project: string, error: string)
    requires slot.Record? && slot in d && slot.dir in {Submitting, Accepted, Pending}
        && ReadOperation(d[slot], project) == Ok(read)
    requires SubmittingReady(d) && (slot.dir != Submitting ==> Record(Submitting, slot.name) !in d)
    requires SameFamily(Begun(d, slot, read), mid, slot.name)
    requires SameFamily(mid[StartedAt(slot, read) := Stored(Started(read).(lastError := Some(error)))], d', slot.name)
    ensures ReadyAt(d', slot.name) && TallyMeans(d, d', slot, AwaitingReconciliation)
    ensures var place := StartedAt(slot, read);
            place in d' && d'[place].Stored? && d'[place].op.lastError == Some(error)
  {
    assert IsMemory(slot) && IsMemory(Record(Submitting, slot.name)) && ReadyAt(d, slot.name);
    ReadingSettles(d[slot].op, project, project);
    assert StartedAt(slot, read) in d';
    if read.state != In(Pending) && slot.dir != Submitting {
      assert Record(Submitting, slot.name) !in mid;
    }
  }

  /** In a pass that starts tidy every tally means what it says. */
  ghost predicate TalliesExact(d: Disk, d': Disk, outcomes: map<string, Tally>, project: string) {
    forall n | n in outcomes && FirstIn(d, LISTED, n).Some? && Readable(d[FirstIn(d, LISTED, n).value], project) ::
      TallyMeans(d, d', FirstIn(d, LISTED, n).value, outcomes[n])
  }

  lemma TidyTalliesExact(d: Disk, d': Disk, outcomes: map<string, Tally>, project: string)
    requires Progress(d, d', outcomes, project)
    ensures TidyQueue(d) ==> TalliesExact(d, d', outcomes, project)
  {
    if TidyQueue(d) {
      forall n | n in outcomes && FirstIn(d, LISTED, n).Some? && Readable(d[FirstIn(d, LISTED, n).value], project)
        ensures TallyMeans(d, d', FirstIn(d, LISTED, n).value, outcomes[n])
      {
        var slot := FirstIn(d, LISTED, n).value;
        assert VisitedMeans(d, d', n, outcomes[n], project);
        assert slot == Record(slot.dir, n) && Listed(slot.dir) && TidyAt(d, slot);
      }
    }
  }

  // -- Tidiness, step by step ----------------------------------------------------

  lemma SettledTidy(d: Disk, d': Disk, slot: Slot, read: MemoryOperation, receipt: Receipt, now: int)
    requires slot.Record? && slot in d && slot.dir in {Submitting, Accepted, Pending}
        && Destination(receipt.state).Some?
    requires slot.dir != Submitting ==> Record(Submitting, slot.name) !in d
    requires Settled(Begun(d, slot, read), d', StartedAt(slot, read), Applied(Started(read), receipt, now),
        Destination(receipt.state).value)
    ensures TidyName(d, slot.name) ==> TidyName(d', slot.name)
  {
    var begun, place, dest := Begun(d, slot, read), StartedAt(slot, read), Destination(receipt.state).value;
    if TidyName(d, slot.name) {
      forall dir | Listed(dir)
        ensures TidyAt(d', Record(dir, slot.name))
      {
        var s := Record(dir, slot.name);
        assert TidyAt(d, s);
        if dir != place.dir && dir != dest {
          assert SameFileAt(begun, d', s);
        }
      }
    }
  }

  lemma FamilyTidy(d: Disk, d': Disk, name: string)
    requires SameFamily(d, d', name)
    ensures TidyName(d, name) ==> TidyName(d', name)
  {
    if TidyName(d, name) {
      forall dir | Listed(dir)
        ensures TidyAt(d', Record(dir, name))
      {
        assert TidyAt(d, Record(dir, name)) && IsMemory(Record(dir, name));
      }
    }
  }

  lemma NotedTidy(d: Disk, mid: Disk, d': Disk, slot: Slot, read: MemoryOperation, project: string, error: string)
    requires slot.Record? && slot in d && slot.dir in {Submitting, Accepted, Pending}
        && ReadOperation(d[slot], project) == Ok(read)
    requires SameFamily(Begun(d, slot, read), mid, slot.name)
    requires SameFamily(mid[StartedAt(slot, read) := Stored(Started(read).(lastError := Some(error)))], d', slot.name)
    ensures TidyName(d, slot.name) ==> TidyName(d', slot.name)
  {
    if TidyName(d, slot.name) {
      forall dir | Listed(dir)
        ensures TidyAt(d', Record(dir, slot.name))
      {
        assert TidyAt(d, Record(dir, slot.name)) && IsMemory(Record(dir, slot.name)) && TidyAt(d, slot);
      }
    }
  }

  lemma RelocatedTidy(d: Disk, d': Disk, plan: map<string, Relocation>)
    requires Relocating(d, d', plan, {})
    requires forall n | n in plan && Listed(plan[n].target) :: Tidy(Record(plan[n].target, n), plan[n].op)
    ensures KeepsTidy(d, d')
  {
    if TidyQueue(d) {
      forall n, dir | Listed(dir)
        ensures TidyAt(d', Record(dir, n))
      {
        var s := Record(dir, n);
        assert TidyAt(d, s) && IsMemory(s);
        if n in plan {
          assert RelocatedAt(d, d', n, plan[n]);
        } else {
          SlotStaysTidy(d, d', s);
        }
      }
    }
  }

  lemma ParkedTidy(d: Disk, d': Disk, stale: map<string, MemoryOperation>)
    requires Relocating(d, d', QuarantinePlan(stale), {})
    ensures KeepsTidy(d, d')
  {
    RelocatedTidy(d, d', QuarantinePlan(stale));
  }

  lemma ReleasedTidy(d: Disk, d': Disk, chosen: map<string, MemoryOperation>, now: int)
    requires Relocating(d, d', ReleasePlan(chosen, now), {})
    ensures KeepsTidy(d, d')
  {
    RelocatedTidy(d, d', ReleasePlan(chosen, now));
  }

  /** Every queued job of `d` is pending in `d'`. */
  ghost predicate Requeued(d: Disk, d': Disk) {
    forall n, dir | Queued(dir) && JobSlot(dir, n) in d :: JobSlot(JobPending, n) in d'
  }

  lemma BothReturned(d: Disk, mid: Disk, d': Disk, reason: string, legacy: string)
    requires JobFrame(d, mid, JobProcessing) && JobFrame(mid, d', JobRetry)
    requires forall n | JobSlot(JobProcessing, n) in d :: ReturnedAt(d, mid, JobSlot(JobProcessing, n), reason)
    requires forall n | JobSlot(JobRetry, n) in mid :: ReturnedAt(mid, d', JobSlot(JobRetry, n), legacy)
    ensures Requeued(d, d')
    ensures forall n | JobSlot(JobProcessing, n) in d :: ReturnedAt(d, d', JobSlot(JobProcessing, n), reason)
  {
    forall n | JobSlot(JobProcessing, n) in d
      ensures ReturnedAt(d, d', JobSlot(JobProcessing, n), reason)
    {
      if JobSlot(JobPending, n) in d {
        var millis :| KeptJob(d, mid, JobSlot(JobProcessing, n), PreservedJob(n, reason, millis));
        assert KeptJob(d, d', JobSlot(JobProcessing, n), PreservedJob(n, reason, millis));
      }
    }
  }

  lemma JobFrameTidy(d: Disk, d': Disk, dir: JobDir)
    requires JobFrame(d, d', dir)
    ensures KeepsTidy(d, d')
  {
    if TidyQueue(d) {
      forall n, dir | Listed(dir)
        ensures TidyAt(d', Record(dir, n))
      {
        assert TidyAt(d, Record(dir, n));
        SlotStaysTidy(d, d', Record(dir, n));
      }
    }
  }

  lemma EnlargedTidy(d: Disk, d': Disk)
    requires MemoryEnlarged(d, d')
    ensures KeepsTidy(d, d')
  {
    if TidyQueue(d) {
      forall n, dir | Listed(dir)
        ensures TidyAt(d', Record(dir, n))
      {
        assert TidyAt(d, Record(dir, n)) && IsMemory(Record(dir, n));
      }
    }
  }

  /** Midway through the recovery of `memory/submitting`, or at its end. */
  lemma RecoveringTidy(d: Disk, d': Disk, names: set<string>, project: string)
    requires Frame(d, d', {Submitting}) && Recovering(d, d', names, project)
    ensures KeepsTidy(d, d')
  {
    if TidyQueue(d) {
      forall n, dir | Listed(dir)
        ensures TidyAt(d', Record(dir, n))
      {
        var s := Record(dir, n);
        assert TidyAt(d, s);
        if dir == Submitting {
          assert s in d' && n !in names ==> RecoveredAt(d, d', n, project);
        } else {
          SlotStaysTidy(d, d', s);
        }
      }
    }
  }

  lemma MigratedTidy(d: Disk, d': Disk)
    requires Frame(d, d', {Retry, Pending}) && PendingGrows(d, d')
    ensures KeepsTidy(d, d')
  {
    if TidyQueue(d) {
      forall n, dir | Listed(dir)
        ensures TidyAt(d', Record(dir, n))
      {
        var s := Record(dir, n);
        assert TidyAt(d, s);
        if dir != Pending {
          SlotStaysTidy(d, d', s);
        }
      }
    }
  }

  lemma StaysReady(d: Disk, d': Disk, name: string)
    requires SubmittingReady(d) && Only(d, d', name) && ReadyAt(d', name)
    ensures SubmittingReady(d')
  {
    forall n | n != name
      ensures ReadyAt(d', n)
    {
      assert ReadyAt(d, n);
    }
  }

  lemma SettledEnds(d: Disk, d': Disk, slot: Slot, read: MemoryOperation, receipt: Receipt, now: int)
    requires slot.Record? && slot in d && slot.dir in {Submitting, Accepted, Pending}
        && Destination(receipt.state).Some?
    requires slot.dir == Submitting ==> read.state == In(Submitting)
    requires slot.dir != Submitting ==> Record(Submitting, slot.name) !in d
    requires Settled(Begun(d, slot, read), d', StartedAt(slot, read), Applied(Started(read), receipt, now),
        Destination(receipt.state).value)
    requires SubmittingReady(d) && Only(d, d', slot.name)
    ensures SubmittingReady(d') && KeepsTidy(d, d')
    ensures Tidy(slot, read) ==>
              TallyMeans(d, d', slot, if OutcomeOf(Started(read), receipt) == Transitioned then Delivered else InFlight)
  {
    SettledMeans(d, d', slot, read, receipt, now);
    SettledTidy(d, d', slot, read, receipt, now);
    OnlyKeepsTidy(d, d', slot.name);
    StaysReady(d, d', slot.name);
  }

  // ---------------------------------------------------------------------------
  // Recovery, record by record.
  // ---------------------------------------------------------------------------

  /** Midway through the recovery of `memory/submitting`: the records in `names` are untouched, the
      others were read and normalized. */
  ghost predicate Recovering(d: Disk, d': Disk, names: set<string>, project: string) {
    && (forall n :: Record(Submitting, n) in d' <==> Record(Submitting, n) in d)
    && (forall n | n in names :: Record(Submitting, n) in d && d'[Record(Submitting, n)] == d[Record(Submitting, n)])
    && (forall n | Record(Submitting, n) in d && n !in names :: RecoveredAt(d, d', n, project))
  }

  ghost predicate RecoveredAt(d: Disk, d': Disk, name: string, project: string)
    requires Record(Submitting, name) in d && Record(Submitting, name) in d'
  {
    var read := ReadOperation(d[Record(Submitting, name)], project);
    read.Ok? && d'[Record(Submitting, name)] == Stored(read.value.(state := In(Submitting)))
  }

  lemma RecoveringStep(d: Disk, mid: Disk, d': Disk, names: set<string>, name: string, project: string)
    requires Recovering(d, mid, names, project) && name in names && Only(mid, d', name)
    requires Record(Submitting, name) in d' && RecoveredAt(d, d', name, project)
    ensures Recovering(d, d', names - {name}, project)
  {
  }

  lemma Recovered(d: Disk, d': Disk, project: string)
    requires Recovering(d, d', {}, project)
    ensures SubmittingReady(d')
    ensures forall n | Record(Submitting, n) in d :: RecoveredAt(d, d', n, project)
  {
    forall n | Record(Submitting, n) in d'
      ensures ReadyAt(d', n)
    {
      assert RecoveredAt(d, d', n, project);
      ReadingSettles(d[Record(Submitting, n)].op, project, project);
    }
  }

  /** The legacy record named `name` is pending again, or kept as a duplicate of the pending one. */
  ghost predicate MigratedAt(d: Disk, d': Disk, name: string, project: string)
    requires Record(Retry, name) in d
  {
    var source, target := Record(Retry, name), Record(Pending, name);
    && target in d'
    && if target in d then
         d'[target] == d[target]
         && exists kept ::
           kept in d' && kept !in d && kept.PreservedRecord? && kept.name == name && d'[kept] == d[source]
       else
         var read := ReadOperation(d[source], project);
         read.Ok? && d'[target] == Stored(read.value.(state := In(Pending), lastError := None))
  }

  lemma OnlyGrowsPending(d: Disk, d': Disk, name: string)
    requires Only(d, d', name)
    requires var slot := Record(Pending, name);
             && (slot in d ==> slot in d' && d'[slot] == d[slot])
             && (slot in d' && slot !in d ==> IsNewRecord(d'[slot]))
    ensures PendingGrows(d, d')
  {
    forall n | Record(Pending, n) in d' && Record(Pending, n) !in d && n != name
      ensures IsNewRecord(d'[Record(Pending, n)])
    {
      assert BroughtIn(d, d', Record(Pending, n));
    }
  }

  /** No pending record changed; new ones are bound to their payload. */
  ghost predicate PendingGrows(d: Disk, d': Disk) {
    forall n ::
      var slot := Record(Pending, n);
      && (slot in d ==> slot in d' && d'[slot] == d[slot])
      && (slot in d' && slot !in d ==> IsNewRecord(d'[slot]))
  }

  ghost predicate Migrating(d: Disk, d': Disk, names: set<string>, project: string) {
    && (forall n :: Record(Retry, n) in d' <==> n in names)
    && (forall n | n in names :: Record(Retry, n) in d && SameFamily(d, d', n))
    && (forall n | Record(Retry, n) in d && n !in names ::
          && MigratedAt(d, d', n, project)
          && (Record(Pending, n) in d || Readable(d[Record(Retry, n)], project)))
  }

  lemma MigratingStep(d: Disk, mid: Disk, d': Disk, names: set<string>, name: string, project: string)
    requires Migrating(d, mid, names, project) && name in names && Only(mid, d', name)
    requires Record(Retry, name) !in d' && Record(Retry, name) in mid && MigratedAt(mid, d', name, project)
    requires Record(Pending, name) in mid || Readable(mid[Record(Retry, name)], project)
    ensures Migrating(d, d', names - {name}, project)
  {
    assert IsMemory(Record(Retry, name)) && IsMemory(Record(Pending, name));
    assert MigratedAt(d, d', name, project);
    forall n | n != name && n in names
      ensures SameFamily(d, d', n)
    {
      assert Record(Retry, n) in mid;
      OnlyKeepsFamily(mid, d', name, n);
    }
    forall n | Record(Retry, n) in d && n !in names
      ensures MigratedAt(d, d', n, project)
    {
      assert Record(Pending, n) in mid;
      OnlyKeepsFamily(mid, d', name, n);
      assert IsMemory(Record(Pending, n));
    }
  }

  // ---------------------------------------------------------------------------
  // Jobs, file by file.
  // ---------------------------------------------------------------------------

  function JobFiles(d: Disk, dir: JobDir): (names: set<string>)
    ensures forall n :: n in names <==> JobSlot(dir, n) in d
  {
    set s | s in d && s.JobSlot? && s.jobDir == dir :: s.name
  }

  /** The files a job named `name` accounts for: its own, its wiki page and its memory operation. */
  predicate OfJob(name: string, file: File, s: Slot) {
    || (s.JobSlot? && s.name == name && s.jobDir != JobPending && s.jobDir != JobRetry)
    || (s.PreservedJob? && s.name == name)
    || (file.JobFile? && (s == WikiPage(file.job.base, EntryId(file.job.eventId))
      || s == Record(Pending, file.job.eventId)))
  }

  /** From `d` to `d'` the job named `name` moved between queue directories and its own files were
      added; the rest is as it was, apart from what other programs brought in. */
  ghost predicate TouchFrame(d: Disk, d': Disk, name: string, file: File) {
    && (forall s | s in d && !(s.JobSlot? && s.name == name && Queued(s.jobDir)) && s != JobSlot(JobRejected, name) ::
      s in d' && d'[s] == d[s])
    && (forall s | s in d' && s !in d && !OfJob(name, file, s) ::
      BroughtIn(d, d', s) && (s.JobSlot? ==> NameFree(d, s.name)))
    && (forall s | s in d' && s !in d && s.Record? :: s.dir == Pending && IsNewRecord(d'[s]))
  }

  /** Jobs for new events that came in are not for events of the jobs that waited in `pending`. */
  ghost predicate NewsOnly(d: Disk, d': Disk, name: string) {
    forall s, n | s in d' && s !in d && s.JobSlot? && s.name != name && n != name && Original(d', s)
      && Waiting(d, JobSlot(JobPending, n)) ::
      d[JobSlot(JobPending, n)].job.eventId != d'[s].job.eventId
  }

  ghost predicate JobTouch(d: Disk, d': Disk, name: string, file: File) {
    TouchFrame(d, d', name, file) && NewsOnly(d, d', name)
  }

  lemma PendingStaysWaiting(d: Disk, d': Disk, name: string, file: File, n: string)
    requires TouchFrame(d, d', name, file) && n != name && Waiting(d, JobSlot(JobPending, n))
    ensures Waiting(d', JobSlot(JobPending, n)) && d'[JobSlot(JobPending, n)] == d[JobSlot(JobPending, n)]
  {
    assert !OfJob(name, file, JobSlot(JobCompleted, n));
  }

  lemma NewsOnlyTwice(a: Disk, b: Disk, c: Disk, name: string, file: File)
    requires JobTouch(a, b, name, file) && JobTouch(b, c, name, file)
    ensures NewsOnly(a, c, name)
  {
    forall s, n | s in c && s !in a && s.JobSlot? && s.name != name && n != name && Original(c, s)
      && Waiting(a, JobSlot(JobPending, n))
      ensures a[JobSlot(JobPending, n)].job.eventId != c[s].job.eventId
    {
      PendingStaysWaiting(a, b, name, file, n);
      if s in b {
        assert Original(b, s);
      }
    }
  }

  lemma TouchFrameTwice(a: Disk, b: Disk, c: Disk, name: string, file: File)
    requires TouchFrame(a, b, name, file) && TouchFrame(b, c, name, file) && !NameFree(b, name)
    ensures TouchFrame(a, c, name, file)
  {
    forall s | s in c && s !in a && !OfJob(name, file, s)
      ensures BroughtIn(a, c, s) && (s.JobSlot? ==> NameFree(a, s.name))
    {
      if s in b {
        assert BroughtIn(a, b, s);
      } else {
        assert BroughtIn(b, c, s);
      }
    }
  }

  lemma JobTouchTwice(a: Disk, b: Disk, c: Disk, name: string, file: File)
    requires JobTouch(a, b, name, file) && JobTouch(b, c, name, file) && !NameFree(b, name)
    ensures JobTouch(a, c, name, file)
  {
    TouchFrameTwice(a, b, c, name, file);
    NewsOnlyTwice(a, b, c, name, file);
  }

  lemma StepIsTouch(d: Disk, d': Disk, source: Slot, target: Slot, file: File)
    requires source.JobSlot? && Queued(source.jobDir) && JobStep(d, d', source, target)
        && OfJob(source.name, file, target)
    requires target in d ==> target == JobSlot(JobRejected, source.name)
    requires (target.JobSlot? || target.PreservedJob?) && target.name == source.name
    ensures JobTouch(d, d', source.name, file)
  {
    assert TouchFrame(d, d', source.name, file);
    forall s, n | s in d' && s !in d && s.JobSlot? && s.name != source.name && n != source.name && Original(d', s)
      && Waiting(d, JobSlot(JobPending, n))
      ensures d[JobSlot(JobPending, n)].job.eventId != d'[s].job.eventId
    {
      assert !Awaited(d, d'[s].job.eventId);
    }
  }

  lemma WriteIsTouch(d: Disk, mid: Disk, slot: Slot, written: File, name: string, file: File)
    requires Grown(d, mid) && slot !in d && OfJob(name, file, slot) && !NameFree(d, name)
    requires slot.WikiPage? || (slot.Record? && slot.dir == Pending && IsNewRecord(written))
    ensures JobTouch(d, mid[slot := written], name, file)
  {
    var d' := mid[slot := written];
    forall s | s in mid && s !in d && s != slot
      ensures BroughtIn(d, d', s) && (s.JobSlot? ==> NameFree(d, s.name))
    {
      assert Arrived(d, mid, s);
    }
    forall s, n | s in d' && s !in d && s.JobSlot? && s.name != name && n != name && Original(d', s)
      && Waiting(d, JobSlot(JobPending, n))
      ensures d[JobSlot(JobPending, n)].job.eventId != d'[s].job.eventId
    {
      assert Original(mid, s) && Arrived(d, mid, s) && !Awaited(d, d'[s].job.eventId);
    }
  }

  lemma NoTouch(d: Disk, name: string, file: File)
    ensures JobTouch(d, d, name, file)
  {
  }

  /** Where a step outside the queue (packet, store, index, snapshot, learning log) fails, if any does. */
  datatype JobFault = NoFault | BeforePage | AfterPage

  datatype JobFailure = UnreadableJob | UnsupportedSchema | StepFailed

  /** Where the job that was at `slot` is when processing has ended: completed with its operation
      queued, kept as a duplicate of a completed one, or still in `processing`. */
  ghost predicate JobEnds(d: Disk, d': Disk, slot: Slot, failed: Option<JobFailure>)
    requires slot.JobSlot? && slot in d
  {
    var file := d[slot];
    var processing, completed := JobSlot(JobProcessing, slot.name), JobSlot(JobCompleted, slot.name);
    if failed.Some? then
      processing in d' && d'[processing] == file && (completed in d' <==> completed in d)
    else
      && processing !in d' && completed in d'
      && if completed in d then exists millis :: KeptJob(d, d', slot,
        PreservedJob(slot.name, "duplicate-completed", millis))
         else d'[completed] == file && file.JobFile? && HasOperation(d', file)
  }

  lemma TakenEnds(d: Disk, taken: Disk, d': Disk, name: string, failed: Option<JobFailure>)
    requires JobStep(d, taken, JobSlot(JobPending, name), JobSlot(JobProcessing, name))
    requires JobEnds(taken, d', JobSlot(JobProcessing, name), failed)
    ensures JobEnds(d, d', JobSlot(JobPending, name), failed)
  {
    var pending, processing := JobSlot(JobPending, name), JobSlot(JobProcessing, name);
    assert JobSlot(JobCompleted, name) in taken <==> JobSlot(JobCompleted, name) in d;
    if failed.None? && JobSlot(JobCompleted, name) in taken {
      var millis :| KeptJob(taken, d', processing, PreservedJob(name, "duplicate-completed", millis));
      assert KeptJob(d, d', pending, PreservedJob(name, "duplicate-completed", millis));
    }
  }

  /** The job's operation is pending, or, for an event that had a record before, completed already. */
  predicate HasOperation(d: Disk, file: File)
    requires file.JobFile?
  {
    Record(Pending, file.job.eventId) in d || (file.repeat && Record(Completed, file.job.eventId) in d)
  }

  /** How processing the pending job ends. */
  function JobVerdict(d: Disk, name: string, file: File, fault: JobFault): (failed: Option<JobFailure>)
    ensures failed.None? <==>
      file.JobFile? && file.job.schemaVersion == 2 && (fault == NoFault || JobSlot(JobCompleted, name) in d)
    ensures failed == Some(UnsupportedSchema) <==> file.JobFile? && file.job.schemaVersion != 2
  {
    if !file.JobFile? then Some(UnreadableJob)
    else if file.job.schemaVersion != 2 then Some(UnsupportedSchema)
    else if JobSlot(JobCompleted, name) in d || fault == NoFault then None
    else Some(StepFailed)
  }

  /** A job file as it is published: for an event that is not new it is a repeat. */
  function Publication(d: Disk, name: string, job: LearningJob): File {
    JobFile(job, !IsNews(d, name, job.eventId))
  }

  lemma EnqueueIsSafe(d: Disk, slot: Slot, operation: MemoryOperation)
    requires Inv(d) && Waiting(d, slot) && Bound(operation)
    requires operation.state == In(Pending) && operation.operationId == d[slot].job.eventId
    requires Record(Pending, d[slot].job.eventId) !in d && Record(Completed, d[slot].job.eventId) !in d
    ensures SafeWrite(d, Record(Pending, d[slot].job.eventId), Stored(operation))
    ensures Awaited(d, d[slot].job.eventId)
  {
    if Original(d, slot) {
      assert Absent(d, d[slot].job.eventId);
    } else {
      assert RepeatEnqueues(d, d[slot].job.eventId);
    }
  }

  /** No queued job has this name. */
  predicate NameFree(d: Disk, name: string) {
    forall dir | Queued(dir) :: JobSlot(dir, name) !in d
  }

  /** The job file at `source` is now at `target`; other programs brought in the rest of what is new. */
  ghost predicate JobStep(d: Disk, d': Disk, source: Slot, target: Slot)
    requires source.JobSlot?
  {
    && source in d && source !in d' && target in d' && d'[target] == d[source]
    && (forall s | s in d && s != source && s != target :: s in d' && d'[s] == d[s])
    && (forall s | s in d' && s !in d && s != target ::
          && BroughtIn(d, d', s) && (s.JobSlot? ==> NameFree(d, s.name))
          && (Original(d', s) ==> !Awaited(d, d'[s].job.eventId)))
  }

  lemma GrownIsJobStep(d: Disk, mid: Disk, source: Slot, target: Slot)
    requires Grown(d, mid) && source.JobSlot? && Queued(source.jobDir) && source in d && source != target
    requires (target.JobSlot? || target.PreservedJob?) && target.name == source.name
    ensures JobStep(d, (mid - {source})[target := mid[source]], source, target)
  {
    var d' := (mid - {source})[target := mid[source]];
    forall s | s in d' && s !in d && s != target
      ensures BroughtIn(d, d', s) && (s.JobSlot? ==> NameFree(d, s.name))
      ensures Original(d', s) ==> !Awaited(d, d'[s].job.eventId)
    {
      assert Arrived(d, mid, s);
      assert Original(d', s) ==> Original(mid, s);
    }
  }

  /** Whatever else was calm stays calm, with the waiting job at `source` now at `target`. */
  ghost predicate KeepsCalm(d: Disk, d': Disk, source: Slot, target: Slot) {
    forall todo | JobReady(d, todo, source) :: JobReady(d', todo, target)
  }

  lemma KeepsCalmTwice(a: Disk, b: Disk, c: Disk, first: Slot, second: Slot, third: Slot)
    requires KeepsCalm(a, b, first, second) && KeepsCalm(b, c, second, third)
    ensures KeepsCalm(a, c, first, third)
  {
    forall todo | JobReady(a, todo, first)
      ensures JobReady(c, todo, third)
    {
      assert JobReady(b, todo, second);
    }
  }

  /** Once a job no longer waits, it does not matter under which slot it is counted. */
  lemma KeepsCalmGone(d: Disk, d': Disk, source: Slot, target: Slot)
    requires KeepsCalm(d, d', source, target) && !Waiting(d', target)
    ensures source !in d' ==> KeepsCalm(d, d', source, source)
    ensures forall todo | JobReady(d, todo, source) :: Calm(d', todo)
  {
    forall todo | JobReady(d, todo, source)
      ensures Calm(d', todo) && Calm(d', todo + {source})
    {
      assert JobReady(d', todo, target);
    }
  }

  lemma MovedStaysCalm(d: Disk, source: Slot, target: Slot, todo: set<Slot>)
    requires Calm(d, todo + {source}) && source in d && source.JobSlot? && Queued(source.jobDir) && !target.Record?
    ensures Calm((d - {source})[target := d[source]], todo + {target})
  {
    var d' := (d - {source})[target := d[source]];
    forall slot | Original(d', slot) && slot !in todo + {target}
      ensures Absent(d', d'[slot].job.eventId)
    {
      if target != JobSlot(JobCompleted, slot.name) {
        assert Waiting(d, slot);
      }
    }
  }

  lemma MovedStaysReady(d: Disk, source: Slot, target: Slot, todo: set<Slot>)
    requires JobReady(d, todo, source) && source in d && source.JobSlot? && Queued(source.jobDir)
    requires (target.JobSlot? || target.PreservedJob?) && target.name == source.name && source != target
    ensures JobReady((d - {source})[target := d[source]], todo, target)
  {
    var d' := (d - {source})[target := d[source]];
    MovedStaysCalm(d, source, target, todo);
    if Waiting(d', target) {
      assert Waiting(d, source);
      forall s | Original(d', s) && d'[s].job.eventId == d'[target].job.eventId
        ensures s in todo + {target}
      {
        assert s != target ==> Original(d, s);
      }
    }
  }

  /** From `d` to `d'` only jobs of `dir` went elsewhere. */
  ghost predicate JobFrame(d: Disk, d': Disk, dir: JobDir) {
    && (forall s | s in d && !(s.JobSlot? && s.jobDir == dir) :: s in d' && d'[s] == d[s])
    && (forall s | s in d' && s !in d :: BroughtIn(d, d', s) || s.PreservedJob?)
  }

  /** The job that was at `source` is pending again, or kept as a duplicate of the pending one. */
  ghost predicate ReturnedAt(d: Disk, d': Disk, source: Slot, reason: string)
    requires source.JobSlot? && source in d
  {
    var target := JobSlot(JobPending, source.name);
    && target in d'
    && if target in d then
         d'[target] == d[target] && exists millis :: KeptJob(d, d', source, PreservedJob(source.name, reason, millis))
       else d'[target] == d[source]
  }

  ghost predicate KeptJob(d: Disk, d': Disk, source: Slot, kept: Slot)
    requires source in d
  {
    kept !in d && kept in d' && d'[kept] == d[source]
  }

  ghost predicate Returning(d: Disk, d': Disk, dir: JobDir, names: set<string>, reason: string) {
    && (forall n :: JobSlot(dir, n) in d' <==> n in names)
    && (forall n | n in names :: JobSlot(dir, n) in d && d'[JobSlot(dir, n)] == d[JobSlot(dir, n)])
    && (forall n | n in names && JobSlot(JobPending, n) in d' :: JobSlot(JobPending, n) in d)
    && (forall n | JobSlot(dir, n) in d && n !in names :: ReturnedAt(d, d', JobSlot(dir, n), reason))
  }

  lemma ReturningStep(d: Disk, mid: Disk, d': Disk, dir: JobDir, names: set<string>, reason: string, name: string)
    requires dir in {JobProcessing, JobRetry} && JobFrame(d, mid, dir) && Returning(d, mid, dir, names, reason)
        && name in names
    requires var source, target := JobSlot(dir, name), JobSlot(JobPending, name);
             if target in mid then
               exists millis :: PreservedJob(name, reason, millis) !in mid
                 && JobStep(mid, d', source, PreservedJob(name, reason, millis))
             else JobStep(mid, d', source, target)
    ensures JobFrame(d, d', dir) && Returning(d, d', dir, names - {name}, reason)
  {
    var source, target := JobSlot(dir, name), JobSlot(JobPending, name);
    var end := target;
    if target in mid {
      var millis :| PreservedJob(name, reason, millis) !in mid
          && JobStep(mid, d', source, PreservedJob(name, reason, millis));
      end := PreservedJob(name, reason, millis);
      assert end !in d && KeptJob(d, d', source, end);
    }
    assert JobStep(mid, d', source, end);
    JobFrameStep(d, mid, d', dir, source, end);
    forall n | JobSlot(dir, n) in d && n !in names
      ensures ReturnedAt(d, d', JobSlot(dir, n), reason)
    {
      assert ReturnedAt(d, mid, JobSlot(dir, n), reason);
      ReturnedStays(d, mid, d', JobSlot(dir, n), reason, source, end);
    }
  }

  lemma JobFrameStep(d: Disk, mid: Disk, d': Disk, dir: JobDir, source: Slot, end: Slot)
    requires JobFrame(d, mid, dir) && source.JobSlot? && source.jobDir == dir && JobStep(mid, d', source, end)
    requires end !in mid && (end.PreservedJob? || (end.JobSlot? && end.jobDir == JobPending))
    ensures JobFrame(d, d', dir)
  {
    forall s | s in d' && s !in d
      ensures BroughtIn(d, d', s) || s.PreservedJob?
    {
      if s in mid {
        assert BroughtIn(d, mid, s) || s.PreservedJob?;
      } else if s != end {
        assert BroughtIn(mid, d', s);
      }
    }
  }

  lemma ReturnedStays(d: Disk, mid: Disk, d': Disk, returned: Slot, reason: string, source: Slot, end: Slot)
    requires returned.JobSlot? && returned.jobDir in {JobProcessing, JobRetry} && returned in d
        && ReturnedAt(d, mid, returned, reason)
    requires source.JobSlot? && source.jobDir == returned.jobDir && JobStep(mid, d', source, end) && end !in mid
    ensures ReturnedAt(d, d', returned, reason)
  {
    if JobSlot(JobPending, returned.name) in d {
      var millis :| KeptJob(d, mid, returned, PreservedJob(returned.name, reason, millis));
      assert KeptJob(d, d', returned, PreservedJob(returned.name, reason, millis));
    }
  }

  /** The job is no longer pending: completed (now or before), or rejected with its file kept. */
  ghost predicate JobHandled(d: Disk, d': Disk, name: string, completed: bool)
    requires JobSlot(JobPending, name) in d
  {
    && JobSlot(JobPending, name) !in d' && NotWaiting(d', name)
    && (completed <==> JobSlot(JobCompleted, name) in d')
    && (!completed ==>
      JobSlot(JobRejected, name) in d' && d'[JobSlot(JobRejected, name)] == d[JobSlot(JobPending, name)])
  }

  ghost predicate NotWaiting(d: Disk, name: string) {
    forall dir :: !Waiting(d, JobSlot(dir, name))
  }

  /** Recovery and migration have emptied `processing` and `retry`. */
  ghost predicate NoneBusy(d: Disk) {
    forall n :: JobSlot(JobProcessing, n) !in d && JobSlot(JobRetry, n) !in d
  }

  /** No memory file changed; new ones are pending operations bound to their payload. */
  ghost predicate MemoryEnlarged(d: Disk, d': Disk) {
    && (forall s | s in d && IsMemory(s) :: s in d' && d'[s] == d[s])
    && (forall s | s in d' && s !in d && IsMemory(s) ::
      s.Record? && s.dir == Pending && IsNewRecord(d'[s]))
  }

  function QueueSlots(names: set<string>): set<Slot> {
    set n | n in names :: JobSlot(JobPending, n)
  }

  /** Midway through the job loop: the jobs in `names` are still to be handled, the other listed ones
      are done, and apart from `names` the queue is calm. */
  ghost predicate JobQueue(d: Disk, d': Disk, names: set<string>) {
    && (forall n | n in names ::
          JobSlot(JobPending, n) in d' && JobSlot(JobProcessing, n) !in d' && JobSlot(JobRetry, n) !in d')
    && (forall n | JobSlot(JobPending, n) in d && n !in names ::
      JobSlot(JobCompleted, n) in d' || JobSlot(JobRejected, n) in d')
    && Calm(d', QueueSlots(names))
    && (forall n | n in names && Waiting(d', JobSlot(JobPending, n)) ::
          Covered(d', QueueSlots(names), d'[JobSlot(JobPending, n)].job.eventId))
  }

  /** The listed jobs that were handled and are completed. */
  function Finished(d: Disk, d': Disk, names: set<string>): set<string> {
    set n | n in JobFiles(d, JobPending) - names && JobSlot(JobCompleted, n) in d'
  }

  /** The counts of the job loop so far: each listed job that was handled is counted by where it ended. */
  ghost predicate Counted(d: Disk, d': Disk, names: set<string>, completed: nat, rejected: nat) {
    && names <= JobFiles(d, JobPending)
    && completed == |Finished(d, d', names)|
    && completed + rejected + |names| == |JobFiles(d, JobPending)|
  }

  lemma NothingCounted(d: Disk)
    ensures Counted(d, d, JobFiles(d, JobPending), 0, 0)
  {
    assert Finished(d, d, JobFiles(d, JobPending)) == {};
  }

  lemma AllCounted(d: Disk, d': Disk, completed: nat, rejected: nat)
    requires Counted(d, d', {}, completed, rejected)
    ensures completed + rejected == |JobFiles(d, JobPending)|
    ensures completed == |set n | n in JobFiles(d, JobPending) && JobSlot(JobCompleted, n) in d'|
  {
    assert Finished(d, d', {}) == set n | n in JobFiles(d, JobPending) && JobSlot(JobCompleted, n) in d';
  }

  /** A job does not complete another one. */
  predicate OnlyCompletes(d: Disk, d': Disk, name: string, done: bool) {
    && (done <==> JobSlot(JobCompleted, name) in d')
    && (forall s | s in d' && s.JobSlot? && s.jobDir == JobCompleted && s.name != name :: s in d)
    && (forall s | s in d && s.JobSlot? && s.jobDir == JobCompleted && s.name != name :: s in d')
  }

  lemma TouchOnlyCompletes(d: Disk, d': Disk, name: string, file: File, done: bool)
    requires JobTouch(d, d', name, file) && JobSlot(JobPending, name) in d && JobHandled(d, d', name, done)
    ensures OnlyCompletes(d, d', name, done)
  {
    forall s | s in d' && s.JobSlot? && s.jobDir == JobCompleted && s.name != name
      ensures s in d
    {
      assert !OfJob(name, file, s);
    }
  }

  lemma CountOne(d: Disk, mid: Disk, d': Disk, names: set<string>, name: string, done: bool, completed: nat,
      rejected: nat)
    requires Counted(d, mid, names, completed, rejected) && name in names && OnlyCompletes(mid, d', name, done)
    ensures Counted(d, d', names - {name}, if done then completed + 1 else completed,
        if done then rejected else rejected + 1)
  {
    forall n | n != name
      ensures JobSlot(JobCompleted, n) in d' <==> JobSlot(JobCompleted, n) in mid
    {
    }
    assert name !in Finished(d, mid, names);
    assert Finished(d, d', names - {name})
        == if done then Finished(d, mid, names) + {name} else Finished(d, mid, names);
  }

  lemma QueueStarts(d: Disk)
    requires NoneBusy(d)
    ensures JobQueue(d, d, JobFiles(d, JobPending))
  {
    var names := JobFiles(d, JobPending);
    forall slot | Waiting(d, slot)
      ensures slot in QueueSlots(names)
    {
      assert slot == JobSlot(slot.jobDir, slot.name);
    }
  }

  lemma TakeFromQueue(d: Disk, d': Disk, names: set<string>, name: string)
    requires JobQueue(d, d', names) && name in names
    ensures JobSlot(JobPending, name) in d' && JobSlot(JobProcessing, name) !in d' && JobSlot(JobRetry, name) !in d'
    ensures JobReady(d', QueueSlots(names - {name}), JobSlot(JobPending, name))
  {
    assert QueueSlots(names) == QueueSlots(names - {name}) + {JobSlot(JobPending, name)};
  }

  lemma StaysUntaken(d: Disk, d': Disk, name: string, file: File, other: string)
    requires JobTouch(d, d', name, file) && other != name
    requires JobSlot(JobProcessing, other) !in d && JobSlot(JobRetry, other) !in d
    ensures JobSlot(JobProcessing, other) !in d' && JobSlot(JobRetry, other) !in d'
  {
    assert !OfJob(name, file, JobSlot(JobProcessing, other)) && !OfJob(name, file, JobSlot(JobRetry, other));
  }

  /** A listed job that still waits: whoever waits for its event beside it is listed too. */
  lemma RivalsStay(mid: Disk, d': Disk, names: set<string>, name: string, file: File, n: string)
    requires JobTouch(mid, d', name, file) && NotWaiting(d', name) && n in names && n != name
    requires JobSlot(JobPending, n) in mid && Waiting(d', JobSlot(JobPending, n))
    requires Waiting(mid, JobSlot(JobPending, n)) ==>
               Covered(mid, QueueSlots(names), mid[JobSlot(JobPending, n)].job.eventId)
    ensures Covered(d', QueueSlots(names - {name}), d'[JobSlot(JobPending, n)].job.eventId)
  {
    assert JobSlot(JobCompleted, n) !in mid;
    assert Waiting(mid, JobSlot(JobPending, n)) && d'[JobSlot(JobPending, n)] == mid[JobSlot(JobPending, n)];
    forall s | Original(d', s) && d'[s].job.eventId == d'[JobSlot(JobPending, n)].job.eventId
      ensures s in QueueSlots(names - {name})
    {
      assert s == JobSlot(s.jobDir, s.name);
      if s in mid {
        assert JobSlot(JobCompleted, s.name) !in mid;
        assert Original(mid, s);
      }
    }
  }

  lemma EnlargedByJob(d: Disk, mid: Disk, d': Disk, name: string, file: File)
    requires MemoryEnlarged(d, mid) && JobTouch(mid, d', name, file)
    ensures MemoryEnlarged(d, d')
  {
    assert forall s | IsMemory(s) && s in d' && s !in mid && !s.Record? ::
        !OfJob(name, file, s) && BroughtIn(mid, d', s);
  }

  lemma NoRetry(d: Disk, d': Disk, name: string, file: File)
    requires JobTouch(d, d', name, file) && JobSlot(JobRetry, name) !in d
    ensures JobSlot(JobRetry, name) !in d'
  {
    assert !OfJob(name, file, JobSlot(JobRetry, name));
  }

  lemma RejectedNotWaiting(d: Disk, d': Disk, name: string)
    requires JobStep(d, d', JobSlot(JobProcessing, name), JobSlot(JobRejected, name))
    requires JobSlot(JobPending, name) !in d && JobSlot(JobRetry, name) !in d
    ensures NotWaiting(d', name) && JobSlot(JobPending, name) !in d'
  {
    assert !NameFree(d, name);
    forall dir
      ensures !Waiting(d', JobSlot(dir, name))
    {
      assert dir.JobProcessing? || !Queued(dir) || JobSlot(dir, name) !in d;
    }
  }

  lemma QueueStep(d: Disk, mid: Disk, d': Disk, names: set<string>, name: string, completed: bool)
    requires JobQueue(d, mid, names) && name in names && MemoryEnlarged(d, mid)
    requires JobTouch(mid, d', name, mid[JobSlot(JobPending, name)]) && JobHandled(mid, d', name, completed)
    requires Calm(d', QueueSlots(names - {name}))
    ensures JobQueue(d, d', names - {name}) && MemoryEnlarged(d, d')
  {
    var file := mid[JobSlot(JobPending, name)];
    forall n | n in names && n != name
      ensures JobSlot(JobPending, n) in d' && JobSlot(JobProcessing, n) !in d' && JobSlot(JobRetry, n) !in d'
      ensures Waiting(d', JobSlot(JobPending, n)) ==>
                Covered(d', QueueSlots(names - {name}), d'[JobSlot(JobPending, n)].job.eventId)
    {
      StaysUntaken(mid, d', name, file, n);
      if Waiting(d', JobSlot(JobPending, n)) {
        RivalsStay(mid, d', names, name, file, n);
      }
    }
    EnlargedByJob(d, mid, d', name, file);
  }

  // ---------------------------------------------------------------------------
  // Commands and crashes.
  // ---------------------------------------------------------------------------

  datatype Action =
    | RunOnceAction(staleAfter: nat, now: int)
    | QuarantineAction(olderThan: nat, dryRun: bool, now: int)
    | ReleaseAction(ids: Option<set<string>>, now: int)

  /** A command, after how many events it is stopped if it is, and the environment of the next process. */
  datatype Command = Command(action: Action, operations: Option<nat>, nextEnvironment: string)

  /** The record `op` was read from is at `slot`: same id, payload, hash and receipt, polled at once, and
      with a receipt its clock restarted at `released`. */
  ghost predicate Restored(d: Disk, slot: Slot, op: MemoryOperation, released: int)
    requires slot.Record?
  {
    && slot in d && d[slot].Stored?
    && var back := d[slot].op;
       && back.operationId == op.operationId && back.kind == op.kind && back.dependencies == op.dependencies
       && back.arguments == op.arguments && back.payloadHash == op.payloadHash && back.receipt == op.receipt
       && back.queuedAt == op.queuedAt && back.firstAcceptedAt == op.firstAcceptedAt
       && back.state == In(slot.dir) && back.nextPollAt.None? && back.unchangedPolls == 0
       && back.lastError == op.lastError
       && (op.receipt.Some? ==> StaleSince(back) == Some(released))
  }

  lemma RoundTrip(d: Disk, mid: Disk, d': Disk, stale: map<string, MemoryOperation>,
                  chosen: map<string, MemoryOperation>,
                  name: string, project: string, now: int, later: int, olderThan: nat)
    requires stale == StaleRecords(d, JsonFiles(d, Accepted), project, now, olderThan) && name in stale
    requires Relocating(d, mid, QuarantinePlan(stale), {})
    requires chosen == Chosen(StalledRecords(mid, JsonFiles(mid, Stalled), project), None)
    requires Relocating(mid, d', ReleasePlan(chosen, later), {})
    ensures Record(Stalled, name) !in d'
    ensures Record(Accepted, name) in d' <==> stale[name].receipt.Some?
    ensures Restored(d', Record(ReleaseDir(stale[name]), name), stale[name], later)
  {
    var op := stale[name];
    assert RelocatedAt(d, mid, name, QuarantinePlan(stale)[name]);
    assert mid[Record(Stalled, name)] == Stored(op.(state := In(Stalled)));
    ParkedReads(d[Record(Accepted, name)].op, op, project);
    assert name in StalledRecords(mid, JsonFiles(mid, Stalled), project);
    assert chosen[name] == op.(state := In(Stalled));
    ReleaseRestores(mid, d', name, op, chosen, later);
  }

  /** What a quarantine of a queue that had nothing stalled leaves under the name. */
  ghost predicate ParkedAt(d: Disk, mid: Disk, stale: map<string, MemoryOperation>, n: string, project: string) {
    && (Record(Stalled, n) in mid <==> n in stale)
    && (n in stale ==>
          && ReadOperation(mid[Record(Stalled, n)], project) == Ok(stale[n].(state := In(Stalled)))
          && Record(Accepted, n) !in mid && (Record(Pending, n) in mid <==> Record(Pending, n) in d))
  }

  lemma QuarantineParks(d: Disk, mid: Disk, stale: map<string, MemoryOperation>, n: string, project: string, now: int,
      olderThan: nat)
    requires stale == StaleRecords(d, JsonFiles(d, Accepted), project, now, olderThan)
    requires Relocating(d, mid, QuarantinePlan(stale), {}) && Record(Stalled, n) !in d
    ensures ParkedAt(d, mid, stale, n, project)
  {
    if n in stale {
      assert RelocatedAt(d, mid, n, QuarantinePlan(stale)[n]);
      RelocatedIsParked(d, mid, stale, n, project);
    } else {
      NothingElseStalls(d, mid, QuarantinePlan(stale), n);
    }
  }

  lemma RelocatedIsParked(d: Disk, mid: Disk, stale: map<string, MemoryOperation>, n: string, project: string)
    requires n in stale && RelocatedAt(d, mid, n, Relocation(Accepted, Stalled, stale[n].(state := In(Stalled))))
    requires Record(Accepted, n) in d && ReadOperation(d[Record(Accepted, n)], project) == Ok(stale[n])
    ensures ParkedAt(d, mid, stale, n, project)
  {
    ParkedReads(d[Record(Accepted, n)].op, stale[n], project);
    assert IsMemory(Record(Pending, n));
  }

  lemma NothingElseStalls(d: Disk, mid: Disk, plan: map<string, Relocation>, n: string)
    requires Relocating(d, mid, plan, {}) && n !in plan && Record(Stalled, n) !in d
    ensures Record(Stalled, n) !in mid
  {
    assert Record(Stalled, n) in mid ==> BroughtIn(d, mid, Record(Stalled, n));
  }

  /** All that is parked is chosen for a release of everything, and its target is free or not as it was before. */
  lemma ParkedIsChosen(d: Disk, mid: Disk, stale: map<string, MemoryOperation>, project: string, n: string)
    requires ParkedAt(d, mid, stale, n, project)
    ensures var stalled := StalledRecords(mid, JsonFiles(mid, Stalled), project);
            && (n in Chosen(stalled, None) <==> n in stale)
            && (Record(Stalled, n) in mid ==> Readable(mid[Record(Stalled, n)], project))
            && (n in stale ==>
                  (Record(ReleaseDir(stalled[n]), n) in mid <==> stale[n].receipt.None? && Record(Pending, n) in d))
  {
  }

  lemma ReleasableAfter(d: Disk, mid: Disk, stale: map<string, MemoryOperation>, project: string)
    requires forall n :: ParkedAt(d, mid, stale, n, project)
    ensures Releasable(mid, None, project)
        <==> forall n | n in stale && stale[n].receipt.None? :: Record(Pending, n) !in d
  {
    var stalled := StalledRecords(mid, JsonFiles(mid, Stalled), project);
    forall n
      ensures n in Chosen(stalled, None) <==> n in stale
      ensures Record(Stalled, n) in mid ==> Readable(mid[Record(Stalled, n)], project)
      ensures n in stale ==>
                (Record(ReleaseDir(stalled[n]), n) in mid <==> stale[n].receipt.None? && Record(Pending, n) in d)
    {
      ParkedIsChosen(d, mid, stale, project, n);
    }
  }

  lemma ReleaseRestores(mid: Disk, d': Disk, name: string, op: MemoryOperation, chosen: map<string, MemoryOperation>,
      later: int)
    requires Relocating(mid, d', ReleasePlan(chosen, later), {}) && name in chosen
        && chosen[name] == op.(state := In(Stalled))
    requires Record(Accepted, name) !in mid
    ensures Record(Stalled, name) !in d'
    ensures Record(Accepted, name) in d' <==> op.receipt.Some?
    ensures Restored(d', Record(ReleaseDir(op), name), op, later)
  {
    var move := ReleasePlan(chosen, later)[name];
    assert RelocatedAt(mid, d', name, move);
    assert move.target == ReleaseDir(op) && move.source == Stalled && IsMemory(Record(Accepted, name));
    ReleasedIsRestored(d', Record(ReleaseDir(op), name), op, later);
  }

  lemma ReleasedIsRestored(d: Disk, slot: Slot, op: MemoryOperation, later: int)
    requires slot.Record? && slot in d
    requires d[slot] == Stored(Released(op, In(slot.dir), later))
          || d[slot] == Stored(Released(op.(state := In(Stalled)), In(slot.dir), later))
    ensures Restored(d, slot, op, later)
  {
  }

  /** A quarantined record reads back as it was written. */
  lemma ParkedReads(stored: MemoryOperation, op: MemoryOperation, project: string)
    requires NormalizeOperation(stored, project) == Ok(op)
    ensures ReadOperation(Stored(op.(state := In(Stalled))), project) == Ok(op.(state := In(Stalled)))
  {
    ReadingSettles(stored, project, project);
    ReadingSettles(op.(state := In(Stalled)), project, project);
  }

  // ---------------------------------------------------------------------------
  // From one phase of a run to the next.
  // ---------------------------------------------------------------------------

  const RECOVERED: seq<MemoryDir> := [Submitting, Retry, Accepted, Pending]

  datatype RunSummary = RunSummary(
    jobsCompleted: nat, jobsRejected: nat, outcomes: map<string, Tally>, counts: Counts, stopped: bool, stale: nat,
      stalled: nat)

  ghost predicate ReadableIn(d: Disk, dirs: seq<MemoryDir>, project: string) {
    forall dir, n | dir in dirs && Record(dir, n) in d :: Readable(d[Record(dir, n)], project)
  }

  /** A record that had something to deliver still has. */
  ghost predicate KeepsListed(d: Disk, d': Disk) {
    forall dir, n | dir in LISTED && Record(dir, n) in d :: Record(dir, n) in d'
  }

  lemma BoundIsReadable(op: MemoryOperation, project: string)
    requires Bound(op)
    ensures Readable(Stored(op), project)
  {
    ReadingSettles(op, project, project);
  }

  lemma JobsFrameMemory(d: Disk, d': Disk, dir: JobDir, project: string)
    requires JobFrame(d, d', dir)
    ensures KeepsListed(d, d') && (ReadableIn(d, RECOVERED, project) ==> ReadableIn(d', RECOVERED, project))
  {
    forall dir, n | Record(dir, n) in d' && Record(dir, n) !in d
      ensures Readable(d'[Record(dir, n)], project)
    {
      assert BroughtIn(d, d', Record(dir, n));
      BoundIsReadable(d'[Record(dir, n)].op, project);
    }
  }

  lemma RecoveryKeeps(d: Disk, d': Disk, project: string)
    requires Frame(d, d', {Submitting}) && SubmittingReady(d')
    requires forall n :: Record(Submitting, n) in d' <==> Record(Submitting, n) in d
    ensures KeepsListed(d, d') && (ReadableIn(d, RECOVERED, project) ==> ReadableIn(d', RECOVERED, project))
    ensures NoneBusy(d) ==> NoneBusy(d')
  {
    forall dir, n | Record(dir, n) in d' && (dir == Submitting || Record(dir, n) !in d)
      ensures Readable(d'[Record(dir, n)], project)
    {
      assert ReadyAt(d', n);
      assert dir == Submitting || BroughtIn(d, d', Record(dir, n));
      BoundIsReadable(d'[Record(dir, n)].op, project);
    }
    FrameStaysQuiet(d, d', {Submitting});
  }

  lemma FrameStaysQuiet(d: Disk, d': Disk, dirs: set<MemoryDir>)
    requires Frame(d, d', dirs)
    ensures NoneBusy(d) ==> NoneBusy(d')
  {
  }

  lemma MigrationKeeps(d: Disk, d': Disk, project: string)
    requires Frame(d, d', {Retry, Pending}) && PendingGrows(d, d') && SubmittingReady(d)
    ensures KeepsListed(d, d') && SubmittingReady(d') && (ReadableIn(d, RECOVERED, project)
        ==> ReadableIn(d', LISTED, project))
    ensures NoneBusy(d) ==> NoneBusy(d')
  {
    forall n
      ensures ReadyAt(d', n)
    {
      assert ReadyAt(d, n);
    }
    forall n | Record(Pending, n) in d' && Record(Pending, n) !in d
      ensures Readable(d'[Record(Pending, n)], project)
    {
      BoundIsReadable(d'[Record(Pending, n)].op, project);
    }
    FrameStaysQuiet(d, d', {Retry, Pending});
  }

  lemma MemoryEnlargedKeeps(d: Disk, d': Disk, project: string)
    requires MemoryEnlarged(d, d')
    ensures KeepsListed(d, d') && (SubmittingReady(d) ==> SubmittingReady(d'))
    ensures ReadableIn(d, LISTED, project) ==> ReadableIn(d', LISTED, project)
  {
    assert forall dir, n :: IsMemory(Record(dir, n));
    forall dir, n | Record(dir, n) in d' && Record(dir, n) !in d
      ensures Readable(d'[Record(dir, n)], project)
    {
      BoundIsReadable(d'[Record(dir, n)].op, project);
    }
    if SubmittingReady(d) {
      forall n
        ensures ReadyAt(d', n)
      {
        assert ReadyAt(d, n);
      }
    }
  }

  // ---------------------------------------------------------------------------
  // Planned moves.
  // ---------------------------------------------------------------------------

  function StaleRecords(d: Disk, names: set<string>, project: string, now: int, olderThan: nat)
    : map<string, MemoryOperation>
    requires forall n | n in names :: Record(Accepted, n) in d
  {
    map n | n in names && Readable(d[Record(Accepted, n)], project)
      && IsStale(ReadOperation(d[Record(Accepted, n)], project).value, now, olderThan)
      :: ReadOperation(d[Record(Accepted, n)], project).value
  }

  function StalledRecords(d: Disk, names: set<string>, project: string): map<string, MemoryOperation>
    requires forall n | n in names :: Record(Stalled, n) in d
  {
    map n | n in names && Readable(d[Record(Stalled, n)], project) ::
      ReadOperation(d[Record(Stalled, n)], project).value
  }

  function Chosen(stalled: map<string, MemoryOperation>, ids: Option<set<string>>): map<string, MemoryOperation> {
    map n | n in stalled && (ids.None? || stalled[n].operationId in ids.value) :: stalled[n]
  }

  /** Released records go back to `memory/accepted` if the server has answered for them, else to `memory/pending`. */
  function ReleaseDir(op: MemoryOperation): MemoryDir {
    if op.receipt.Some? then Accepted else Pending
  }

  /** Every stalled record can be read, every named id is among them, and no target is taken. */
  ghost predicate Releasable(d: Disk, ids: Option<set<string>>, project: string) {
    var stalled := StalledRecords(d, JsonFiles(d, Stalled), project);
    && (forall n | Record(Stalled, n) in d :: Readable(d[Record(Stalled, n)], project))
    && (ids.Some? ==> forall id | id in ids.value :: exists n :: n in stalled && stalled[n].operationId == id)
    && (forall n | n in Chosen(stalled, ids) :: Record(ReleaseDir(stalled[n]), n) !in d)
  }

  /** Move the record from one directory to another and leave `op` in it. */
  datatype Relocation = Relocation(source: MemoryDir, target: MemoryDir, op: MemoryOperation)

  function QuarantinePlan(stale: map<string, MemoryOperation>): map<string, Relocation> {
    map n | n in stale :: Relocation(Accepted, Stalled, stale[n].(state := In(Stalled)))
  }

  function ReleasePlan(chosen: map<string, MemoryOperation>, now: int): map<string, Relocation> {
    map n | n in chosen :: Relocation(Stalled, ReleaseDir(chosen[n]),
      Released(chosen[n], In(ReleaseDir(chosen[n])), now))
  }

  ghost predicate RelocatedAt(d: Disk, d': Disk, name: string, move: Relocation) {
    && Record(move.source, name) !in d'
    && Record(move.target, name) in d' && d'[Record(move.target, name)] == Stored(move.op)
    && (forall s | IsMemory(s) && s.name == name && s != Record(move.source, name) && s != Record(move.target, name) ::
          (s in d <==> s in d') && (s in d ==> d'[s] == d[s]))
  }

  /** Midway through a plan: names in `left` or outside the plan are as they were, the others are moved,
      and nothing else changed but what other programs brought in. */
  ghost predicate Relocating(d: Disk, d': Disk, plan: map<string, Relocation>, left: set<string>) {
    && (forall n | !Absent(d, n) && (n !in plan || n in left) :: SameFamily(d, d', n))
    && (forall n | n in plan && n !in left :: RelocatedAt(d, d', n, plan[n]))
    && (forall s | s in d && !(s.Record? && s.name in plan) :: s in d' && d'[s] == d[s])
    && (forall s | s in d' && s !in d && !(IsMemory(s) && s.name in plan) :: BroughtIn(d, d', s))
  }

  /** The records in `memory/accepted` that can be read and are stale, as read. */
  ghost predicate AreStale(d: Disk, stale: map<string, MemoryOperation>, project: string, now: int, olderThan: nat) {
    forall n ::
      && (n in stale <==>
            && Record(Accepted, n) in d && Readable(d[Record(Accepted, n)], project)
            && IsStale(ReadOperation(d[Record(Accepted, n)], project).value, now, olderThan))
      && (n in stale ==> ReadOperation(d[Record(Accepted, n)], project) == Ok(stale[n]))
  }

  /** Each of them is in `memory/stalled`, says so, and is otherwise as it was read; other accepted records
      stay. */
  ghost predicate Parks(d: Disk, d': Disk, stale: map<string, MemoryOperation>) {
    && (forall n | n in stale ::
          && Record(Accepted, n) !in d' && Record(Stalled, n) in d'
          && d'[Record(Stalled, n)] == Stored(stale[n].(state := In(Stalled))))
    && (forall n | n !in stale && Record(Accepted, n) in d ::
          Record(Accepted, n) in d' && d'[Record(Accepted, n)] == d[Record(Accepted, n)])
  }

  lemma StaleAre(d: Disk, project: string, now: int, olderThan: nat)
    ensures AreStale(d, StaleRecords(d, JsonFiles(d, Accepted), project, now, olderThan), project, now, olderThan)
  {
  }

  lemma PlanParks(d: Disk, d': Disk, stale: map<string, MemoryOperation>)
    requires Relocating(d, d', QuarantinePlan(stale), {})
    ensures Parks(d, d', stale)
  {
    forall n | n in stale
      ensures Record(Accepted, n) !in d' && Record(Stalled, n) in d'
      ensures d'[Record(Stalled, n)] == Stored(stale[n].(state := In(Stalled)))
    {
      assert RelocatedAt(d, d', n, QuarantinePlan(stale)[n]);
    }
  }

  /** The stalled records to release, all of them or those with the given identifiers, as read. */
  ghost predicate AreChosen(d: Disk, chosen: map<string, MemoryOperation>, ids: Option<set<string>>, project: string) {
    forall n ::
      && (n in chosen <==>
            && Record(Stalled, n) in d && Readable(d[Record(Stalled, n)], project)
            && (ids.None? || ReadOperation(d[Record(Stalled, n)], project).value.operationId in ids.value))
      && (n in chosen ==> ReadOperation(d[Record(Stalled, n)], project) == Ok(chosen[n]))
  }

  /** Each goes to `accepted` if the server ever answered for it, else to `pending`, where nothing was before. */
  ghost predicate Frees(d: Disk, d': Disk, chosen: map<string, MemoryOperation>, now: int) {
    forall n | n in chosen ::
      var target := Record(if chosen[n].receipt.Some? then Accepted else Pending, n);
      Record(Stalled, n) !in d' && target !in d && Restored(d', target, chosen[n], now)
  }

  lemma ChosenAre(d: Disk, ids: Option<set<string>>, project: string)
    ensures AreChosen(d, Chosen(StalledRecords(d, JsonFiles(d, Stalled), project), ids), ids, project)
  {
  }

  lemma PlanFrees(d: Disk, d': Disk, chosen: map<string, MemoryOperation>, now: int)
    requires Relocating(d, d', ReleasePlan(chosen, now), {})
    requires forall n | n in chosen :: Record(ReleaseDir(chosen[n]), n) !in d
    ensures Frees(d, d', chosen, now)
  {
    forall n | n in chosen
      ensures Record(Stalled, n) !in d' && Restored(d', Record(ReleaseDir(chosen[n]), n), chosen[n], now)
    {
      assert RelocatedAt(d, d', n, ReleasePlan(chosen, now)[n]);
      ReleasedIsRestored(d', Record(ReleaseDir(chosen[n]), n), chosen[n], now);
    }
  }

  /** Why a release fails: a stalled record cannot be read; else an identifier is not among them; else a
      target is taken. */
  ghost predicate ReleaseFails(d: Disk, ids: Option<set<string>>, project: string, e: Failure) {
    if exists n :: Record(Stalled, n) in d && !Readable(d[Record(Stalled, n)], project) then
      exists n :: Record(Stalled, n) in d && ReadOperation(d[Record(Stalled, n)], project) == Err(e)
    else if ids.Some? && exists id :: id in ids.value && !StalledId(d, id, project) then e == UnknownIds
    else e == TargetOccupied
  }

  ghost predicate StalledId(d: Disk, id: string, project: string) {
    exists n :: StalledAs(d, n, id, project)
  }

  predicate StalledAs(d: Disk, n: string, id: string, project: string) {
    && Record(Stalled, n) in d && Readable(d[Record(Stalled, n)], project)
    && ReadOperation(d[Record(Stalled, n)], project).value.operationId == id
  }

  lemma StalledIds(d: Disk, id: string, project: string)
    ensures var stalled := StalledRecords(d, JsonFiles(d, Stalled), project);
            StalledId(d, id, project) <==> exists n :: n in stalled && stalled[n].operationId == id
  {
    var stalled := StalledRecords(d, JsonFiles(d, Stalled), project);
    if n :| StalledAs(d, n, id, project) {
      assert n in stalled;
    }
    if n :| n in stalled && stalled[n].operationId == id {
      assert StalledAs(d, n, id, project);
    }
  }

  lemma StillThere(d: Disk, d': Disk, plan: map<string, Relocation>, left: set<string>, name: string)
    requires Relocating(d, d', plan, left) && name in left && name in plan && Record(plan[name].source, name) in d
    ensures SameFamily(d, d', name)
    ensures forall dir :: Record(dir, name) in d' <==> Record(dir, name) in d
    ensures forall dir | Record(dir, name) in d :: d'[Record(dir, name)] == d[Record(dir, name)]
  {
    assert !Absent(d, name);
    assert forall dir :: IsMemory(Record(dir, name));
  }

  lemma RelocatingStep(d: Disk, mid: Disk, d': Disk, plan: map<string, Relocation>, left: set<string>, name: string)
    requires Relocating(d, mid, plan, left) && name in left && name in plan && Record(plan[name].source, name) in d
    requires Only(mid, d', name) && RelocatedAt(mid, d', name, plan[name])
    ensures Relocating(d, d', plan, left - {name})
  {
    StillThere(d, mid, plan, left, name);
    forall n | n != name && !Absent(d, n) && (n !in plan || n in left)
      ensures SameFamily(d, d', n)
    {
      var dir :| Record(dir, n) in d;
      assert SameFamily(d, mid, n) && IsMemory(Record(dir, n));
      OnlyKeepsFamily(mid, d', name, n);
    }
    forall n | n != name && n in plan && n !in left
      ensures RelocatedAt(d, d', n, plan[n])
    {
      assert RelocatedAt(d, mid, n, plan[n]);
      OnlyKeepsFamily(mid, d', name, n);
      assert IsMemory(Record(plan[n].source, n)) && IsMemory(Record(plan[n].target, n));
    }
    forall s | s in d' && s !in d && !(IsMemory(s) && s.name in plan)
      ensures BroughtIn(d, d', s)
    {
      if s in mid {
        assert BroughtIn(d, mid, s);
      } else {
        assert BroughtIn(mid, d', s);
      }
    }
  }

  // ---------------------------------------------------------------------------
  // A pass, record by record.
  // ---------------------------------------------------------------------------

  const LISTED: seq<MemoryDir> := [Submitting, Accepted, Pending]

  /** The pass has visited exactly the names of `outcomes`. Names not visited are as at the start (or
      came in since), and what each tally says of a tidy record is so. */
  ghost predicate Progress(d: Disk, d': Disk, outcomes: map<string, Tally>, project: string) {
    && (forall n | n !in outcomes && !Absent(d, n) :: SameFamily(d, d', n))
    && (forall n, dir | n !in outcomes && Absent(d, n) && Record(dir, n) in d' ::
          dir == Pending && IsNewRecord(d'[Record(dir, n)]))
    && (forall n | n in outcomes :: VisitedMeans(d, d', n, outcomes[n], project))
  }

  ghost predicate VisitedMeans(d: Disk, d': Disk, name: string, tally: Tally, project: string) {
    var slot := FirstIn(d, LISTED, name);
    slot.Some? ==>
      var read := ReadOperation(d[slot.value], project);
      read.Ok? && Tidy(slot.value, read.value) ==> TallyMeans(d, d', slot.value, tally)
  }

  lemma UnvisitedStays(d: Disk, mid: Disk, d': Disk, outcomes: map<string, Tally>, name: string, project: string,
      n: string)
    requires Progress(d, mid, outcomes, project) && Only(mid, d', name) && n !in outcomes && n != name
    ensures !Absent(d, n) ==> SameFamily(d, d', n)
    ensures Absent(d, n) ==> forall dir | Record(dir, n) in d' ::
              dir == Pending && IsNewRecord(d'[Record(dir, n)])
  {
    if !Absent(d, n) {
      var dir :| Record(dir, n) in d;
      assert SameFamily(d, mid, n) && IsMemory(Record(dir, n));
      OnlyKeepsFamily(mid, d', name, n);
    } else {
      forall dir | Record(dir, n) in d' && Record(dir, n) !in mid
        ensures dir == Pending && IsNewRecord(d'[Record(dir, n)])
      {
        assert BroughtIn(mid, d', Record(dir, n));
      }
    }
  }

  lemma VisitMeans(d: Disk, mid: Disk, d': Disk, outcomes: map<string, Tally>, slot: Slot, tally: Tally,
      project: string)
    requires Progress(d, mid, outcomes, project) && slot.Record? && slot in mid && slot.name !in outcomes
    requires !Absent(d, slot.name) ==> FirstIn(d, LISTED, slot.name) == Some(slot)
    requires var read := ReadOperation(mid[slot], project);
             read.Ok? && Tidy(slot, read.value) ==> TallyMeans(mid, d', slot, tally)
    ensures VisitedMeans(d, d', slot.name, tally, project)
  {
    if !Absent(d, slot.name) {
      assert SameFamily(d, mid, slot.name) && IsMemory(slot);
    } else {
      assert FirstIn(d, LISTED, slot.name) == None;
    }
  }

  lemma ProgressStep(d: Disk, mid: Disk, d': Disk, outcomes: map<string, Tally>, slot: Slot, tally: Tally,
      project: string)
    requires Progress(d, mid, outcomes, project) && slot.Record? && slot in mid && slot.name !in outcomes
    requires !Absent(d, slot.name) ==> FirstIn(d, LISTED, slot.name) == Some(slot)
    requires Only(mid, d', slot.name)
    requires var read := ReadOperation(mid[slot], project);
             read.Ok? && Tidy(slot, read.value) ==> TallyMeans(mid, d', slot, tally)
    ensures Progress(d, d', outcomes[slot.name := tally], project)
  {
    forall n | n !in outcomes && n != slot.name
      ensures !Absent(d, n) ==> SameFamily(d, d', n)
      ensures Absent(d, n) ==> forall dir | Record(dir, n) in d' ::
                dir == Pending && IsNewRecord(d'[Record(dir, n)])
    {
      UnvisitedStays(d, mid, d', outcomes, slot.name, project, n);
    }
    forall n | n in outcomes
      ensures VisitedMeans(d, d', n, outcomes[n], project)
    {
      assert VisitedMeans(d, mid, n, outcomes[n], project);
      MeaningStays(d, mid, d', slot.name, n, outcomes[n], project);
    }
    VisitMeans(d, mid, d', outcomes, slot, tally, project);
  }

  predicate Later(dir: MemoryDir, than: MemoryDir) {
    (than == Submitting && dir in {Accepted, Pending}) || (than == Accepted && dir == Pending)
  }

  /** A name first visited under `dir` had its first listed record there when the pass began, if it had any. */
  lemma ListedFirst(d: Disk, d': Disk, outcomes: map<string, Tally>, dir: MemoryDir, name: string, project: string)
    requires Progress(d, d', outcomes, project) && name !in outcomes && dir in LISTED && Record(dir, name) in d'
    requires forall earlier | earlier in LISTED && Record(earlier, name) in d :: earlier == dir || Later(earlier, dir)
    ensures if Absent(d, name) then dir == Pending && Readable(d'[Record(dir, name)], project)
            else FirstIn(d, LISTED, name) == Some(Record(dir, name)) && d'[Record(dir, name)] == d[Record(dir, name)]
  {
    if Absent(d, name) {
      ReadingSettles(d'[Record(dir, name)].op, project, project);
    } else {
      assert SameFamily(d, d', name) && IsMemory(Record(dir, name));
      assert LISTED[1..] == [Accepted, Pending] && LISTED[1..][1..] == [Pending];
    }
  }

  /** Midway through one directory: what is left to visit is still there, nothing unvisited is in
      `memory/submitting` unless it is left to visit, and every new visit was of a listed name. */
  ghost predicate Todo(start: Disk, d: Disk, dir: MemoryDir, names: set<string>, before: map<string, Tally>,
      outcomes: map<string, Tally>) {
    && (forall n | n in names :: n in outcomes || Record(dir, n) in d)
    && (forall n | Record(dir, n) in start :: n in names || n in outcomes)
    && (forall n | Record(Submitting, n) in d && n !in outcomes :: dir == Submitting && n in names)
    && (forall n | n in outcomes && n !in before :: Record(dir, n) in start || (dir == Pending && Absent(start, n)))
  }

  lemma TodoStep(start: Disk, d: Disk, d': Disk, dir: MemoryDir, names: set<string>, before: map<string, Tally>,
                 outcomes: map<string, Tally>, name: string, tally: Tally)
    requires Todo(start, d, dir, names, before, outcomes) && Only(d, d', name) && name in names
    requires Record(dir, name) in start || (dir == Pending && Absent(start, name))
    ensures Todo(start, d', dir, names, before, outcomes[name := tally])
  {
  }

  lemma TodoDrop(start: Disk, d: Disk, dir: MemoryDir, names: set<string>, before: map<string, Tally>,
      outcomes: map<string, Tally>, name: string)
    requires Todo(start, d, dir, names, before, outcomes) && name in outcomes
    ensures Todo(start, d, dir, names - {name}, before, outcomes)
  {
  }

  /** All that holds midway through one directory, which was entered at `entry`. */
  ghost predicate MidPass(start: Disk, entry: Disk, d: Disk, dir: MemoryDir, names: set<string>,
      before: map<string, Tally>, outcomes: map<string, Tally>, counts: Counts, project: string) {
    && Progress(start, d, outcomes, project) && counts == CountsOf(outcomes) && before.Keys <= outcomes.Keys
    && Todo(start, d, dir, names, before, outcomes)
    && KeepsTidy(entry, d)
  }

  lemma ListedKept(d: Disk, d': Disk, outcomes: map<string, Tally>, dir: MemoryDir, project: string)
    requires Progress(d, d', outcomes, project)
    ensures forall n | Record(dir, n) in d && n !in outcomes :: Record(dir, n) in d'
  {
    forall n | Record(dir, n) in d && n !in outcomes
      ensures Record(dir, n) in d'
    {
      assert !Absent(d, n) && SameFamily(d, d', n) && IsMemory(Record(dir, n));
    }
  }

  lemma OnlyKeepsFamily(d: Disk, d': Disk, name: string, other: string)
    requires Only(d, d', name) && other != name && exists dir :: Record(dir, other) in d
    ensures SameFamily(d, d', other)
  {
  }

  lemma MeaningStays(d: Disk, mid: Disk, d': Disk, name: string, visited: string, tally: Tally, project: string)
    requires Only(mid, d', name) && visited != name && VisitedMeans(d, mid, visited, tally, project)
    ensures VisitedMeans(d, d', visited, tally, project)
  {
    var slot := FirstIn(d, LISTED, visited);
    if slot.Some? && TallyMeans(d, mid, slot.value, tally) {
      assert IsMemory(slot.value) && IsMemory(Record(Submitting, visited));
      assert exists dir :: Record(dir, visited) in mid by {
        match tally
        case DeferredPoll => assert Record(slot.value.dir, visited) in mid;
        case Delivered =>
          var dir :| dir in {Accepted, Completed, Rejected} && dir != slot.value.dir && Record(dir, visited) in mid;
        case InFlight => assert Record(slot.value.dir, visited) in mid;
        case AwaitingReconciliation =>
          assert Record(slot.value.dir, visited) in mid || Record(Submitting, visited) in mid;
      }
      OnlyKeepsFamily(mid, d', name, visited);
      if tally == Delivered {
        var dir :| dir in {Accepted, Completed, Rejected} && dir != slot.value.dir && Record(dir, visited) in mid;
        assert IsMemory(Record(dir, visited)) && Record(dir, visited) in d';
      }
    }
  }

  /** The counts of a run's summary. */
  datatype Counts = Counts(delivered: nat, inFlight: nat, deferred: nat, awaiting: nat)

  function Count(counts: Counts, tally: Tally): Counts {
    match tally
    case Delivered => counts.(delivered := counts.delivered + 1)
    case InFlight => counts.(inFlight := counts.inFlight + 1)
    case DeferredPoll => counts.(deferred := counts.deferred + 1)
    case AwaitingReconciliation => counts.(awaiting := counts.awaiting + 1)
  }

  function Tallied(outcomes: map<string, Tally>, tally: Tally): set<string> {
    set n | n in outcomes && outcomes[n] == tally
  }

  function CountsOf(outcomes: map<string, Tally>): (c: Counts)
    ensures c.delivered == |set n | n in outcomes && outcomes[n] == Delivered|
    ensures c.inFlight == |set n | n in outcomes && outcomes[n] == InFlight|
    ensures c.deferred == |set n | n in outcomes && outcomes[n] == DeferredPoll|
    ensures c.awaiting == |set n | n in outcomes && outcomes[n] == AwaitingReconciliation|
  {
    Counts(|Tallied(outcomes, Delivered)|, |Tallied(outcomes, InFlight)|, |Tallied(outcomes, DeferredPoll)|,
           |Tallied(outcomes, AwaitingReconciliation)|)
  }

  lemma TalliedMore(outcomes: map<string, Tally>, name: string, tally: Tally, t: Tally)
    requires name !in outcomes
    ensures |Tallied(outcomes[name := tally], t)| == |Tallied(outcomes, t)| + (if t == tally then 1 else 0)
  {
    assert name !in Tallied(outcomes, t);
    assert Tallied(outcomes[name := tally], t) == if t == tally then Tallied(outcomes, t) + {name}
        else Tallied(outcomes, t);
  }

  lemma CountOneMore(outcomes: map<string, Tally>, name: string, tally: Tally)
    requires name !in outcomes
    ensures CountsOf(outcomes[name := tally]) == Count(CountsOf(outcomes), tally)
  {
    TalliedMore(outcomes, name, tally, Delivered);
    TalliedMore(outcomes, name, tally, InFlight);
    TalliedMore(outcomes, name, tally, DeferredPoll);
    TalliedMore(outcomes, name, tally, AwaitingReconciliation);
  }

  /** The four counts of a pass add up to the number of names it visited. */
  lemma CountsAddUp(outcomes: map<string, Tally>)
    ensures var c := CountsOf(outcomes); c.delivered + c.inFlight + c.deferred + c.awaiting == |outcomes|
  {
    var a, b, c, d := Tallied(outcomes, Delivered), Tallied(outcomes, InFlight), Tallied(outcomes, DeferredPoll),
        Tallied(outcomes, AwaitingReconciliation);
    assert outcomes.Keys == a + b + c + d;
    assert a !! b && (a + b) !! c && (a + b + c) !! d;
  }

  /** The record that was at `place` now holds `op` and is in `destination`: at its own place there, or,
      when another record already had it, preserved beside that one. */
  ghost predicate Settled(d: Disk, d': Disk, place: Slot, op: MemoryOperation, destination: MemoryDir)
    requires place.Record?
  {
    var target := Record(destination, place.name);
    && (place != target ==> place !in d')
    && target in d'
    && (if place != target && target in d then
          && d'[target] == d[target]
          && exists kept ::
            && kept in d' && kept !in d && kept.PreservedRecord? && kept.name == place.name
            && kept.reason == "receipt-reconciliation" && d'[kept] == Stored(op)
        else d'[target] == Stored(op))
    && forall dir | dir != place.dir && dir != destination :: SameFileAt(d, d', Record(dir, place.name))
  }

  /** The record that was at `place` holds the receipt and its error, says that it is in `dir`, and is there:
      at its own place, or, when another record already had that, preserved beside it. */
  ghost predicate EndsIn(d: Disk, d': Disk, place: Slot, dir: MemoryDir, receipt: Receipt)
    requires place.Record?
  {
    var target := Record(dir, place.name);
    && (place != target ==> place !in d')
    && if place != target && target in d then
         && target in d' && d'[target] == d[target]
         && exists kept ::
              && kept in d' && kept !in d && kept.PreservedRecord? && kept.name == place.name
              && kept.reason == "receipt-reconciliation" && SaysSo(d'[kept], dir, receipt)
       else
         target in d' && SaysSo(d'[target], dir, receipt)
  }

  predicate SaysSo(file: File, dir: MemoryDir, receipt: Receipt) {
    file.Stored? && file.op.state == In(dir) && file.op.receipt == Some(receipt) && file.op.lastError == receipt.error
  }

  /** Where a receipt sends a record: what is committed to `completed`, what is refused to `rejected`, and
      what is underway, in whichever of its phases, to `accepted`. */
  ghost predicate EndsByState(d: Disk, d': Disk, place: Slot, receipt: Receipt)
    requires place.Record?
  {
    match receipt.state
    case Committed => EndsIn(d, d', place, Completed, receipt)
    case Refused => EndsIn(d, d', place, Rejected, receipt)
    case Underway(_) => EndsIn(d, d', place, Accepted, receipt)
    case UnknownState(_) => false
  }

  /** The record claimed to be where the receipt sends it. */
  predicate AlreadyThere(op: MemoryOperation, receipt: Receipt) {
    match receipt.state
    case Committed => op.state == In(Completed)
    case Refused => op.state == In(Rejected)
    case Underway(_) => op.state == In(Accepted)
    case UnknownState(_) => false
  }

  /** What the result of applying a receipt says. A mismatch: it is not of the contract, or not for this
      very operation and payload. A transition: the record did not claim to be there before. Unchanged: it
      did, and neither state nor progress are new. */
  predicate ResultMeans(op: MemoryOperation, receipt: Receipt, r: Result<ReceiptOutcome, Failure>) {
    if receipt.schemaVersion != 2 || receipt.operationId != op.operationId || receipt.kind != op.kind
       || op.payloadHash != Some(receipt.payloadHash) || receipt.dependencies != op.dependencies
    then r == Err(ReceiptMismatch)
    else if receipt.state.UnknownState? then r == Err(UnknownReceiptState)
    else
      && r.Ok? && (r.value == Transitioned <==> !AlreadyThere(op, receipt))
      && (r.value == Unchanged <==>
            && AlreadyThere(op, receipt) && op.lastReceiptState == Some(receipt.state)
            && op.lastReceiptProgressSeq == Some(receipt.progressSeq))
  }

  lemma ResultIsMeant(op: MemoryOperation, receipt: Receipt)
    ensures ResultMeans(op, receipt,
              if !ReceiptMatches(op, receipt) then Err(ReceiptMismatch)
              else if Destination(receipt.state).None? then Err(UnknownReceiptState)
              else Ok(OutcomeOf(op, receipt)))
  {
  }

  /** How reconciling `op` went: without a receipt, by the failure of the exchange; with one, by what it says. */
  predicate Explained(known: bool, net: Conversation, op: MemoryOperation, seen: Option<Receipt>,
      r: Result<ReceiptOutcome, Failure>)
  {
    match seen
    case None => r.Err? && FailsWith(known, net, r.error)
    case Some(receipt) => (forall e :: !FailsWith(known, net, e)) && ResultMeans(op, receipt, r)
  }

  /** How a record that was not deferred is counted: delivered if the receipt moved it, in flight if not; if
      there was an error it waits, with the error noted on it, and the pass stops for a failing transport. */
  ghost predicate Reported(d: Disk, d': Disk, slot: Slot, read: MemoryOperation, tally: Tally, stopped: bool,
      outcome: Result<ReceiptOutcome, Failure>, seen: Option<Receipt>)
    requires slot.Record?
  {
    match outcome
    case Ok(what) =>
      && tally == (if what == Transitioned then Delivered else InFlight) && !stopped
      && seen.Some? && EndsByState(Begun(d, slot, read), d', StartedAt(slot, read), seen.value)
    case Err(e) =>
      && tally == AwaitingReconciliation && (stopped <==> e == Transport)
      && NotesError(d', StartedAt(slot, read), e)
  }

  predicate NotesError(d: Disk, slot: Slot, e: Failure) {
    slot in d && d[slot].Stored? && d[slot].op.lastError == Some(ErrorText(e))
  }

  lemma SettledEndsByState(d: Disk, d': Disk, place: Slot, op: MemoryOperation, receipt: Receipt, now: int)
    requires place.Record? && Destination(receipt.state).Some?
    requires Settled(d, d', place, Applied(op, receipt, now), Destination(receipt.state).value)
    ensures EndsByState(d, d', place, receipt)
  {
  }

  predicate SameFileAt(d: Disk, d': Disk, s: Slot) {
    (s in d' <==> s in d) && (s in d ==> d'[s] == d[s])
  }

  lemma AppliedIsSame(file: File, op: MemoryOperation, receipt: Receipt, now: int)
    requires SameRecord(file, Stored(op)) && Bound(op) && Destination(receipt.state).Some?
    ensures SameRecord(file, Stored(Applied(op, receipt, now))) && Bound(Applied(op, receipt, now))
  {
    NormalizationSettles(op.kind, op.arguments, "", "");
    assert NormalizesTo(op.kind, op.arguments, op.arguments);
    SameRecordTransitive(file, Stored(op), Stored(Applied(op, receipt, now)));
  }

  /** If the record at `place` is an accepted one, it may be polled now, and `op` was read from it. */
  predicate Due(place: Slot, file: File, op: MemoryOperation, now: int) {
    place.Record? && place.dir == Accepted ==> file.Stored? && SamePace(file.op, op) && !Deferred(op, now)
  }

  lemma DueIsPaced(d: Disk, place: Slot, op: MemoryOperation, receipt: Receipt, now: int)
    requires place in d && Due(place, d[place], op, now) && Destination(receipt.state).Some?
    ensures PacedEvent(d, Wrote(place, Stored(Applied(op, receipt, now))))
  {
    if place.Record? && place.dir == Accepted {
      AppliedIsPaced(op, receipt, now);
    }
  }

  /** Finitely many files leave some stamp unused. */
  lemma {:induction false} FreshStamp(slots: set<Slot>, name: string, reason: string)
    ensures exists millis :: PreservedRecord(name, reason, millis) !in slots
    ensures exists millis :: PreservedJob(name, reason, millis) !in slots
  {
    var top := HighestStamp(slots);
    assert PreservedRecord(name, reason, top + 1) !in slots;
    assert PreservedJob(name, reason, top + 1) !in slots;
  }

  lemma {:induction false} HighestStamp(slots: set<Slot>) returns (top: int)
    ensures forall s | s in slots && (s.PreservedRecord? || s.PreservedJob?) :: s.millis <= top
  {
    if slots == {} {
      top := 0;
    } else {
      var s :| s in slots;
      top := HighestStamp(slots - {s});
      if (s.PreservedRecord? || s.PreservedJob?) && s.millis > top {
        top := s.millis;
      }
    }
  }
}
