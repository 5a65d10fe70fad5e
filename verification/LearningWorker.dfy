/**
 The learning worker: `run-once`, `quarantine` and `release` over the queue of
 module `LearningQueue`. Every file operation goes through a primitive that first
 lets the other programs act and then records the event, so each command is
 proved safe at every point where it could stop.
 */
module LearningWorker {
  import opened Basics
  import opened Json
  import opened MemoryOperations
  import opened LearningQueue
  import opened QueueRuns
  import opened WorkerSteps

  class Worker {
    var disk: Disk
    var ledger: map<string, Receipt>
    /** The project id of this process's environment. */
    var project: string
    /** Where the run began and what has durably happened since. */
    var origin: World
    var history: seq<Event>

    ghost predicate Valid()
      reads this
    {
      Sound(origin, history, World(disk, ledger))
    }

    /** The run so far only grew. */
    twostate predicate Continues()
      reads this
    {
      origin == old(origin) && old(history) <= history && project == old(project) && old(ledger).Keys <= ledger.Keys
    }

    /** Nothing was submitted. */
    twostate predicate Silent()
      reads this
    {
      Sent(history) == Sent(old(history))
    }

    constructor (w: World, environment: string)
      requires Inv(w.disk)
      ensures Valid() && origin == w && disk == w.disk && ledger == w.ledger && history == [] && project == environment
    {
      disk, ledger, project, origin, history := w.disk, w.ledger, environment, w, [];
    }

    // -- Primitives -----------------------------------------------------------

    method Perform(e: Event)
      requires Valid() && Safe(World(disk, ledger), e) && MaySend(origin, history, e) && PacedEvent(disk, e)
      modifies this`disk, this`ledger, this`history
      ensures Valid() && Continues() && history == old(history) + [e]
      ensures World(disk, ledger) == Apply(World(old(disk), old(ledger)), e)
      ensures Sent(history) == Sent(old(history)) + SentBy(e)
    {
      SoundOn(origin, history, World(disk, ledger), e);
      var next := Apply(World(disk, ledger), e);
      disk, ledger, history := next.disk, next.ledger, history + [e];
    }

    /** `queue_memory` of `pk candidates accept`, when nothing happens to the name between its first
        look and its write (`MemoryEnqueue` says when that is so and what else can happen): nothing when
        any directory holds the name. No candidate has the id of an event that a job waits for. */
    method QueueMemory(id: string, arguments: Value, queuedAt: Stamp)
      requires Valid()
      modifies this`disk, this`ledger, this`history
      ensures Valid() && Continues() && Silent() && ledger == old(ledger)
      ensures disk == if Absent(old(disk), id) && !Awaited(old(disk), id)
                      then old(disk)[Record(Pending, id) := Stored(NewOperation(id, arguments, queuedAt))]
                      else old(disk)
    {
      if Absent(disk, id) && !Awaited(disk, id) {
        Perform(Wrote(Record(Pending, id), Stored(NewOperation(id, arguments, queuedAt))));
      }
    }

    /** A hook publishes a job under a free name, for any event, whether the queue has a record of it or
        another job that waits for it or not. */
    method PublishJob(name: string, job: LearningJob)
      requires Valid()
      modifies this`disk, this`ledger, this`history
      ensures Valid() && Continues() && Silent() && ledger == old(ledger) && Grown(old(disk), disk)
      ensures disk == if NameFree(old(disk), name)
                      then old(disk)[JobSlot(JobPending, name) := Publication(old(disk), name, job)]
                      else old(disk)
    {
      if NameFree(disk, name) {
        Perform(Wrote(JobSlot(JobPending, name), Publication(disk, name, job)));
      }
    }

    method Arrive(arrival: Arrival)
      requires Valid()
      modifies this`disk, this`ledger, this`history
      ensures Valid() && Continues() && Grown(old(disk), disk) && Silent()
    {
      match arrival
      case QueueOperation(id, arguments, queuedAt) =>
        QueueMemory(id, arguments, queuedAt);
      case PublishedJob(name, job) =>
        PublishJob(name, job);
      case LedgerProgress(id, receipt) =>
        if id in ledger {
          Perform(Event.Progressed(id, receipt));
        }
      case LateLanding(id, receipt) =>
        Perform(Landed(id, receipt));
    }

    /** Other programs act, any number of times. */
    method Elsewhere(arrivals: seq<Arrival>)
      requires Valid()
      modifies this`disk, this`ledger, this`history
      ensures Valid() && Continues() && Grown(old(disk), disk) && Silent()
    {
      for i := 0 to |arrivals|
        invariant Valid() && Continues() && Grown(old(disk), disk) && Silent()
      {
        ghost var before := disk;
        Arrive(arrivals[i]);
        GrownTwice(old(disk), before, disk);
      }
    }

    /** `atomic_json`: the file is replaced whole. */
    method AtomicJson(slot: Slot, file: File) returns (ghost mid: Disk)
      requires Valid() && SafeWrite(disk, slot, file) && PacedEvent(disk, Wrote(slot, file))
      requires slot in disk || slot.WikiPage? || (slot.Record? && Awaited(disk, slot.name))
      modifies this`disk, this`ledger, this`history
      ensures Valid() && Continues() && Silent()
      ensures Grown(old(disk), mid) && disk == mid[slot := file]
    {
      var arrivals: seq<Arrival> := *;
      Elsewhere(arrivals);
      mid := disk;
      GrownKeepsWrite(old(disk), mid, slot, file);
      Perform(Wrote(slot, file));
    }

    /** `durable_rename`: an existing target would be replaced. */
    method DurableRename(source: Slot, target: Slot) returns (ghost mid: Disk)
      requires Valid() && SafeRename(disk, source, target)
      modifies this`disk, this`ledger, this`history
      ensures Valid() && Continues() && Silent()
      ensures Grown(old(disk), mid) && source in mid && disk == (mid - {source})[target := mid[source]]
    {
      var arrivals: seq<Arrival> := *;
      Elsewhere(arrivals);
      mid := disk;
      GrownKeepsRename(old(disk), mid, source, target);
      Perform(Renamed(source, target));
    }

    // -- Rewriting and moving one record ------------------------------------------

    /** Replace the record at `slot`; nothing else of its name changes. */
    method Rewrite(slot: Slot, op: MemoryOperation, ghost todo: set<Slot>)
      requires Valid() && slot.Record? && slot in disk && SafeWrite(disk, slot, Stored(op)) && Calm(disk, todo)
      requires PacedEvent(disk, Wrote(slot, Stored(op)))
      modifies this`disk, this`ledger, this`history
      ensures Valid() && Continues() && Calm(disk, todo) && Only(old(disk), disk, slot.name) && Silent()
      ensures slot in disk && disk[slot] == Stored(op)
      ensures forall s | IsMemory(s) && s.name == slot.name && s != slot ::
                (s in disk <==> s in old(disk)) && (s in disk ==> disk[s] == old(disk)[s])
    {
      ghost var mid := AtomicJson(slot, Stored(op));
      GrownIsOnly(old(disk), mid, slot.name);
      GrownStaysCalm(old(disk), mid, todo);
    }

    /** Move the record at `source`; nothing else of its name changes. */
    method Move(source: Slot, target: Slot, ghost todo: set<Slot>)
      requires Valid() && source.Record? && SafeRename(disk, source, target) && Calm(disk, todo)
      modifies this`disk, this`ledger, this`history
      ensures Valid() && Continues() && Calm(disk, todo) && Only(old(disk), disk, source.name) && Silent()
      ensures source !in disk && target in disk && disk[target] == old(disk)[source]
      ensures forall s | IsMemory(s) && s.name == source.name && s != source && s != target ::
                (s in disk <==> s in old(disk)) && (s in disk ==> disk[s] == old(disk)[s])
    {
      ghost var mid := DurableRename(source, target);
      GrownIsOnly(old(disk), mid, source.name);
      GrownStaysCalm(old(disk), mid, todo);
    }

    /** `preserve_duplicate_in`: a file that would collide is kept under a name no other duplicate has.
        (The name carries a millisecond stamp; two duplicates of one name in one millisecond are
        excluded.) */
    method PreserveDuplicate(slot: Slot, reason: string, ghost todo: set<Slot>) returns (kept: Slot)
      requires Valid() && slot.Record? && slot in disk && !Owed(disk, slot.name) && Calm(disk, todo)
      requires exists other :: other != slot.dir && Record(other, slot.name) in disk
      modifies this`disk, this`ledger, this`history
      ensures Valid() && Continues() && Calm(disk, todo) && Only(old(disk), disk, slot.name) && Silent()
      ensures kept.PreservedRecord? && kept.name == slot.name && kept.reason == reason && kept !in old(disk)
      ensures slot !in disk && kept in disk && disk[kept] == old(disk)[slot]
      ensures forall s | IsMemory(s) && s.name == slot.name && s != slot && s != kept ::
                (s in disk <==> s in old(disk)) && (s in disk ==> disk[s] == old(disk)[s])
    {
      FreshStamp(disk.Keys, slot.name, reason);
      var millis :| PreservedRecord(slot.name, reason, millis) !in disk;
      kept := PreservedRecord(slot.name, reason, millis);
      Move(slot, kept, todo);
    }

    // -- Receipts ---------------------------------------------------------------------

    /** Write the new state in place, then move the record to where that state lives; if the place is
        taken, keep the record beside it. */
    method Settle(place: Slot, op: MemoryOperation, destination: MemoryDir)
      requires Valid() && place.Record? && place in disk && !Owed(disk, place.name) && Calm(disk, {})
      requires SafeWrite(disk, place, Stored(op)) && destination in {Accepted, Completed, Rejected}
      requires PacedEvent(disk, Wrote(place, Stored(op)))
      modifies this`disk, this`ledger, this`history
      ensures Valid() && Continues() && Calm(disk, {}) && Only(old(disk), disk, place.name) && Silent()
      ensures Settled(old(disk), disk, place, op, destination)
    {
      var target := Record(destination, place.name);
      Rewrite(place, op, {});
      ghost var mid := disk;
      if place != target {
        CalmNotOwed(mid, place.name, place.dir);
        if target in disk {
          var kept := PreserveDuplicate(place, "receipt-reconciliation", {});
          OnlyTwice(old(disk), mid, disk, place.name);
        } else {
          Move(place, target, {});
          OnlyTwice(old(disk), mid, disk, place.name);
        }
      }
    }

    /** `apply_receipt` on the record at `place`, whose content in memory is `operation`. */
    method ApplyReceipt(place: Slot, operation: MemoryOperation, receipt: Receipt, now: int)
      returns (r: Result<ReceiptOutcome, Failure>)
      requires Valid() && place.Record? && place in disk && !Owed(disk, place.name) && Calm(disk, {})
      requires SameRecord(disk[place], Stored(operation)) && Bound(operation) && Due(place, disk[place], operation, now)
      modifies this`disk, this`ledger, this`history
      ensures Valid() && Continues() && Calm(disk, {}) && Only(old(disk), disk, place.name) && Silent()
      ensures r == if !ReceiptMatches(operation, receipt) then Err(ReceiptMismatch)
                   else if Destination(receipt.state).None? then Err(UnknownReceiptState)
                   else Ok(OutcomeOf(operation, receipt))
      ensures r.Err? ==> disk == old(disk)
      ensures r.Ok? ==> Settled(old(disk), disk, place, Applied(operation, receipt, now),
          Destination(receipt.state).value)
      // In plain terms: only a receipt of the contract, for this very operation and payload, is applied; its
      // state says where the record goes, and a transition is one that the record did not claim before.
      ensures ResultMeans(operation, receipt, r)
      ensures r.Ok? ==> EndsByState(old(disk), disk, place, receipt)
    {
      ResultIsMeant(operation, receipt);
      if !ReceiptMatches(operation, receipt) {
        return Err(ReceiptMismatch);
      }
      var op, changed := ObserveReceipt(operation, receipt, now);
      op := op.(receipt := Some(receipt), lastError := receipt.error);
      var destination;
      match receipt.state {
        case Committed => destination := Completed;
        case Refused => destination := Rejected;
        case Underway(_) => destination := Accepted;
        case UnknownState(_) => return Err(UnknownReceiptState);
      }
      op := op.(state := In(destination));
      AppliedIsSame(disk[place], operation, receipt, now);
      DueIsPaced(disk, place, operation, receipt, now);
      ghost var before := disk;
      Settle(place, op, destination);
      SettledEndsByState(before, disk, place, operation, receipt, now);
      r := Ok(if op.state != operation.state then Transitioned else if changed then ReceiptOutcome.Progressed
        else Unchanged);
    }

    // -- The ledger ---------------------------------------------------------------------

    /** GET of one operation: its receipt, or that the ledger does not have it. */
    method Lookup(id: string, fate: LookupFate) returns (r: Result<Option<Receipt>, Failure>)
      ensures match fate
              case LookupTimedOut => r == Err(Transport)
              case LookupFailed => r == Err(LedgerRefused)
              case LookupAnswered => r == Ok(if id in ledger then Some(ledger[id]) else None)
    {
      match fate {
        case LookupTimedOut => r := Err(Transport);
        case LookupFailed => r := Err(LedgerRefused);
        case LookupAnswered => r := Ok(if id in ledger then Some(ledger[id]) else None);
      }
    }

    /** POST of the record at `place`, whose id the ledger was seen to lack when `since` events had happened. */
    method SubmitOperation(place: Slot, op: MemoryOperation, fate: SubmitFate, ghost since: nat)
        returns (r: Result<Receipt, Failure>)
      requires Valid() && place in disk && place.Record? && disk[place].Stored? && Bound(disk[place].op)
      requires op.payloadHash.Some? && RequestOf(op) == RequestOf(disk[place].op)
      requires since <= |history| && op.operationId !in LedgerAt(origin, history, since)
          && Sent(history[..since]) == Sent(history)
      modifies this`disk, this`ledger, this`history
      ensures Valid() && Continues() && disk == old(disk)
      ensures exists landed :: history == old(history) + [Submitted(place, RequestOf(op), landed)]
      ensures Sent(history) == Sent(old(history)) + [RequestOf(op)]
      ensures RequestOf(op) == Request(operationId := op.operationId, kind := op.kind, dependencies := op.dependencies,
                                       payloadHash := Sha256(Compact(op.arguments)), payload := op.arguments)
      ensures match fate
              case RequestLost => r == Err(Transport) && ledger == old(ledger)
              case ReplyLost(receipt) => r == Err(Transport) && ledger == old(ledger)[op.operationId := receipt]
              case SubmitRefused => r == Err(LedgerRefused) && ledger == old(ledger)
              case ReplyUnusable(receipt) => r == Err(LedgerRefused) && ledger == old(ledger)[op.operationId := receipt]
              case SubmitAnswered(receipt) => r == Ok(receipt) && ledger == old(ledger)[op.operationId := receipt]
    {
      var landed := if fate.ReplyLost? || fate.ReplyUnusable? || fate.SubmitAnswered? then Some(fate.receipt) else None;
      assert MaySendSince(origin, history, since, Submitted(place, RequestOf(op), landed));
      Perform(Submitted(place, RequestOf(op), landed));
      match fate {
        case RequestLost => r := Err(Transport);
        case ReplyLost(_) => r := Err(Transport);
        case SubmitRefused => r := Err(LedgerRefused);
        case ReplyUnusable(_) => r := Err(LedgerRefused);
        case SubmitAnswered(receipt) => r := Ok(receipt);
      }
    }

    /** Other programs act, and requests sent earlier may land, while the worker holds a record. */
    method Meanwhile(place: Slot)
      requires Valid() && place in disk && place.Record? && Calm(disk, {})
      modifies this`disk, this`ledger, this`history
      ensures Valid() && Continues() && Silent() && Calm(disk, {}) && place in disk && disk[place] == old(disk)[place]
      ensures Only(old(disk), disk, place.name) && SameFamily(old(disk), disk, place.name)
    {
      var arrivals: seq<Arrival> := *;
      Elsewhere(arrivals);
      GrownIsOnly(old(disk), disk, place.name);
      GrownStaysCalm(old(disk), disk, {});
    }

    /** GET of the record's id, at some moment. */
    method LookUp(place: Slot, op: MemoryOperation, fate: LookupFate)
        returns (found: Result<Option<Receipt>, Failure>, ghost known: bool)
      requires Valid() && place in disk && place.Record? && Calm(disk, {})
      modifies this`disk, this`ledger, this`history
      ensures Valid() && Continues() && Silent() && Calm(disk, {}) && place in disk && disk[place] == old(disk)[place]
      ensures Only(old(disk), disk, place.name) && SameFamily(old(disk), disk, place.name)
      ensures (op.operationId in old(ledger) ==> known) && (known <==> op.operationId in ledger)
      ensures match fate
              case LookupTimedOut => found == Err(Transport)
              case LookupFailed => found == Err(LedgerRefused)
              case LookupAnswered => found == Ok(if known then Some(ledger[op.operationId]) else None)
    {
      Meanwhile(place);
      known := op.operationId in ledger;
      found := Lookup(op.operationId, fate);
    }

    /** The ledger was just seen to lack the id: check that it is ready, and submit. */
    method SubmitMissing(place: Slot, op: MemoryOperation, net: Conversation) returns (r: Result<Receipt, Failure>)
      requires Valid() && place in disk && place.Record? && disk[place].Stored? && Bound(disk[place].op)
      requires op.payloadHash.Some? && RequestOf(op) == RequestOf(disk[place].op) && Calm(disk, {})
      requires op.operationId !in ledger && net.lookup == LookupAnswered
      modifies this`disk, this`ledger, this`history
      ensures Valid() && Continues() && Calm(disk, {}) && Only(old(disk), disk, place.name)
          && SameFamily(old(disk), disk, place.name)
      ensures Sent(history) == Sent(old(history)) + Requested(false, net, op)
      ensures NetError(false, net).Some? ==> r == Err(NetError(false, net).value)
      ensures NetError(false, net).None? ==> r.Ok? && op.operationId in ledger && r.value == ledger[op.operationId]
      ensures OpensWith(false, net).Some? ==>
          op.operationId in ledger && ledger[op.operationId] == OpensWith(false, net).value
    {
      Meanwhile(place);
      match net.ready {
        case ReadyTimedOut => return Err(Transport);
        case NotReady => return Err(LedgerNotReady);
        case Ready =>
          assert history[..|old(history)|] == old(history);
          r := SubmitOperation(place, op, net.submit, |old(history)|);
      }
    }

    /** Look the operation up; only if the ledger lacks it, check that the ledger is ready and submit.
        Earlier requests may land before, between and after these steps; `known` says what the lookup met. */
    method Exchange(place: Slot, op: MemoryOperation, net: Conversation)
        returns (r: Result<Receipt, Failure>, ghost known: bool)
      requires Valid() && place in disk && place.Record? && disk[place].Stored? && Bound(disk[place].op)
      requires op.payloadHash.Some? && RequestOf(op) == RequestOf(disk[place].op) && Calm(disk, {})
      modifies this`disk, this`ledger, this`history
      ensures Valid() && Continues() && Calm(disk, {}) && Only(old(disk), disk, place.name)
          && SameFamily(old(disk), disk, place.name)
      ensures op.operationId in old(ledger) ==> known
      ensures Sent(history) == Sent(old(history)) + Requested(known, net, op)
      ensures NetError(known, net).Some? ==> r == Err(NetError(known, net).value)
      ensures NetError(known, net).None? ==> r.Ok? && op.operationId in ledger && r.value == ledger[op.operationId]
      ensures r.Err? ==> FailsWith(known, net, r.error)
      ensures OpensWith(known, net).Some? ==>
          op.operationId in ledger && ledger[op.operationId] == OpensWith(known, net).value
    {
      var found;
      found, known := LookUp(place, op, net.lookup);
      if found.Err? {
        return Err(found.error), known;
      }
      if found.value.Some? {
        return Ok(found.value.value), known;
      }
      ghost var looked := disk;
      r := SubmitMissing(place, op, net);
      OnlyTwice(old(disk), looked, disk, place.name);
    }

    /** The exchange for the record at `place`, and its receipt applied. */
    method ExchangeAndApply(place: Slot, op: MemoryOperation, now: int, net: Conversation)
      returns (r: Result<ReceiptOutcome, Failure>, ghost seen: Option<Receipt>, ghost known: bool)
      requires Valid() && place in disk && place.Record? && disk[place].Stored? && Bound(disk[place].op)
          && Calm(disk, {})
      requires Bound(op) && op.payloadHash.Some? && RequestOf(op) == RequestOf(disk[place].op)
          && SameRecord(disk[place], Stored(op)) && Due(place, disk[place], op, now)
      modifies this`disk, this`ledger, this`history
      ensures Valid() && Continues() && Calm(disk, {}) && Only(old(disk), disk, place.name)
      ensures op.operationId in old(ledger) ==> known
      ensures Sent(history) == Sent(old(history)) + Requested(known, net, op)
      ensures OpensWith(known, net).Some? ==> op.operationId in ledger && (seen.Some? ==> seen == OpensWith(known, net))
      ensures seen.Some? <==> NetError(known, net).None?
      ensures Explained(known, net, op, seen, r)
      ensures seen.None? ==> r == Err(NetError(known, net).value)
      ensures seen.Some? && !ReceiptMatches(op, seen.value) ==> r == Err(ReceiptMismatch)
      ensures seen.Some? && ReceiptMatches(op, seen.value) ==>
                r == match Destination(seen.value.state)
                     case None => Err(UnknownReceiptState)
                     case Some(_) => Ok(OutcomeOf(op, seen.value))
      ensures r.Err? ==> SameFamily(old(disk), disk, place.name)
      ensures r.Ok? ==> Settled(old(disk), disk, place, Applied(op, seen.value, now),
          Destination(seen.value.state).value)
    {
      seen := None;
      var answer;
      answer, known := Exchange(place, op, net);
      NoFailure(known, net);
      if answer.Err? {
        return Err(answer.error), None, known;
      }
      seen := Some(answer.value);
      ghost var before := disk;
      CalmNotOwed(disk, place.name, place.dir);
      r := ApplyReceipt(place, op, answer.value, now);
      OnlyTwice(old(disk), before, disk, place.name);
      if r.Ok? {
        SettledLooksAtFamily(before, old(disk), disk, place, Applied(op, answer.value, now),
          Destination(answer.value.state).value);
      }
    }

    /** `reconcile_memory`: settle one record with the ledger. The caller has recovered
        `memory/submitting` and never comes here with a name that is still in it elsewhere. */
    method ReconcileMemory(slot: Slot, now: int, net: Conversation)
      returns (r: Result<ReceiptOutcome, Failure>, ghost seen: Option<Receipt>, ghost known: bool)
      requires Valid() && Calm(disk, {}) && slot.Record? && slot in disk && slot.dir in {Submitting, Accepted, Pending}
      requires if slot.dir == Submitting then disk[slot].Stored? && Bound(disk[slot].op)
          && disk[slot].op.state == In(Submitting)
               else Record(Submitting, slot.name) !in disk
      requires slot.dir == Accepted && Readable(disk[slot], project) ==>
          !Deferred(ReadOperation(disk[slot], project).value, now)
      modifies this`disk, this`ledger, this`history
      ensures Valid() && Continues() && Calm(disk, {}) && Only(old(disk), disk, slot.name)
      // An unreadable record fails and is left alone.
      ensures ReadOperation(old(disk)[slot], project).Err? ==>
                r == Err(ReadOperation(old(disk)[slot], project).error) && SameFamily(old(disk), disk, slot.name)
                  && Silent()
      // Otherwise it is brought to where it can be sent from, and the exchange decides the rest.
      ensures ReadOperation(old(disk)[slot], project).Ok? ==>
                var read := ReadOperation(old(disk)[slot], project).value;
                var op, place := Started(read), StartedAt(slot, read);
                && (read.operationId in old(ledger) ==> known)
                && Sent(history) == Sent(old(history)) + Requested(known, net, op)
                && (OpensWith(known, net).Some? ==>
                  read.operationId in ledger && (seen.Some? ==> seen == OpensWith(known, net)))
                && (seen.Some? <==> NetError(known, net).None?)
                && (seen.None? ==> r == Err(NetError(known, net).value))
                && (seen.Some? && !ReceiptMatches(op, seen.value) ==> r == Err(ReceiptMismatch))
                && (seen.Some? && ReceiptMatches(op, seen.value) ==>
                      r == match Destination(seen.value.state)
                           case None => Err(UnknownReceiptState)
                           case Some(_) => Ok(OutcomeOf(op, seen.value)))
                && (r.Err? ==> SameFamily(Begun(old(disk), slot, read), disk, slot.name))
                && (r.Ok? ==> Settled(Begun(old(disk), slot, read), disk, place, Applied(op, seen.value, now),
                  Destination(seen.value.state).value))
      ensures ReadOperation(old(disk)[slot], project).Ok? ==>
                var read := ReadOperation(old(disk)[slot], project).value;
                && Explained(known, net, Started(read), seen, r)
                && (r.Ok? ==> EndsByState(Begun(old(disk), slot, read), disk, StartedAt(slot, read), seen.value))
    {
      seen, known := None, false;
      var read := ReadOperation(disk[slot], project);
      if read.Err? {
        return Err(read.error), None, false;
      }
      var op, place := Started(read.value), StartedAt(slot, read.value);
      Begin(slot, read.value);
      ghost var begun := disk;
      r, seen, known := ExchangeAndApply(place, op, now, net);
      OnlyTwice(old(disk), begun, disk, slot.name);
      if r.Ok? {
        SettledLooksAtFamily(begun, Begun(old(disk), slot, read.value), disk, place, Applied(op, seen.value, now),
          Destination(seen.value.state).value);
        SettledEndsByState(Begun(old(disk), slot, read.value), disk, place, op, seen.value, now);
      }
    }

    /** Mark a pending record as being submitted and move it to `memory/submitting`. */
    method Begin(slot: Slot, read: MemoryOperation)
      requires Valid() && Calm(disk, {}) && slot.Record? && slot in disk && slot.dir in {Submitting, Accepted, Pending}
      requires if slot.dir == Submitting then disk[slot].Stored? && Bound(disk[slot].op)
          && disk[slot].op.state == In(Submitting)
               else Record(Submitting, slot.name) !in disk
      requires ReadOperation(disk[slot], project) == Ok(read)
      modifies this`disk, this`ledger, this`history
      ensures Valid() && Continues() && Calm(disk, {}) && Only(old(disk), disk, slot.name) && Silent()
      ensures SameFamily(Begun(old(disk), slot, read), disk, slot.name)
      ensures var place := StartedAt(slot, read);
              && place in disk && disk[place].Stored? && Bound(disk[place].op)
              && Bound(Started(read)) && RequestOf(Started(read)) == RequestOf(disk[place].op)
              && SameRecord(disk[place], Stored(Started(read))) && SamePace(disk[place].op, Started(read))
      ensures read.state == In(Pending) ==>
                var place := Record(Submitting, slot.name);
                place in disk && disk[place] == Stored(read.(state := In(Submitting), lastError := None))
    {
      RewriteIsSame(disk[slot], project, Started(read));
      if read.state == In(Pending) {
        Rewrite(slot, Started(read), {});
        ghost var marked := disk;
        CalmNotOwed(disk, slot.name, slot.dir);
        Move(slot, Record(Submitting, slot.name), {});
        OnlyTwice(old(disk), marked, disk, slot.name);
        BegunByMove(old(disk), marked, disk, slot, Stored(Started(read)));
      } else {
        ReadingSettles(disk[slot].op, project, project);
      }
    }

    // -- One reconciliation pass ------------------------------------------------------

    /** `record_memory_error`: find the record again and note the error on it. */
    method RecordMemoryError(slot: Slot, error: string) returns (failed: Option<Failure>)
      requires Valid() && Calm(disk, {}) && slot.Record?
      modifies this`disk, this`ledger, this`history
      ensures Valid() && Continues() && Calm(disk, {}) && Only(old(disk), disk, slot.name)
      ensures var found := Locate(old(disk), slot);
              if found.None? then failed == Some(Missing) && disk == old(disk)
              else
                var read := ReadOperation(old(disk)[found.value], project);
                if read.Err? then failed == Some(read.error) && disk == old(disk)
                else
                  var noted := Stored(read.value.(lastError := Some(error)));
                  failed == None && SameFamily(old(disk)[found.value := noted], disk, slot.name)
    {
      var found := Locate(disk, slot);
      if found.None? {
        return Some(Missing);
      }
      var read := ReadOperation(disk[found.value], project);
      if read.Err? {
        return Some(read.error);
      }
      var op := read.value.(lastError := Some(error));
      RewriteIsSame(disk[found.value], project, op);
      Rewrite(found.value, op, {});
      failed := None;
    }

    /** The failed reconciliation of the record that was at `slot` is noted on it, where it is now. */
    method NoteFailure(slot: Slot, error: Failure, ghost before: Disk) returns (failed: Option<Failure>)
      requires Valid() && Calm(disk, {}) && slot.Record? && SubmittingReady(before) && Only(before, disk, slot.name)
      requires slot in before && slot.dir in {Submitting, Accepted, Pending}
      requires slot.dir != Submitting ==> Record(Submitting, slot.name) !in before
      requires SameFamily(if Readable(before[slot], project)
        then Begun(before, slot, ReadOperation(before[slot], project).value) else before, disk, slot.name)
      modifies this`disk, this`ledger, this`history
      ensures Valid() && Continues() && Calm(disk, {}) && Only(before, disk, slot.name) && SubmittingReady(disk)
      ensures failed.Some? <==> !Readable(before[slot], project)
      ensures failed.None? ==> TallyMeans(before, disk, slot, AwaitingReconciliation)
      ensures failed.None? ==>
          NotesError(disk, StartedAt(slot, ReadOperation(before[slot], project).value), error)
      ensures KeepsTidy(before, disk)
    {
      ghost var mid, read := disk, ReadOperation(before[slot], project);
      FailedMeans(before, mid, slot, read, project);
      failed := RecordMemoryError(slot, ErrorText(error));
      OnlyTwice(before, mid, disk, slot.name);
      if read.Ok? {
        NotedMeans(before, mid, disk, slot, read.value, project, ErrorText(error));
        NotedTidy(before, mid, disk, slot, read.value, project, ErrorText(error));
      } else {
        assert ReadyAt(before, slot.name) && disk == mid && IsMemory(Record(Submitting, slot.name));
        FamilyTidy(before, disk, slot.name);
      }
      OnlyKeepsTidy(before, disk, slot.name);
      StaysReady(before, disk, slot.name);
    }

    /** `reconcile_memory` on a listed record, and what its success means for the count. */
    method ReconcileListed(slot: Slot, now: int, net: Conversation)
        returns (r: Result<ReceiptOutcome, Failure>, ghost seen: Option<Receipt>, ghost known: bool)
      requires Valid() && Calm(disk, {}) && SubmittingReady(disk)
      requires slot.Record? && slot in disk && slot.dir in {Submitting, Accepted, Pending}
      requires slot.dir != Submitting ==> Record(Submitting, slot.name) !in disk
      requires slot.dir == Accepted && Readable(disk[slot], project) ==>
          !Deferred(ReadOperation(disk[slot], project).value, now)
      modifies this`disk, this`ledger, this`history
      ensures Valid() && Continues() && Calm(disk, {}) && Only(old(disk), disk, slot.name)
      ensures r.Ok? ==> Readable(old(disk)[slot], project) && SubmittingReady(disk) && KeepsTidy(old(disk), disk)
      ensures Readable(old(disk)[slot], project) ==>
                var read := ReadOperation(old(disk)[slot], project).value;
                && Explained(known, net, Started(read), seen, r)
                && (r.Ok? ==>
                      var tally := if r.value == Transitioned then Delivered else InFlight;
                      && Reported(old(disk), disk, slot, read, tally, false, r, seen)
                      && (Tidy(slot, read) ==> TallyMeans(old(disk), disk, slot, tally)))
      ensures r.Err? ==>
          SameFamily(if Readable(old(disk)[slot], project)
            then Begun(old(disk), slot, ReadOperation(old(disk)[slot], project).value) else old(disk), disk, slot.name)
    {
      ghost var before, read := disk, ReadOperation(disk[slot], project);
      assert ReadyAt(before, slot.name);
      r, seen, known := ReconcileMemory(slot, now, net);
      if r.Ok? {
        SettledEnds(before, disk, slot, read.value, seen.value, now);
      }
    }

    /** One listed record that is not deferred. */
    method ReconcileDue(slot: Slot, now: int, net: Conversation)
        returns (tally: Tally, stopped: bool, failed: Option<Failure>,
                 ghost outcome: Result<ReceiptOutcome, Failure>, ghost seen: Option<Receipt>, ghost known: bool)
      requires Valid() && Calm(disk, {}) && SubmittingReady(disk)
      requires slot.Record? && slot in disk && slot.dir in {Submitting, Accepted, Pending}
      requires slot.dir != Submitting ==> Record(Submitting, slot.name) !in disk
      requires slot.dir == Accepted && Readable(disk[slot], project) ==>
          !Deferred(ReadOperation(disk[slot], project).value, now)
      modifies this`disk, this`ledger, this`history
      ensures Valid() && Continues() && Calm(disk, {}) && Only(old(disk), disk, slot.name) && SubmittingReady(disk)
      ensures failed.Some? <==> !Readable(old(disk)[slot], project)
      ensures tally != DeferredPoll && (stopped ==> tally == AwaitingReconciliation)
      ensures failed.None? ==>
                var read := ReadOperation(old(disk)[slot], project).value;
                && (Tidy(slot, read) ==> TallyMeans(old(disk), disk, slot, tally))
                && Explained(known, net, Started(read), seen, outcome)
                && Reported(old(disk), disk, slot, read, tally, stopped, outcome, seen)
      ensures KeepsTidy(old(disk), disk)
    {
      ghost var before := disk;
      var r;
      r, seen, known := ReconcileListed(slot, now, net);
      outcome := r;
      if r.Ok? {
        tally, stopped, failed := if r.value == Transitioned then Delivered else InFlight, false, None;
      } else {
        failed := NoteFailure(slot, r.error, before);
        tally, stopped := AwaitingReconciliation, r.error == Transport;
      }
    }

    /** Poll, submit or settle one listed record and count it. `stopped` asks the pass to stop (the
        server is unreachable); `failed` aborts the run. */
    method ReconcileOne(slot: Slot, now: int, net: Conversation)
        returns (tally: Tally, stopped: bool, failed: Option<Failure>,
                 ghost outcome: Result<ReceiptOutcome, Failure>, ghost seen: Option<Receipt>, ghost known: bool)
      requires Valid() && Calm(disk, {}) && SubmittingReady(disk)
      requires slot.Record? && slot in disk && slot.dir in {Submitting, Accepted, Pending}
      requires slot.dir != Submitting ==> Record(Submitting, slot.name) !in disk
      modifies this`disk, this`ledger, this`history
      ensures Valid() && Continues() && Calm(disk, {}) && Only(old(disk), disk, slot.name) && SubmittingReady(disk)
      ensures failed.Some? <==> !Readable(old(disk)[slot], project)
      ensures stopped ==> tally == AwaitingReconciliation
      ensures failed.None? ==>
                var read := ReadOperation(old(disk)[slot], project).value;
                && (tally == DeferredPoll <==> slot.dir == Accepted && Deferred(read, now))
                && (Tidy(slot, read) ==> TallyMeans(old(disk), disk, slot, tally))
                && (tally != DeferredPoll ==>
                      && Explained(known, net, Started(read), seen, outcome)
                      && Reported(old(disk), disk, slot, read, tally, stopped, outcome, seen))
      ensures KeepsTidy(old(disk), disk)
    {
      var read := ReadOperation(disk[slot], project);
      if slot.dir == Accepted && read.Ok? && Deferred(read.value, now) {
        return DeferredPoll, false, None, Err(Missing), None, false;
      }
      tally, stopped, failed, outcome, seen, known := ReconcileDue(slot, now, net);
    }

    /** Visit one listed record that no earlier listing had, and count it. */
    method Visit(dir: MemoryDir, name: string, before: map<string, Tally>, counted: Counts, ghost start: Disk)
      returns (tally: Tally, stopped: bool, failed: Option<Failure>)
      requires Valid() && Calm(disk, {}) && SubmittingReady(disk)
      requires Progress(start, disk, before, project) && counted == CountsOf(before)
      requires dir in LISTED && name !in before && Record(dir, name) in disk
      requires forall earlier | earlier in LISTED && Record(earlier, name) in start ::
          earlier == dir || Later(earlier, dir)
      requires dir != Submitting ==> Record(Submitting, name) !in disk
      modifies this`disk, this`ledger, this`history
      ensures Valid() && Continues() && Calm(disk, {}) && SubmittingReady(disk) && Only(old(disk), disk, name)
      ensures KeepsTidy(old(disk), disk)
      ensures failed.None? ==>
          Progress(start, disk, before[name := tally], project)
          && Count(counted, tally) == CountsOf(before[name := tally])
      ensures failed.Some? ==> Record(dir, name) in start && !Readable(start[Record(dir, name)], project)
      ensures Record(dir, name) in start || (dir == Pending && Absent(start, name))
    {
      var now: int, net: Conversation := *, *;
      ListedFirst(start, disk, before, dir, name, project);
      ghost var outcome, seen, known;
      tally, stopped, failed, outcome, seen, known := ReconcileOne(Record(dir, name), now, net);
      if failed.None? {
        ProgressStep(start, old(disk), disk, before, Record(dir, name), tally, project);
        CountOneMore(before, name, tally);
      }
    }

    /** The next name that one directory lists: skipped if it was visited before. */
    method VisitListed(dir: MemoryDir, name: string, ghost names: set<string>, ghost before: map<string, Tally>,
        outcomes: map<string, Tally>, counts: Counts, ghost start: Disk, ghost entry: Disk)
      returns (outcomes': map<string, Tally>, counts': Counts, stopped: bool, failed: Option<Failure>)
      requires Valid() && Calm(disk, {}) && SubmittingReady(disk) && dir in LISTED && name in names
      requires MidPass(start, entry, disk, dir, names, before, outcomes, counts, project)
      requires name !in outcomes ==> forall earlier | earlier in LISTED && Record(earlier, name) in start ::
                 earlier == dir || Later(earlier, dir)
      modifies this`disk, this`ledger, this`history
      ensures Valid() && Continues() && Calm(disk, {}) && SubmittingReady(disk) && KeepsTidy(entry, disk)
      ensures failed.None? ==> MidPass(start, entry, disk, dir, names - {name}, before, outcomes', counts', project)
      ensures failed.Some? ==> Record(dir, name) in start && !Readable(start[Record(dir, name)], project)
      ensures failed.Some? ==> outcomes' == outcomes
      ensures outcomes.Keys <= outcomes'.Keys
    {
      outcomes', counts', stopped, failed := outcomes, counts, false, None;
      if name !in outcomes {
        ghost var mid := disk;
        var tally;
        tally, stopped, failed := Visit(dir, name, outcomes, counts, start);
        if failed.Some? {
          return;
        }
        TodoStep(start, mid, disk, dir, names, before, outcomes, name, tally);
        outcomes', counts' := outcomes[name := tally], Count(counts, tally);
      }
      TodoDrop(start, disk, dir, names, before, outcomes', name);
    }

    /** Visit the records one directory lists, skipping names visited before. */
    method ReconcileDirectory(dir: MemoryDir, before: map<string, Tally>, counted: Counts, ghost start: Disk)
      returns (outcomes: map<string, Tally>, counts: Counts, stopped: bool, failed: Option<Failure>)
      requires Valid() && Calm(disk, {}) && SubmittingReady(disk) && dir in LISTED
      requires Progress(start, disk, before, project) && counted == CountsOf(before)
      requires forall earlier, n | earlier in LISTED && Record(earlier, n) in start && n !in before ::
                 earlier == dir || Later(earlier, dir)
      requires dir != Submitting ==> forall n | Record(Submitting, n) in disk :: n in before
      modifies this`disk, this`ledger, this`history
      ensures Valid() && Continues() && Calm(disk, {}) && SubmittingReady(disk)
      ensures failed.None? ==>
          Progress(start, disk, outcomes, project) && counts == CountsOf(outcomes) && before.Keys <= outcomes.Keys
      ensures failed.None? && !stopped ==> forall n | Record(dir, n) in start :: n in outcomes
      ensures failed.None? && !stopped ==> forall n | Record(Submitting, n) in disk :: n in outcomes
      ensures failed.Some? ==> exists n :: Record(dir, n) in start && !Readable(start[Record(dir, n)], project)
      ensures forall n | n in outcomes && n !in before ::
          Record(dir, n) in start || (dir == Pending && Absent(start, n))
      ensures KeepsTidy(old(disk), disk)
    {
      outcomes, counts, stopped, failed := before, counted, false, None;
      var names := JsonFiles(disk, dir);
      ListedKept(start, disk, before, dir, project);
      while names != {} && !stopped
        invariant Valid() && Continues() && Calm(disk, {}) && SubmittingReady(disk) && failed.None?
        invariant MidPass(start, old(disk), disk, dir, names, before, outcomes, counts, project)
        decreases names
      {
        var name :| name in names;
        outcomes, counts, stopped, failed := VisitListed(dir, name, names, before, outcomes, counts, start, old(disk));
        if failed.Some? {
          return;
        }
        names := names - {name};
      }
    }

    /** The next of the three listings of a pass. */
    method ReconcileNext(k: nat, before: map<string, Tally>, counted: Counts, ghost start: Disk)
      returns (outcomes: map<string, Tally>, counts: Counts, stopped: bool, failed: Option<Failure>)
      requires Valid() && Calm(disk, {}) && SubmittingReady(disk) && k < 3
      requires Progress(start, disk, before, project) && counted == CountsOf(before)
      requires Passed(start, disk, before, k) && AllListed(start, before)
      modifies this`disk, this`ledger, this`history
      ensures Valid() && Continues() && Calm(disk, {}) && SubmittingReady(disk) && KeepsTidy(old(disk), disk)
      ensures failed.None? ==>
          Progress(start, disk, outcomes, project) && counts == CountsOf(outcomes) && AllListed(start, outcomes)
      ensures failed.None? && !stopped ==> Passed(start, disk, outcomes, k + 1)
      ensures failed.Some? ==> SomeUnreadable(start, project)
    {
      outcomes, counts, stopped, failed := ReconcileDirectory(LISTED[k], before, counted, start);
      if failed.None? {
        StillListed(start, before, outcomes, k);
        if !stopped {
          PassedOne(start, disk, before, outcomes, k);
        }
      }
    }

    /** The memory phase of `run-once`: submitting, then accepted, then pending, each name once. A full
        pass visits every name that had a listed record when it began. */
    method ReconcileAll() returns (outcomes: map<string, Tally>, counts: Counts, stopped: bool, failed: Option<Failure>)
      requires Valid() && Calm(disk, {}) && SubmittingReady(disk)
      modifies this`disk, this`ledger, this`history
      ensures Valid() && Continues() && Calm(disk, {})
      ensures failed.None? ==> Progress(old(disk), disk, outcomes, project) && counts == CountsOf(outcomes)
      ensures failed.None? ==> counts.delivered + counts.inFlight + counts.deferred + counts.awaiting == |outcomes|
      ensures failed.None? && !stopped ==> forall dir, n | dir in LISTED && Record(dir, n) in old(disk) :: n in outcomes
      ensures failed.None? ==> forall n | n in outcomes :: FirstIn(old(disk), LISTED, n).Some? || Absent(old(disk), n)
      ensures failed.Some? ==> SomeUnreadable(old(disk), project)
      ensures KeepsTidy(old(disk), disk)
      ensures failed.None? && TidyQueue(old(disk)) ==> TalliesExact(old(disk), disk, outcomes, project)
    {
      outcomes, counts, stopped, failed := map[], Counts(0, 0, 0, 0), false, None;
      for k := 0 to 3
        invariant Valid() && Continues() && Calm(disk, {}) && SubmittingReady(disk) && failed.None? && !stopped
        invariant Progress(old(disk), disk, outcomes, project) && counts == CountsOf(outcomes)
        invariant Passed(old(disk), disk, outcomes, k) && AllListed(old(disk), outcomes)
        invariant KeepsTidy(old(disk), disk)
      {
        outcomes, counts, stopped, failed := ReconcileNext(k, outcomes, counts, old(disk));
        if failed.Some? {
          return;
        }
        if stopped {
          break;
        }
      }
      CountsAddUp(outcomes);
      TidyTalliesExact(old(disk), disk, outcomes, project);
    }

    // -- Recovery -------------------------------------------------------------------------

    /** `recover_memory_submitting`: normalize what a crash left in `memory/submitting`, in place. It
        succeeds exactly when every record there can be read. */
    method RecoverMemorySubmitting() returns (failed: Option<Failure>)
      requires Valid()
      modifies this`disk, this`ledger, this`history
      ensures Valid() && Continues() && Frame(old(disk), disk, {Submitting})
      ensures forall n :: Record(Submitting, n) in disk <==> Record(Submitting, n) in old(disk)
      ensures failed.None?
          <==> forall n | Record(Submitting, n) in old(disk) :: Readable(old(disk)[Record(Submitting, n)], project)
      ensures failed.None? ==> SubmittingReady(disk)
      ensures failed.None? ==> forall n | Record(Submitting, n) in old(disk) ::
                var read := ReadOperation(old(disk)[Record(Submitting, n)], project).value;
                disk[Record(Submitting, n)] == Stored(read.(state := In(Submitting)))
      ensures KeepsTidy(old(disk), disk)
    {
      var names := JsonFiles(disk, Submitting);
      while names != {}
        invariant Valid() && Continues() && Frame(old(disk), disk, {Submitting})
        invariant Recovering(old(disk), disk, names, project)
        decreases names
      {
        var name :| name in names;
        ghost var mid := disk;
        var slot := Record(Submitting, name);
        var read := ReadOperation(disk[slot], project);
        if read.Err? {
          RecoveringTidy(old(disk), disk, names, project);
          return Some(read.error);
        }
        var op := read.value.(state := In(Submitting));
        RewriteIsSame(disk[slot], project, op);
        if Stored(op) != disk[slot] {
          Rewrite(slot, op, AllWaiting(disk));
          OnlyIsFrame(mid, disk, name, {Submitting});
          FrameTwice(old(disk), mid, disk, {Submitting});
        }
        RecoveringStep(old(disk), mid, disk, names, name, project);
        names := names - {name};
      }
      failed := None;
      Recovered(old(disk), disk, project);
      RecoveringTidy(old(disk), disk, {}, project);
    }

    /** Normalize a legacy record where it is, then rename it into `memory/pending`. */
    method MigrateByRename(name: string, read: MemoryOperation)
      requires Valid() && Record(Retry, name) in disk && Record(Pending, name) !in disk
      requires ReadOperation(disk[Record(Retry, name)], project) == Ok(read)
      modifies this`disk, this`ledger, this`history
      ensures Valid() && Continues() && Only(old(disk), disk, name)
      ensures Record(Retry, name) !in disk && Record(Pending, name) in disk
      ensures disk[Record(Pending, name)] == Stored(read.(state := In(Pending), lastError := None))
      ensures Bound(read.(state := In(Pending), lastError := None))
      ensures forall s | IsMemory(s) && s.name == name && s != Record(Retry, name) && s != Record(Pending, name) ::
                (s in disk <==> s in old(disk)) && (s in disk ==> disk[s] == old(disk)[s])
    {
      var source, target := Record(Retry, name), Record(Pending, name);
      var op := read.(state := In(Pending), lastError := None);
      RewriteIsSame(disk[source], project, op);
      Rewrite(source, op, AllWaiting(disk));
      ghost var mid := disk;
      InvNotOwed(disk, name, Retry);
      Move(source, target, AllWaiting(disk));
      OnlyTwice(old(disk), mid, disk, name);
    }

    /** Bring one record of the legacy `memory/retry` back to `memory/pending`. */
    method MigrateOne(name: string) returns (failed: Option<Failure>)
      requires Valid() && Record(Retry, name) in disk
      modifies this`disk, this`ledger, this`history
      ensures Valid() && Continues() && Frame(old(disk), disk, {Retry, Pending}) && Only(old(disk), disk, name)
      ensures failed.None? <==> Record(Pending, name) in old(disk) || Readable(old(disk)[Record(Retry, name)], project)
      ensures failed.Some? ==> disk == old(disk)
      ensures failed.None? ==> Record(Retry, name) !in disk && MigratedAt(old(disk), disk, name, project)
      ensures PendingGrows(old(disk), disk)
    {
      var source, target := Record(Retry, name), Record(Pending, name);
      InvNotOwed(disk, name, Retry);
      if target in disk {
        var kept := PreserveDuplicate(source, "legacy-memory-retry", AllWaiting(disk));
      } else {
        var read := ReadOperation(disk[source], project);
        if read.Err? {
          return Some(read.error);
        }
        MigrateByRename(name, read.value);
      }
      OnlyIsFrame(old(disk), disk, name, {Retry, Pending});
      OnlyGrowsPending(old(disk), disk, name);
      failed := None;
    }

    /** `migrate_legacy_memory_retry`: empty `memory/retry`, up to the first record that has to be read
        and cannot. */
    method MigrateLegacyMemoryRetry() returns (failed: Option<Failure>)
      requires Valid()
      modifies this`disk, this`ledger, this`history
      ensures Valid() && Continues() && Frame(old(disk), disk, {Retry, Pending})
      ensures failed.None? <==> forall n | Record(Retry, n) in old(disk) ::
                Record(Pending, n) in old(disk) || Readable(old(disk)[Record(Retry, n)], project)
      ensures failed.None? ==> forall n :: Record(Retry, n) !in disk
      ensures failed.None? ==> forall n | Record(Retry, n) in old(disk) :: MigratedAt(old(disk), disk, n, project)
      ensures PendingGrows(old(disk), disk)
    {
      var names := JsonFiles(disk, Retry);
      while names != {}
        invariant Valid() && Continues() && Frame(old(disk), disk, {Retry, Pending})
        invariant Migrating(old(disk), disk, names, project) && PendingGrows(old(disk), disk)
        decreases names
      {
        var name :| name in names;
        ghost var mid := disk;
        failed := MigrateOne(name);
        FrameTwice(old(disk), mid, disk, {Retry, Pending});
        if failed.Some? {
          return;
        }
        MigratingStep(old(disk), mid, disk, names, name, project);
        names := names - {name};
      }
      failed := None;
    }

    // -- Quarantine and release -----------------------------------------------------------

    /** The accepted records that can be read and are stale, as read. */
    method SelectStale(olderThan: nat, now: int) returns (stale: map<string, MemoryOperation>)
      ensures stale == StaleRecords(disk, JsonFiles(disk, Accepted), project, now, olderThan)
    {
      var names := JsonFiles(disk, Accepted);
      var visited: set<string> := {};
      stale := map[];
      while names != {}
        invariant names + visited == JsonFiles(disk, Accepted) && names !! visited
        invariant stale == StaleRecords(disk, visited, project, now, olderThan)
        decreases names
      {
        var name :| name in names;
        var read := ReadOperation(disk[Record(Accepted, name)], project);
        if read.Ok? && IsStale(read.value, now, olderThan) {
          stale := stale[name := read.value];
        }
        names, visited := names - {name}, visited + {name};
      }
    }

    /** Every stalled record, as read; the first that cannot be read fails the command. */
    method ReadStalled() returns (r: Result<map<string, MemoryOperation>, Failure>)
      ensures r.Ok? <==> forall n | Record(Stalled, n) in disk :: Readable(disk[Record(Stalled, n)], project)
      ensures r.Ok? ==> r.value == StalledRecords(disk, JsonFiles(disk, Stalled), project)
      ensures r.Err? ==> exists n ::
          Record(Stalled, n) in disk && ReadOperation(disk[Record(Stalled, n)], project) == Err(r.error)
    {
      var names := JsonFiles(disk, Stalled);
      var visited: set<string> := {};
      var stalled: map<string, MemoryOperation> := map[];
      while names != {}
        invariant names + visited == JsonFiles(disk, Stalled) && names !! visited
        invariant forall n | n in visited :: Readable(disk[Record(Stalled, n)], project)
        invariant stalled == StalledRecords(disk, visited, project)
        decreases names
      {
        var name :| name in names;
        var read := ReadOperation(disk[Record(Stalled, name)], project);
        if read.Err? {
          return Err(read.error);
        }
        stalled := stalled[name := read.value];
        names, visited := names - {name}, visited + {name};
      }
      r := Ok(stalled);
    }

    method QuarantineOne(name: string, op: MemoryOperation)
      requires Valid() && Record(Accepted, name) in disk && Record(Stalled, name) !in disk
      requires ReadOperation(disk[Record(Accepted, name)], project) == Ok(op)
      modifies this`disk, this`ledger, this`history
      ensures Valid() && Continues() && Only(old(disk), disk, name)
      ensures RelocatedAt(old(disk), disk, name, Relocation(Accepted, Stalled, op.(state := In(Stalled))))
    {
      // Renamed before the state is rewritten, so no record in memory/accepted ever claims to be stalled.
      var source, target := Record(Accepted, name), Record(Stalled, name);
      RewriteIsSame(disk[source], project, op.(state := In(Stalled)));
      InvNotOwed(disk, name, Accepted);
      Move(source, target, AllWaiting(disk));
      ghost var moved := disk;
      Rewrite(target, op.(state := In(Stalled)), AllWaiting(disk));
      OnlyTwice(old(disk), moved, disk, name);
    }

    method ReleaseOne(name: string, op: MemoryOperation, now: int)
      requires Valid() && Record(Stalled, name) in disk && Record(ReleaseDir(op), name) !in disk
      requires ReadOperation(disk[Record(Stalled, name)], project) == Ok(op)
      modifies this`disk, this`ledger, this`history
      ensures Valid() && Continues() && Only(old(disk), disk, name)
      ensures RelocatedAt(old(disk), disk, name, Relocation(Stalled, ReleaseDir(op),
          Released(op, In(ReleaseDir(op)), now)))
    {
      // Rewritten before the move: after a crash in between, a second release fixes the record up.
      var dir := ReleaseDir(op);
      var released := Released(op, In(dir), now);
      RewriteIsSame(disk[Record(Stalled, name)], project, released);
      Rewrite(Record(Stalled, name), released, AllWaiting(disk));
      ghost var written := disk;
      InvNotOwed(disk, name, Stalled);
      Move(Record(Stalled, name), Record(dir, name), AllWaiting(disk));
      OnlyTwice(old(disk), written, disk, name);
    }

    /** The moves of `quarantine`. */
    method ParkStale(stale: map<string, MemoryOperation>)
      requires Valid()
      requires forall n | n in stale ::
        && Record(Accepted, n) in disk && Record(Stalled, n) !in disk
        && ReadOperation(disk[Record(Accepted, n)], project) == Ok(stale[n])
      modifies this`disk, this`ledger, this`history
      ensures Valid() && Continues() && Relocating(old(disk), disk, QuarantinePlan(stale), {})
    {
      var left := stale.Keys;
      while left != {}
        invariant Valid() && Continues() && left <= stale.Keys
        invariant Relocating(old(disk), disk, QuarantinePlan(stale), left)
        decreases left
      {
        var name :| name in left;
        ghost var mid := disk;
        StillThere(old(disk), mid, QuarantinePlan(stale), left, name);
        QuarantineOne(name, stale[name]);
        RelocatingStep(old(disk), mid, disk, QuarantinePlan(stale), left, name);
        left := left - {name};
      }
    }

    /** `quarantine`: move the stale accepted records to `memory/stalled`, or only list them. Nothing
        moves when a target is taken. Unreadable records are skipped. */
    method Quarantine(olderThan: nat, dryRun: bool, now: int) returns (r: Result<map<string, MemoryOperation>, Failure>)
      requires Valid()
      modifies this`disk, this`ledger, this`history
      ensures Valid() && Continues()
      ensures var stale := StaleRecords(old(disk), JsonFiles(old(disk), Accepted), project, now, olderThan);
              && (r.Ok? <==> forall n | n in stale :: Record(Stalled, n) !in old(disk))
              && (r.Ok? ==> r.value == stale)
              && (r.Err? ==> r.error == TargetOccupied)
              && (r.Err? || dryRun ==> disk == old(disk) && history == old(history))
              && (r.Ok? && !dryRun ==> Relocating(old(disk), disk, QuarantinePlan(stale), {}))
      ensures r.Ok? ==> AreStale(old(disk), r.value, project, now, olderThan)
      ensures r.Ok? && !dryRun ==> Parks(old(disk), disk, r.value)
      ensures KeepsTidy(old(disk), disk)
    {
      StaleAre(disk, project, now, olderThan);
      var stale := SelectStale(olderThan, now);
      if exists n :: n in stale && Record(Stalled, n) in disk {
        return Err(TargetOccupied);
      }
      if dryRun {
        return Ok(stale);
      }
      ParkStale(stale);
      ParkedTidy(old(disk), disk, stale);
      PlanParks(old(disk), disk, stale);
      r := Ok(stale);
    }

    /** The checks of `release`, before anything moves. */
    method ChooseStalled(ids: Option<set<string>>) returns (r: Result<map<string, MemoryOperation>, Failure>)
      ensures r.Ok? <==> Releasable(disk, ids, project)
      ensures r.Ok? ==> r.value == Chosen(StalledRecords(disk, JsonFiles(disk, Stalled), project), ids)
      ensures r.Err? ==> ReleaseFails(disk, ids, project, r.error)
    {
      forall id
        ensures StalledId(disk, id, project) <==>
          var stalled := StalledRecords(disk, JsonFiles(disk, Stalled), project);
          exists n :: n in stalled && stalled[n].operationId == id
      {
        StalledIds(disk, id, project);
      }
      var read := ReadStalled();
      if read.Err? {
        return Err(read.error);
      }
      var stalled := read.value;
      if ids.Some? && exists id :: id in ids.value && forall n | n in stalled :: stalled[n].operationId != id {
        return Err(UnknownIds);
      }
      var chosen := Chosen(stalled, ids);
      if exists n :: n in chosen && Record(ReleaseDir(chosen[n]), n) in disk {
        return Err(TargetOccupied);
      }
      r := Ok(chosen);
    }

    /** The moves of `release`. */
    method FreeChosen(chosen: map<string, MemoryOperation>, now: int)
      requires Valid()
      requires forall n | n in chosen ::
        && Record(Stalled, n) in disk && Record(ReleaseDir(chosen[n]), n) !in disk
        && ReadOperation(disk[Record(Stalled, n)], project) == Ok(chosen[n])
      modifies this`disk, this`ledger, this`history
      ensures Valid() && Continues() && Relocating(old(disk), disk, ReleasePlan(chosen, now), {})
    {
      var left := chosen.Keys;
      while left != {}
        invariant Valid() && Continues() && left <= chosen.Keys
        invariant Relocating(old(disk), disk, ReleasePlan(chosen, now), left)
        decreases left
      {
        var name :| name in left;
        ghost var mid := disk;
        StillThere(old(disk), mid, ReleasePlan(chosen, now), left, name);
        ReleaseOne(name, chosen[name], now);
        RelocatingStep(old(disk), mid, disk, ReleasePlan(chosen, now), left, name);
        left := left - {name};
      }
    }

    /** `release`: return stalled records to the redelivery loop, the named ones or all. Unknown ids, an
        unreadable stalled record or a taken target fail the command before anything moves. */
    method Release(ids: Option<set<string>>, now: int) returns (r: Result<map<string, MemoryOperation>, Failure>)
      requires Valid()
      modifies this`disk, this`ledger, this`history
      ensures Valid() && Continues()
      ensures r.Ok? <==> Releasable(old(disk), ids, project)
      ensures r.Ok? ==> r.value == Chosen(StalledRecords(old(disk), JsonFiles(old(disk), Stalled), project), ids)
      ensures r.Ok? ==> Relocating(old(disk), disk, ReleasePlan(r.value, now), {})
      ensures r.Ok? ==> AreChosen(old(disk), r.value, ids, project) && Frees(old(disk), disk, r.value, now)
      ensures r.Err? ==> ReleaseFails(old(disk), ids, project, r.error)
      ensures r.Err? ==> disk == old(disk) && history == old(history)
      ensures KeepsTidy(old(disk), disk)
    {
      r := ChooseStalled(ids);
      if r.Ok? {
        FreeChosen(r.value, now);
        ReleasedTidy(old(disk), disk, r.value, now);
        ChosenAre(old(disk), ids, project);
        PlanFrees(old(disk), disk, r.value, now);
      }
    }

    // -- Jobs -----------------------------------------------------------------------------

    /** Move one job file; nothing else changes but what other programs bring in. */
    method MoveJob(source: Slot, target: Slot)
      requires Valid() && source.JobSlot? && SafeRename(disk, source, target)
      modifies this`disk, this`ledger, this`history
      ensures Valid() && Continues() && JobStep(old(disk), disk, source, target)
      ensures KeepsCalm(old(disk), disk, source, target)
    {
      ghost var mid := DurableRename(source, target);
      forall todo | JobReady(old(disk), todo, source)
        ensures JobReady(disk, todo, target)
      {
        GrownStaysReady(old(disk), mid, todo, source);
        MovedStaysReady(mid, source, target, todo);
      }
      GrownIsJobStep(old(disk), mid, source, target);
    }

    /** `preserve_duplicate` of a job file, under a name no other duplicate has. */
    method PreserveJob(source: Slot, reason: string)
      requires Valid() && source.JobSlot? && Queued(source.jobDir) && source in disk
      modifies this`disk, this`ledger, this`history
      ensures Valid() && Continues()
      ensures exists millis ::
          PreservedJob(source.name, reason, millis) !in old(disk)
          && JobStep(old(disk), disk, source, PreservedJob(source.name, reason, millis))
      ensures KeepsCalm(old(disk), disk, source, source)
    {
      FreshStamp(disk.Keys, source.name, reason);
      var millis :| PreservedJob(source.name, reason, millis) !in disk;
      MoveJob(source, PreservedJob(source.name, reason, millis));
      KeepsCalmGone(old(disk), disk, source, PreservedJob(source.name, reason, millis));
    }

    /** `recover_processing` and `migrate_legacy_job_retry`: return the jobs of one directory to
        `pending`, keeping those whose place is taken as duplicates. */
    method ReturnJobs(dir: JobDir, reason: string)
      requires Valid() && dir in {JobProcessing, JobRetry}
      modifies this`disk, this`ledger, this`history
      ensures Valid() && Continues() && JobFrame(old(disk), disk, dir)
      ensures forall n :: JobSlot(dir, n) !in disk
      ensures forall n | JobSlot(dir, n) in old(disk) :: ReturnedAt(old(disk), disk, JobSlot(dir, n), reason)
    {
      var names := JobFiles(disk, dir);
      while names != {}
        invariant Valid() && Continues() && JobFrame(old(disk), disk, dir)
        invariant Returning(old(disk), disk, dir, names, reason)
        decreases names
      {
        var name :| name in names;
        ghost var mid := disk;
        var source, target := JobSlot(dir, name), JobSlot(JobPending, name);
        if target in disk {
          PreserveJob(source, reason);
        } else {
          MoveJob(source, target);
        }
        ReturningStep(old(disk), mid, disk, dir, names, reason, name);
        names := names - {name};
      }
    }

    /** The job's wiki page, unless it exists. */
    method WritePage(slot: Slot)
      requires Valid() && Waiting(disk, slot)
      modifies this`disk, this`ledger, this`history
      ensures Valid() && Continues() && JobTouch(old(disk), disk, slot.name, old(disk)[slot])
      ensures Waiting(disk, slot) && disk[slot] == old(disk)[slot]
      ensures WikiPage(disk[slot].job.base, EntryId(disk[slot].job.eventId)) in disk
      ensures KeepsCalm(old(disk), disk, slot, slot)
    {
      var page := WikiPage(disk[slot].job.base, EntryId(disk[slot].job.eventId));
      if page !in disk {
        ghost var mid := AtomicJson(page, Page);
        forall todo | JobReady(old(disk), todo, slot)
          ensures JobReady(disk, todo, slot)
        {
          GrownStaysReady(old(disk), mid, todo, slot);
          WrittenStaysReady(mid, page, Page, todo, slot);
        }
        WriteIsTouch(old(disk), mid, page, Page, slot.name, old(disk)[slot]);
      }
    }

    /** `enqueue_memory`: nothing when the operation is pending or completed, otherwise it is created,
        whatever the other directories hold (`QueueRuns.SecondRecordExactly`). For an event that was new
        when its job was published it is pending afterwards and nowhere else: no record of such a job's
        operation leaves `memory/pending` while the job waits. */
    method EnqueueMemory(slot: Slot, queuedAt: Stamp)
      requires Valid() && Waiting(disk, slot)
      modifies this`disk, this`ledger, this`history
      ensures Valid() && Continues() && JobTouch(old(disk), disk, slot.name, old(disk)[slot])
      ensures Waiting(disk, slot) && disk[slot] == old(disk)[slot]
      ensures var id := disk[slot].job.eventId;
              if Record(Pending, id) in old(disk) || Record(Completed, id) in old(disk) then disk == old(disk)
              else
                && Record(Pending, id) in disk
                && disk[Record(Pending, id)] == Stored(NewOperation(id, disk[slot].job.arguments, queuedAt))
      ensures HasOperation(disk, disk[slot])
      ensures Original(old(disk), slot) ==> forall dir | Record(dir, disk[slot].job.eventId) in disk :: dir == Pending
      ensures KeepsCalm(old(disk), disk, slot, slot)
    {
      var id := disk[slot].job.eventId;
      if Record(Pending, id) !in disk && Record(Completed, id) !in disk {
        Enqueue(slot, queuedAt);
      }
    }

    /** The write of `enqueue_memory`. */
    method Enqueue(slot: Slot, queuedAt: Stamp)
      requires Valid() && Waiting(disk, slot)
      requires Record(Pending, disk[slot].job.eventId) !in disk && Record(Completed, disk[slot].job.eventId) !in disk
      modifies this`disk, this`ledger, this`history
      ensures Valid() && Continues() && JobTouch(old(disk), disk, slot.name, old(disk)[slot])
      ensures Waiting(disk, slot) && disk[slot] == old(disk)[slot]
      ensures var id := disk[slot].job.eventId;
              && Record(Pending, id) in disk
              && disk[Record(Pending, id)] == Stored(NewOperation(id, disk[slot].job.arguments, queuedAt))
      ensures KeepsCalm(old(disk), disk, slot, slot)
    {
      var id := disk[slot].job.eventId;
      EnqueueIsSafe(disk, slot, NewOperation(id, disk[slot].job.arguments, queuedAt));
      ghost var mid := AtomicJson(Record(Pending, id), Stored(NewOperation(id, disk[slot].job.arguments, queuedAt)));
      forall todo | JobReady(old(disk), todo, slot)
        ensures JobReady(disk, todo, slot)
      {
        GrownStaysReady(old(disk), mid, todo, slot);
        WrittenStaysReady(mid, Record(Pending, id), disk[Record(Pending, id)], todo, slot);
      }
      WriteIsTouch(old(disk), mid, Record(Pending, id), disk[Record(Pending, id)], slot.name, old(disk)[slot]);
    }

    /** The last step of a job: its file moves to `completed`. */
    method FinishJob(name: string)
      requires Valid() && Waiting(disk, JobSlot(JobProcessing, name))
          && Evidence(disk, disk[JobSlot(JobProcessing, name)].job)
      modifies this`disk, this`ledger, this`history
      ensures Valid() && Continues() && JobTouch(old(disk), disk, name, old(disk)[JobSlot(JobProcessing, name)])
      ensures JobStep(old(disk), disk, JobSlot(JobProcessing, name), JobSlot(JobCompleted, name))
      ensures KeepsCalm(old(disk), disk, JobSlot(JobProcessing, name), JobSlot(JobProcessing, name))
    {
      var processing, completed := JobSlot(JobProcessing, name), JobSlot(JobCompleted, name);
      MoveJob(processing, completed);
      StepIsTouch(old(disk), disk, processing, completed, old(disk)[processing]);
      KeepsCalmGone(old(disk), disk, processing, completed);
    }

    /** Past the wiki write: the operation is queued and the job's file moves to `completed`. */
    method EnqueueAndFinish(name: string, queuedAt: Stamp)
      requires Valid() && Waiting(disk, JobSlot(JobProcessing, name))
      requires WikiPage(disk[JobSlot(JobProcessing, name)].job.base,
          EntryId(disk[JobSlot(JobProcessing, name)].job.eventId)) in disk
      modifies this`disk, this`ledger, this`history
      ensures Valid() && Continues() && JobTouch(old(disk), disk, name, old(disk)[JobSlot(JobProcessing, name)])
      ensures KeepsCalm(old(disk), disk, JobSlot(JobProcessing, name), JobSlot(JobProcessing, name))
      ensures var processing, completed := JobSlot(JobProcessing, name), JobSlot(JobCompleted, name);
              && processing !in disk && completed in disk && disk[completed] == old(disk)[processing]
              && HasOperation(disk, old(disk)[processing])
    {
      var processing := JobSlot(JobProcessing, name);
      ghost var file := disk[processing];
      EnqueueMemory(processing, queuedAt);
      ghost var queued := disk;
      FinishJob(name);
      JobTouchTwice(old(disk), queued, disk, name, file);
      KeepsCalmTwice(old(disk), queued, disk, processing, processing, processing);
    }

    /** The part of `process_job` past the checks: page, operation, completion. */
    method CompleteJob(name: string, fault: JobFault, queuedAt: Stamp) returns (failed: Option<JobFailure>)
      requires Valid() && Waiting(disk, JobSlot(JobProcessing, name))
      modifies this`disk, this`ledger, this`history
      ensures Valid() && Continues() && JobTouch(old(disk), disk, name, old(disk)[JobSlot(JobProcessing, name)])
      ensures failed == if fault == NoFault then None else Some(StepFailed)
      ensures KeepsCalm(old(disk), disk, JobSlot(JobProcessing, name), JobSlot(JobProcessing, name))
      ensures var processing, completed := JobSlot(JobProcessing, name), JobSlot(JobCompleted, name);
              && (failed.None? ==>
                    && processing !in disk && completed in disk && disk[completed] == old(disk)[processing]
                    && HasOperation(disk, old(disk)[processing]))
              && (failed.Some? ==>
                processing in disk && disk[processing] == old(disk)[processing] && completed !in disk)
    {
      var processing := JobSlot(JobProcessing, name);
      ghost var file := disk[processing];
      NoTouch(disk, name, file);
      if fault == BeforePage {
        return Some(StepFailed);
      }
      WritePage(processing);
      if fault == AfterPage {
        return Some(StepFailed);
      }
      ghost var paged := disk;
      EnqueueAndFinish(name, queuedAt);
      JobTouchTwice(old(disk), paged, disk, name, file);
      KeepsCalmTwice(old(disk), paged, disk, processing, processing, processing);
      failed := None;
    }

    /** `process_job` once the job's file is in `processing`. */
    method ProcessTaken(name: string, fault: JobFault, queuedAt: Stamp) returns (failed: Option<JobFailure>)
      requires Valid() && JobSlot(JobProcessing, name) in disk
      modifies this`disk, this`ledger, this`history
      ensures Valid() && Continues() && JobTouch(old(disk), disk, name, old(disk)[JobSlot(JobProcessing, name)])
      ensures failed == JobVerdict(old(disk), name, old(disk)[JobSlot(JobProcessing, name)], fault)
      ensures KeepsCalm(old(disk), disk, JobSlot(JobProcessing, name), JobSlot(JobProcessing, name))
      ensures JobEnds(old(disk), disk, JobSlot(JobProcessing, name), failed)
    {
      var processing := JobSlot(JobProcessing, name);
      NoTouch(disk, name, disk[processing]);
      if !disk[processing].JobFile? {
        return Some(UnreadableJob);
      }
      if disk[processing].job.schemaVersion != 2 {
        return Some(UnsupportedSchema);
      }
      if JobSlot(JobCompleted, name) in disk {
        PreserveJob(processing, "duplicate-completed");
        ghost var millis :|
          && PreservedJob(name, "duplicate-completed", millis) !in old(disk)
          && JobStep(old(disk), disk, processing, PreservedJob(name, "duplicate-completed", millis));
        StepIsTouch(old(disk), disk, processing, PreservedJob(name, "duplicate-completed", millis),
          old(disk)[processing]);
        assert KeptJob(old(disk), disk, processing, PreservedJob(name, "duplicate-completed", millis));
        return None;
      }
      failed := CompleteJob(name, fault, queuedAt);
    }

    /** `process_job` on a pending job. `fault` says whether a step outside the queue fails, and on which
        side of the wiki write. */
    method ProcessJob(name: string, fault: JobFault, queuedAt: Stamp) returns (failed: Option<JobFailure>)
      requires Valid() && JobSlot(JobPending, name) in disk && JobSlot(JobProcessing, name) !in disk
      modifies this`disk, this`ledger, this`history
      ensures Valid() && Continues() && JobTouch(old(disk), disk, name, old(disk)[JobSlot(JobPending, name)])
      ensures failed == JobVerdict(old(disk), name, old(disk)[JobSlot(JobPending, name)], fault)
      ensures JobSlot(JobPending, name) !in disk
      ensures KeepsCalm(old(disk), disk, JobSlot(JobPending, name), JobSlot(JobProcessing, name))
      ensures JobEnds(old(disk), disk, JobSlot(JobPending, name), failed)
    {
      var pending, processing := JobSlot(JobPending, name), JobSlot(JobProcessing, name);
      ghost var file := disk[pending];
      MoveJob(pending, processing);
      StepIsTouch(old(disk), disk, pending, processing, file);
      ghost var taken := disk;
      failed := ProcessTaken(name, fault, queuedAt);
      JobTouchTwice(old(disk), taken, disk, name, file);
      TakenEnds(old(disk), taken, disk, name, failed);
      KeepsCalmTwice(old(disk), taken, disk, pending, processing, processing);
    }

    /** `reject_job`: an earlier rejected job of that name is replaced. */
    method RejectJob(name: string)
      requires Valid() && JobSlot(JobProcessing, name) in disk
      requires JobSlot(JobPending, name) !in disk && JobSlot(JobRetry, name) !in disk
      modifies this`disk, this`ledger, this`history
      ensures Valid() && Continues() && JobTouch(old(disk), disk, name, old(disk)[JobSlot(JobProcessing, name)])
      ensures forall todo | JobReady(old(disk), todo, JobSlot(JobProcessing, name)) :: Calm(disk, todo)
      ensures NotWaiting(disk, name) && JobSlot(JobPending, name) !in disk
      ensures JobSlot(JobRejected, name) in disk
      ensures JobSlot(JobCompleted, name) in disk <==> JobSlot(JobCompleted, name) in old(disk)
      ensures disk[JobSlot(JobRejected, name)] == old(disk)[JobSlot(JobProcessing, name)]
    {
      var processing, rejected := JobSlot(JobProcessing, name), JobSlot(JobRejected, name);
      MoveJob(processing, rejected);
      StepIsTouch(old(disk), disk, processing, rejected, old(disk)[processing]);
      KeepsCalmGone(old(disk), disk, processing, rejected);
      RejectedNotWaiting(old(disk), disk, name);
    }

    /** One pending job, and what `run-once` does when processing it fails: nothing more if it was
        completed before, else `reject_job`. */
    method HandleJob(name: string, fault: JobFault, queuedAt: Stamp) returns (completed: bool)
      requires Valid() && JobSlot(JobPending, name) in disk
      requires JobSlot(JobProcessing, name) !in disk && JobSlot(JobRetry, name) !in disk
      modifies this`disk, this`ledger, this`history
      ensures Valid() && Continues() && JobTouch(old(disk), disk, name, old(disk)[JobSlot(JobPending, name)])
      ensures forall todo | JobReady(old(disk), todo, JobSlot(JobPending, name)) :: Calm(disk, todo)
      ensures JobHandled(old(disk), disk, name, completed)
      ensures completed
         <==> || JobSlot(JobCompleted, name) in old(disk)
              || JobVerdict(old(disk), name, old(disk)[JobSlot(JobPending, name)], fault).None?
    {
      var pending, processing := JobSlot(JobPending, name), JobSlot(JobProcessing, name);
      ghost var file := disk[pending];
      var failed := ProcessJob(name, fault, queuedAt);
      ghost var done := disk;
      if failed.None? || JobSlot(JobCompleted, name) in disk {
        KeepsCalmGone(old(disk), disk, pending, processing);
        return true;
      }
      NoRetry(old(disk), done, name, file);
      RejectJob(name);
      JobTouchTwice(old(disk), done, disk, name, file);
      forall todo | JobReady(old(disk), todo, pending)
        ensures Calm(disk, todo)
      {
        assert JobReady(done, todo, processing);
      }
      completed := false;
    }

    /** One job of the loop. */
    method NextJob(names: set<string>, name: string, ghost start: Disk) returns (done: bool)
      requires Valid() && MemoryEnlarged(start, disk) && JobQueue(start, disk, names) && name in names
      modifies this`disk, this`ledger, this`history
      ensures Valid() && Continues() && MemoryEnlarged(start, disk) && JobQueue(start, disk, names - {name})
      ensures OnlyCompletes(old(disk), disk, name, done)
    {
      var fault: JobFault, queuedAt: Stamp := *, *;
      TakeFromQueue(start, disk, names, name);
      done := HandleJob(name, fault, queuedAt);
      QueueStep(start, old(disk), disk, names, name, done);
      TouchOnlyCompletes(old(disk), disk, name, old(disk)[JobSlot(JobPending, name)], done);
    }

    /** The job loop of `run-once`: every listed job ends completed or rejected. When it is over, no
        queued job's memory operation exists yet. */
    method ProcessJobs() returns (completed: nat, rejected: nat)
      requires Valid() && NoneBusy(disk)
      modifies this`disk, this`ledger, this`history
      ensures Valid() && Continues() && Calm(disk, {}) && MemoryEnlarged(old(disk), disk)
      ensures completed + rejected == |JobFiles(old(disk), JobPending)|
      ensures completed == |set n | n in JobFiles(old(disk), JobPending) && JobSlot(JobCompleted, n) in disk|
      ensures forall n | n in JobFiles(old(disk), JobPending) ::
          JobSlot(JobCompleted, n) in disk || JobSlot(JobRejected, n) in disk
    {
      var names := JobFiles(disk, JobPending);
      completed, rejected := 0, 0;
      QueueStarts(disk);
      NothingCounted(disk);
      while names != {}
        invariant Valid() && Continues() && MemoryEnlarged(old(disk), disk)
        invariant JobQueue(old(disk), disk, names)
        invariant Counted(old(disk), disk, names, completed, rejected)
        decreases names
      {
        var name :| name in names;
        ghost var mid := disk;
        var done := NextJob(names, name, old(disk));
        CountOne(old(disk), mid, disk, names, name, done, completed, rejected);
        if done {
          completed := completed + 1;
        } else {
          rejected := rejected + 1;
        }
        names := names - {name};
      }
      assert QueueSlots(names) == {};
      AllCounted(old(disk), disk, completed, rejected);
    }

    // -- Whole commands -------------------------------------------------------------------

    /** The jobs first: whatever was being processed, or waits in the legacy `retry`, is pending again. */
    method RecoverJobs()
      requires Valid()
      modifies this`disk, this`ledger, this`history
      ensures Valid() && Continues() && NoneBusy(disk) && KeepsListed(old(disk), disk)
      ensures ReadableIn(old(disk), RECOVERED, project) ==> ReadableIn(disk, RECOVERED, project)
      ensures KeepsTidy(old(disk), disk)
      ensures Requeued(old(disk), disk)
      ensures forall n | JobSlot(JobProcessing, n) in old(disk) ::
                ReturnedAt(old(disk), disk, JobSlot(JobProcessing, n), "recovered-processing")
    {
      ReturnJobs(JobProcessing, "recovered-processing");
      ghost var returned := disk;
      ReturnJobs(JobRetry, "legacy-job-retry");
      JobsFrameMemory(old(disk), returned, JobProcessing, project);
      JobsFrameMemory(returned, disk, JobRetry, project);
      JobFrameTidy(old(disk), returned, JobProcessing);
      JobFrameTidy(returned, disk, JobRetry);
      BothReturned(old(disk), returned, disk, "recovered-processing", "legacy-job-retry");
    }

    /** Then `memory/submitting` and the legacy `memory/retry`. */
    method RecoverMemory() returns (failed: Option<Failure>)
      requires Valid() && NoneBusy(disk)
      modifies this`disk, this`ledger, this`history
      ensures Valid() && Continues()
      ensures failed.None? ==> NoneBusy(disk) && SubmittingReady(disk) && KeepsListed(old(disk), disk)
      ensures failed.None? ==> forall n | JobSlot(JobPending, n) in old(disk) :: JobSlot(JobPending, n) in disk
      ensures ReadableIn(old(disk), RECOVERED, project) ==> failed.None? && ReadableIn(disk, LISTED, project)
      ensures KeepsTidy(old(disk), disk)
    {
      failed := RecoverMemorySubmitting();
      if failed.Some? {
        return;
      }
      ghost var recovered := disk;
      RecoveryKeeps(old(disk), recovered, project);
      failed := MigrateLegacyMemoryRetry();
      MigratedTidy(recovered, disk);
      if failed.None? {
        MigrationKeeps(recovered, disk, project);
      }
    }

    /** The recovery phase of `run-once`. */
    method Recover() returns (failed: Option<Failure>)
      requires Valid()
      modifies this`disk, this`ledger, this`history
      ensures Valid() && Continues()
      ensures failed.None? ==> NoneBusy(disk) && SubmittingReady(disk) && KeepsListed(old(disk), disk)
      ensures failed.None? ==> Requeued(old(disk), disk)
      ensures ReadableIn(old(disk), RECOVERED, project) ==> failed.None? && ReadableIn(disk, LISTED, project)
      ensures KeepsTidy(old(disk), disk)
    {
      RecoverJobs();
      failed := RecoverMemory();
    }

    /** `run-once`, with the lock held: recovery, jobs, then memory. It fails only on a record that
        cannot be read. A tidy queue it leaves tidy, however it ends; then its counts mean what they say
        of the records that were `listed` when the memory phase began. */
    method RunOnce(staleAfter: nat, now: int)
        returns (r: Result<RunSummary, Failure>, ghost listed: Disk, ghost jobs: set<string>)
      requires Valid()
      modifies this`disk, this`ledger, this`history
      ensures Valid() && Continues()
      ensures ReadableIn(old(disk), RECOVERED, project) ==> r.Ok?
      ensures r.Ok? ==>
                var s := r.value;
                && s.counts == CountsOf(s.outcomes)
                && s.counts.delivered + s.counts.inFlight + s.counts.deferred + s.counts.awaiting == |s.outcomes|
                && (!s.stopped ==> forall dir, n | dir in LISTED && Record(dir, n) in old(disk) :: n in s.outcomes)
                // Every queued job was handled and is counted by where it ended.
                && (forall n, dir | Queued(dir) && JobSlot(dir, n) in old(disk) :: n in jobs)
                && s.jobsCompleted == |set n | n in jobs && JobSlot(JobCompleted, n) in listed|
                && s.jobsCompleted + s.jobsRejected == |jobs|
                && s.stale == |StaleRecords(disk, JsonFiles(disk, Accepted), project, now, staleAfter)|
                && s.stalled == |JsonFiles(disk, Stalled)|
      ensures KeepsTidy(old(disk), disk)
      ensures r.Ok? ==> KeepsListed(old(disk), listed)
      ensures r.Ok? ==> exists k: nat :: |old(history)| <= k <= |history| && listed == DiskAt(origin, history, k)
      ensures r.Ok? && TidyQueue(old(disk)) ==> TalliesExact(listed, disk, r.value.outcomes, project)
    {
      listed, jobs := disk, {};
      var failed := Recover();
      if failed.Some? {
        return Err(failed.value), disk, {};
      }
      ghost var recovered := disk;
      jobs := JobFiles(disk, JobPending);
      var completed, rejected := ProcessJobs();
      MemoryEnlargedKeeps(recovered, disk, project);
      EnlargedTidy(recovered, disk);
      listed := disk;
      ghost var before := history;
      var outcomes, counts, stopped;
      outcomes, counts, stopped, failed := ReconcileAll();
      if failed.Some? {
        return Err(failed.value), listed, jobs;
      }
      assert history[..|before|] == before && listed == DiskAt(origin, history, |before|);
      var stale := SelectStale(staleAfter, now);
      r := Ok(RunSummary(completed, rejected, outcomes, counts, stopped, |stale|, |JsonFiles(disk, Stalled)|));
    }

    /** A crash or power loss: only the first `survived` events of the run so far are on disk (and in
        the ledger). The next process may find another environment. */
    method Crash(survived: nat, environment: string)
      requires Valid() && survived <= |history| && Inv(origin.disk)
      modifies this
      ensures Valid() && origin == old(origin) && history == old(history)[..survived]
    {
      SoundPrefix(origin, history, World(disk, ledger), survived);
      history := history[..survived];
      var w := Replay(origin, history);
      disk, ledger, project := w.disk, w.ledger, environment;
    }

    method Act(action: Action)
      requires Valid()
      modifies this`disk, this`ledger, this`history
      ensures Valid() && Continues()
    {
      if action.RunOnceAction? {
        var _, _, _ := RunOnce(action.staleAfter, action.now);
      } else if action.QuarantineAction? {
        var _ := Quarantine(action.olderThan, action.dryRun, action.now);
      } else {
        var _ := Release(action.ids, action.now);
      }
    }

    /** One command, stopped where it says. */
    method Issue(command: Command)
      requires Valid() && Inv(origin.disk)
      modifies this
      ensures Valid() && origin == old(origin)
    {
      var start := |history|;
      Act(command.action);
      var survived := if command.operations.Some? then Min(start + command.operations.value, |history|) else |history|;
      Crash(survived, command.nextEnvironment);
    }

    /** Any sequence of commands, each stopped anywhere, in any environments, with the other programs
        acting at every point and requests landing late: no memory record is lost or overwritten,
        completed jobs have their evidence, no id is submitted that the ledger has, unless it lands
        between the lookup and the submission, no accepted record that only waits is polled more often
        than its backoff allows, and the names keep to one live record exactly while no job is enqueued
        whose event has one already. */
    method Lifetime(commands: seq<Command>)
      requires Valid() && history == [] && Inv(origin.disk)
      modifies this
      ensures Valid() && origin == old(origin) && SafeRun(origin, history) && Careful(origin, history)
      ensures SubmitsOnlyWhileAbsent(origin, history) && PacedRun(origin, history) && PollsBounded(origin, history)
      ensures forall slot | slot in origin.disk && IsMemory(slot) ::
                var end := Follow(slot, history);
                end in disk && IsMemory(end) && end.name == slot.name && SameRecord(origin.disk[slot], disk[end])
      ensures forall slot, other | slot in origin.disk && other in origin.disk && IsMemory(slot) && IsMemory(other)
          && slot != other ::
                Follow(slot, history) != Follow(other, history)
      ensures OneDirPerName(origin.disk) ==> (OneDirAlways(origin, history) <==> FreshAlways(origin, history))
      ensures Titled(origin.disk) && OneDirPerName(origin.disk) && FreshAlways(origin, history)
          ==> SubmissionsOfAnIdAgree(history)
      ensures forall name | NoRepeatEver(origin, history, name) :: !CreatedTwice(origin, history, name)
      ensures forall n | JobSlot(JobCompleted, n) in disk && disk[JobSlot(JobCompleted, n)].JobFile? ::
                Evidence(disk, disk[JobSlot(JobCompleted, n)].job)
    {
      for i := 0 to |commands|
        invariant Valid() && origin == old(origin)
      {
        Issue(commands[i]);
      }
      RecordsKept(origin, history);
      OneRecordEach(origin, history);
      AllSubmittedWhileAbsent(origin, history);
      PollsOfRunBounded(origin, history);
    }

    /** Quarantine, then release of everything, when nothing was stalled before. The release succeeds
        exactly if no stale record that the server never answered for has another one of its name in
        `memory/pending`. Then every stale record the server had answered for is back in
        `memory/accepted` with its id, arguments, hash and receipt, and its clock starts at the release. */
    method QuarantineThenRelease(olderThan: nat, now: int, later: int)
        returns (moved: map<string, MemoryOperation>, released: bool)
      requires Valid() && forall n :: Record(Stalled, n) !in disk
      modifies this`disk, this`ledger, this`history
      ensures Valid() && Continues()
      ensures moved == StaleRecords(old(disk), JsonFiles(old(disk), Accepted), project, now, olderThan)
      ensures released <==> forall n | n in moved && moved[n].receipt.None? :: Record(Pending, n) !in old(disk)
      ensures released ==> forall n | n in moved ::
                && Record(Stalled, n) !in disk
                && (Record(Accepted, n) in disk <==> moved[n].receipt.Some?)
                && Restored(disk, Record(ReleaseDir(moved[n]), n), moved[n], later)
    {
      var quarantined := Quarantine(olderThan, false, now);
      moved := quarantined.value;
      ghost var between := disk;
      forall n
        ensures ParkedAt(old(disk), between, moved, n, project)
      {
        QuarantineParks(old(disk), between, moved, n, project, now, olderThan);
      }
      ReleasableAfter(old(disk), between, moved, project);
      var r := Release(None, later);
      released := r.Ok?;
      if released {
        forall n | n in moved
          ensures Record(Stalled, n) !in disk
          ensures Record(Accepted, n) in disk <==> moved[n].receipt.Some?
          ensures Restored(disk, Record(ReleaseDir(moved[n]), n), moved[n], later)
        {
          RoundTrip(old(disk), between, disk, moved, r.value, n, project, now, later, olderThan);
        }
      }
    }
  }
}
