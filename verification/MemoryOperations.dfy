/**
 The durable record of one memory operation: its payload and the normalization
 that fixes it, the bookkeeping a server receipt updates, the poll backoff and
 the staleness clock. Times are integer nanoseconds.
 */
module MemoryOperations {
  import opened Basics
  import opened Json

  // ---------------------------------------------------------------------------
  // Records.
  // ---------------------------------------------------------------------------

  /** The directories of the memory queue. */
  datatype MemoryDir = Pending | Submitting | Accepted | Retry | Completed | Rejected | DeadLetter | Stalled

  /** The `state` field: a directory's name, blank, or other text. */
  datatype DeliveryState = In(dir: MemoryDir) | BlankState | OtherState(text: string)

  datatype Method = AddMemory | CreateTaskStream | AddTaskStep | CompleteStep | UnsupportedMethod(name: string)

  /** A stored timestamp, which parses or does not. */
  datatype Stamp = At(time: int) | Unparsed(text: string)

  /** A payload hash: SHA-256 of some bytes (injective), or text that is no such hash. */
  datatype Digest = Sha256(bytes: string) | Foreign(text: string)

  /** The state a receipt reports: terminal, one of the six non-terminal names, or unknown. */
  datatype Phase = PhaseAccepted | Validated | Blocked | Planned | Processing | Indexed
  datatype LedgerState = Committed | Refused | Underway(phase: Phase) | UnknownState(text: string)

  datatype Receipt = Receipt(
    operationId: string, schemaVersion: int, kind: Method, payloadHash: Digest, dependencies: seq<string>,
    state: LedgerState, error: Option<string>, progressSeq: nat, createdAt: Stamp, updatedAt: Stamp)

  const U32_MAX: int := 0xFFFF_FFFF
  type u32 = n: int | 0 <= n <= U32_MAX

  datatype MemoryOperation = MemoryOperation(
    schemaVersion: int, operationId: string, kind: Method, arguments: Value, dependencies: seq<string>,
    payloadHash: Option<Digest>, state: DeliveryState, queuedAt: Stamp, lastError: Option<string>,
    receipt: Option<Receipt>, firstAcceptedAt: Option<Stamp>, lastReceiptState: Option<LedgerState>,
    lastReceiptProgressSeq: Option<nat>, lastReceiptChangeAt: Option<Stamp>, unchangedPolls: u32,
    nextPollAt: Option<Stamp>)

  datatype Failure =
    | MalformedArguments | UnsupportedOperation | HashMismatch | UnreadableRecord
    | Transport | LedgerNotReady | LedgerRefused | ReceiptMismatch | UnknownReceiptState
    | TargetOccupied | UnknownIds | Missing

  // ---------------------------------------------------------------------------
  // Payload normalization.
  // ---------------------------------------------------------------------------

  function ScopeKey(arguments: Value, key: string, fallback: string): Value {
    match GetStr(arguments, key)
    case Some(text) => if Trim(text) != [] then Str(Trim(text)) else Str(fallback)
    case None => Str(fallback)
  }

  /** `project` is the project id the process found in its environment, which may differ from one
      run to the next. */
  function NormalizePayload(kind: Method, arguments: Value, project: string): Result<Value, Failure> {
    match kind
    case AddMemory => Ok(arguments)
    case CreateTaskStream => Ok(arguments)
    case AddTaskStep =>
      if Get(arguments, "stream_name").Some? then Ok(arguments)
      else (
        match (GetStr(arguments, "stream"), GetStr(arguments, "description"))
        case (Some(stream), Some(description)) =>
          Ok(Obj([
            Field("stream_name", Str(stream)),
            Field("ordinal", Number("1")),
            Field("name", Str(description)),
            Field("description", Str(description)),
            Field("idempotency_key", Str(description)),
            Field("agent_id", ScopeKey(arguments, "agent_id", "@project")),
            Field("user_id", ScopeKey(arguments, "user_id", project))]))
        case _ => Err(MalformedArguments))
    case CompleteStep =>
      if Get(arguments, "idempotency_key").Some? then Ok(arguments)
      else (
        match GetStr(arguments, "step")
        case Some(step) =>
          Ok(Obj([Field("idempotency_key", Str(step)), Field("result", Str("completed via memory bridge"))]))
        case None => Err(MalformedArguments))
    case UnsupportedMethod(_) => Err(UnsupportedOperation)
  }

  function PayloadHash(arguments: Value): Digest {
    Sha256(Compact(arguments))
  }

  function NormalizeOperation(op: MemoryOperation, project: string): Result<MemoryOperation, Failure> {
    match NormalizePayload(op.kind, op.arguments, project)
    case Err(e) => Err(e)
    case Ok(arguments) =>
      var hash := PayloadHash(arguments);
      if op.payloadHash.Some? && op.payloadHash.value != hash then Err(HashMismatch)
      else
        Ok(op.(arguments := arguments, schemaVersion := 2, payloadHash := Some(hash),
               state := if op.state == BlankState then In(Pending) else op.state))
  }

  /** The payload is in its final form: every later read leaves it alone, in any environment. */
  predicate NormalForm(kind: Method, arguments: Value) {
    match kind
    case AddMemory => true
    case CreateTaskStream => true
    case AddTaskStep => Get(arguments, "stream_name").Some?
    case CompleteStep => Get(arguments, "idempotency_key").Some?
    case UnsupportedMethod(_) => false
  }

  /** The record is bound to its payload: final arguments, under their own hash. */
  predicate Bound(op: MemoryOperation) {
    NormalForm(op.kind, op.arguments) && op.payloadHash == Some(PayloadHash(op.arguments))
  }

  /** Normalization reaches the final form, and the final form is a fixed point whatever the environment. */
  lemma NormalizationSettles(kind: Method, arguments: Value, project: string, later: string)
    ensures match NormalizePayload(kind, arguments, project)
            case Ok(final) => NormalForm(kind, final) && NormalizePayload(kind, final, later) == Ok(final)
            case Err(_) => !NormalForm(kind, arguments)
    ensures NormalForm(kind, arguments) <==> NormalizePayload(kind, arguments, project) == Ok(arguments)
  {
    match NormalizePayload(kind, arguments, project)
    case Ok(final) =>
      if !NormalForm(kind, arguments) {
        assert final.fields[0].name == if kind == AddTaskStep then "stream_name" else "idempotency_key";
      }
    case Err(_) =>
  }

  /** What is read once is read the same forever after: the record is bound, and reading it again in
      any environment changes nothing. */
  lemma ReadingSettles(op: MemoryOperation, project: string, later: string)
    ensures match NormalizeOperation(op, project)
            case Ok(read) => Bound(read) && NormalizeOperation(read, later) == Ok(read)
            case Err(_) => !Bound(op)
    ensures Bound(op) ==>
              var state := if op.state == BlankState then In(Pending) else op.state;
              NormalizeOperation(op, project) == Ok(op.(schemaVersion := 2, state := state))
  {
    NormalizationSettles(op.kind, op.arguments, project, later);
  }

  /** What reading a record does to it: it is bound to the payload and its hash, of version 2, and pending
      where its state was blank; all else stays. It fails on a payload that cannot be normalized and on a
      stored hash that is another one. */
  lemma ReadingMeans(op: MemoryOperation, project: string)
    ensures match NormalizeOperation(op, project)
            case Ok(read) =>
              && NormalizePayload(op.kind, op.arguments, project) == Ok(read.arguments)
              && read.schemaVersion == 2 && read.payloadHash == Some(Sha256(Compact(read.arguments)))
              && (op.payloadHash.Some? ==> op.payloadHash == read.payloadHash)
              && read.state == (if op.state == BlankState then In(Pending) else op.state)
              && read == op.(arguments := read.arguments, schemaVersion := 2, payloadHash := read.payloadHash,
                             state := read.state)
            case Err(e) =>
              || NormalizePayload(op.kind, op.arguments, project) == Err(e)
              || (&& e == HashMismatch && NormalizePayload(op.kind, op.arguments, project).Ok? && op.payloadHash.Some?
                  && op.payloadHash.value
                     != Sha256(Compact(NormalizePayload(op.kind, op.arguments, project).value)))
  {
  }

  // ---------------------------------------------------------------------------
  // Receipts.
  // ---------------------------------------------------------------------------

  const SECOND: int := 1_000_000_000

  function ParseTime(s: Stamp): Option<int> {
    if s.At? then Some(s.time) else None
  }

  const POLL_BACKOFF_BASE_SECONDS: int := 60
  const POLL_BACKOFF_CAP_SECONDS: int := 3_600
  const U64_MAX: int := 0xFFFF_FFFF_FFFF_FFFF

  function Pow2(n: nat): nat {
    if n == 0 then 1 else 2 * Pow2(n - 1)
  }

  function SaturatingSub(a: nat, b: nat): nat {
    if a < b then 0 else a - b
  }

  function SaturatingMulU64(a: nat, b: nat): nat {
    Min(a * b, U64_MAX)
  }

  /** Seconds until an unchanged receipt is polled again: 1m, 2m, 4m, ... capped at 1h. */
  function PollBackoff(unchangedPolls: u32): int {
    var doublings := Min(SaturatingSub(unchangedPolls, 1), 16);
    Min(SaturatingMulU64(POLL_BACKOFF_BASE_SECONDS, Pow2(doublings)), POLL_BACKOFF_CAP_SECONDS)
  }

  /** The server's timestamp, but never later than `now`. */
  function ServerTime(s: Stamp, now: int): Stamp {
    match ParseTime(s)
    case Some(time) => At(Min(time, now))
    case None => At(now)
  }

  predicate ReceiptChanged(op: MemoryOperation, receipt: Receipt) {
    op.lastReceiptState != Some(receipt.state) || op.lastReceiptProgressSeq != Some(receipt.progressSeq)
  }

  /** The bookkeeping after a receipt. */
  function Observed(op: MemoryOperation, receipt: Receipt, now: int): MemoryOperation {
    var accepted := if op.firstAcceptedAt.None? then Some(ServerTime(receipt.createdAt, now)) else op.firstAcceptedAt;
    if ReceiptChanged(op, receipt) then
      op.(firstAcceptedAt := accepted,
          lastReceiptChangeAt := Some(if op.lastReceiptState.None? then ServerTime(receipt.updatedAt, now)
            else At(now)),
          lastReceiptState := Some(receipt.state),
          lastReceiptProgressSeq := Some(receipt.progressSeq),
          unchangedPolls := 0,
          nextPollAt := None)
    else
      var polls := Min(op.unchangedPolls + 1, U32_MAX);
      op.(firstAcceptedAt := accepted, unchangedPolls := polls,
        nextPollAt := Some(At(now + PollBackoff(polls) * SECOND)))
  }

  /** `observe_receipt`, field by field. */
  method ObserveReceipt(operation: MemoryOperation, receipt: Receipt, now: int)
      returns (op: MemoryOperation, changed: bool)
    ensures op == Observed(operation, receipt, now)
    ensures changed == ReceiptChanged(operation, receipt)
    ensures !changed <==>
      operation.lastReceiptState == Some(receipt.state) && operation.lastReceiptProgressSeq == Some(receipt.progressSeq)
    // The time of first acceptance is the server's, never later than now, and written once.
    ensures op.firstAcceptedAt == if operation.firstAcceptedAt.Some? then operation.firstAcceptedAt
                                  else Some(At(if receipt.createdAt.At? then Min(receipt.createdAt.time, now) else now))
    ensures op.lastReceiptState == Some(receipt.state) && op.lastReceiptProgressSeq == Some(receipt.progressSeq)
    // A change restarts the staleness clock, at the server's time if it is the first observation.
    ensures changed ==>
              && op.unchangedPolls == 0 && op.nextPollAt == None
              && op.lastReceiptChangeAt
                 == Some(At(if operation.lastReceiptState.None? && receipt.updatedAt.At?
                            then Min(receipt.updatedAt.time, now) else now))
    ensures !changed ==>
              && op.lastReceiptChangeAt == operation.lastReceiptChangeAt
              && op.unchangedPolls == Min(operation.unchangedPolls + 1, U32_MAX)
              && op.nextPollAt == Some(At(now + PollBackoff(op.unchangedPolls) * SECOND))
    ensures op == operation.(firstAcceptedAt := op.firstAcceptedAt, lastReceiptState := op.lastReceiptState,
                             lastReceiptProgressSeq := op.lastReceiptProgressSeq,
                             lastReceiptChangeAt := op.lastReceiptChangeAt,
                             unchangedPolls := op.unchangedPolls, nextPollAt := op.nextPollAt)
  {
    op := operation;
    if op.firstAcceptedAt.None? {
      op := op.(firstAcceptedAt := Some(ServerTime(receipt.createdAt, now)));
    }
    var firstObservation := op.lastReceiptState.None?;
    changed := op.lastReceiptState != Some(receipt.state) || op.lastReceiptProgressSeq != Some(receipt.progressSeq);
    if changed {
      op := op.(lastReceiptChangeAt := Some(if firstObservation then ServerTime(receipt.updatedAt, now) else At(now)));
      op := op.(lastReceiptState := Some(receipt.state));
      op := op.(lastReceiptProgressSeq := Some(receipt.progressSeq));
      op := op.(unchangedPolls := 0);
      op := op.(nextPollAt := None);
    } else {
      op := op.(unchangedPolls := Min(op.unchangedPolls + 1, U32_MAX));
      op := op.(nextPollAt := Some(At(now + PollBackoff(op.unchangedPolls) * SECOND)));
    }
  }

  /** An accepted operation is skipped while its backoff window is open. */
  predicate Deferred(op: MemoryOperation, now: int) {
    op.nextPollAt.Some? && op.nextPollAt.value.At? && op.nextPollAt.value.time > now
  }

  // ---------------------------------------------------------------------------
  // The staleness clock.
  // ---------------------------------------------------------------------------

  function StaleSince(op: MemoryOperation): Option<int> {
    var raw := if op.lastReceiptChangeAt.Some? then op.lastReceiptChangeAt else op.firstAcceptedAt;
    if raw.Some? && raw.value.At? then Some(raw.value.time) else ParseTime(op.queuedAt)
  }

  predicate IsStale(op: MemoryOperation, now: int, threshold: nat) {
    StaleSince(op).Some? && now - StaleSince(op).value > threshold
  }

  /** A released record: back to `state`, its backoff cleared and, with a receipt, its clock restarted. */
  function Released(op: MemoryOperation, state: DeliveryState, now: int): MemoryOperation {
    var cleared := op.(state := state, unchangedPolls := 0, nextPollAt := None);
    match op.receipt
    case Some(receipt) =>
      cleared.(lastReceiptState := Some(receipt.state), lastReceiptProgressSeq := Some(receipt.progressSeq),
               lastReceiptChangeAt := Some(At(now)))
    case None => cleared
  }

  /** Records the worker writes keep the time of a receipt they have seen. */
  predicate Bookkept(op: MemoryOperation) {
    op.lastReceiptState.Some? ==> op.lastReceiptChangeAt.Some? && op.lastReceiptChangeAt.value.At?
  }

  /** Where a receipt sends the record, or `None` for a state the worker does not know. */
  function Destination(state: LedgerState): Option<MemoryDir> {
    match state
    case Committed => Some(Completed)
    case Refused => Some(Rejected)
    case Underway(_) => Some(Accepted)
    case UnknownState(_) => None
  }

  /** The record a matching receipt of a known state leaves behind. */
  function Applied(op: MemoryOperation, receipt: Receipt, now: int): MemoryOperation
    requires Destination(receipt.state).Some?
  {
    Observed(op, receipt, now).(receipt := Some(receipt), lastError := receipt.error,
      state := In(Destination(receipt.state).value))
  }

  // ---------------------------------------------------------------------------
  // The backoff.
  // ---------------------------------------------------------------------------

  lemma {:induction false} Pow2Grows(m: nat, n: nat)
    requires m <= n
    ensures 1 <= Pow2(m) <= Pow2(n)
  {
    if m < n {
      Pow2Grows(m, n - 1);
    } else if n > 0 {
      Pow2Grows(n - 1, n - 1);
    }
  }

  lemma Pow2Values()
    ensures Pow2(0) == 1 && Pow2(1) == 2 && Pow2(2) == 4 && Pow2(3) == 8 && Pow2(4) == 16 && Pow2(5) == 32
        && Pow2(6) == 64
    ensures Pow2(16) == 65_536
  {
    assert Pow2(8) == 256;
    assert Pow2(12) == 4_096;
  }

  /** For every count: between a minute and an hour, never shorter than after fewer polls, doubling
      until the cap, and computed without reaching the 64-bit limit. */
  lemma BackoffShape(fewer: u32, polls: u32)
    requires fewer <= polls
    ensures 60 <= PollBackoff(fewer) <= PollBackoff(polls) <= 3_600
    ensures 1 <= fewer < polls ==> Min(2 * PollBackoff(fewer), 3_600) <= PollBackoff(polls)
    ensures 1 <= fewer && polls == fewer + 1 ==> PollBackoff(polls) == Min(2 * PollBackoff(fewer), 3_600)
    ensures POLL_BACKOFF_BASE_SECONDS * Pow2(Min(SaturatingSub(polls, 1), 16)) < U64_MAX
  {
    var d, e := Min(SaturatingSub(fewer, 1), 16), Min(SaturatingSub(polls, 1), 16);
    Pow2Values();
    Pow2Grows(0, d);
    Pow2Grows(d, e);
    Pow2Grows(e, 16);
    if 1 <= fewer < polls {
      if d < 16 {
        Pow2Grows(d + 1, e);
      } else {
        assert PollBackoff(fewer) == 3_600;
      }
    }
  }

  /** Seconds from the first unchanged poll to the earliest moment of the next one after `polls`. */
  function EarliestAfter(polls: nat): int {
    if polls == 0 then 0 else EarliestAfter(polls - 1) + PollBackoff(Min(polls, U32_MAX))
  }

  lemma {:induction false} EarliestAfterGrows(polls: nat)
    ensures 0 <= EarliestAfter(polls)
    ensures polls >= 6 ==> EarliestAfter(polls) >= 3_600 * (polls - 6) + 3_780
  {
    if polls > 0 {
      EarliestAfterGrows(polls - 1);
      BackoffShape(0, Min(polls, U32_MAX));
      if polls == 6 {
        Pow2Values();
        assert EarliestAfter(3) == 420;
      } else if polls > 6 {
        Pow2Values();
        assert PollBackoff(7) == 3_600;
        BackoffShape(7, Min(polls, U32_MAX));
      }
    }
  }

  /** What happens to an accepted record when it is polled. */
  datatype Poll = Answered(receipt: Receipt, at: int) | Failed(error: string, at: int)

  function AfterPoll(op: MemoryOperation, poll: Poll): MemoryOperation
    requires poll.Answered? ==> Destination(poll.receipt.state).Some?
  {
    match poll
    case Answered(receipt, at) => Applied(op, receipt, at)
    case Failed(error, _) => op.(lastError := Some(error))
  }

  /** A run of polls under a clock that never goes back: none inside the backoff window, every answer
      the receipt already known. */
  predicate UnchangedRun(op: MemoryOperation, polls: seq<Poll>, from: int, to: int)
    decreases polls
  {
    polls != [] ==>
      && from <= polls[0].at <= to
      && !Deferred(op, polls[0].at)
      && (polls[0].Answered? ==> Destination(polls[0].receipt.state).Some? && !ReceiptChanged(op, polls[0].receipt))
      && UnchangedRun(AfterPoll(op, polls[0]), polls[1..], polls[0].at, to)
  }

  function AfterPolls(op: MemoryOperation, polls: seq<Poll>, from: int, to: int): MemoryOperation
    requires UnchangedRun(op, polls, from, to)
    decreases polls
  {
    if polls == [] then op else AfterPolls(AfterPoll(op, polls[0]), polls[1..], polls[0].at, to)
  }

  function AnsweredPolls(polls: seq<Poll>): nat {
    if polls == [] then 0 else (if polls[0].Answered? then 1 else 0) + AnsweredPolls(polls[1..])
  }

  /** The earliest time of the next poll if the first of `polls` unchanged ones was at `start`. */
  function Earliest(start: int, polls: nat): int {
    start + EarliestAfter(polls) * SECOND
  }

  /** After `k` unchanged polls the next one is due no earlier than the backoff allows. */
  predicate BackedOff(op: MemoryOperation, start: int, k: nat) {
    k > 0 ==>
      && Min(k, U32_MAX) <= op.unchangedPolls
      && op.nextPollAt.Some? && op.nextPollAt.value.At?
      && op.nextPollAt.value.time >= Earliest(start, k)
  }

  /** An unchanged answer outside the backoff window starts the next, longer window. */
  lemma BackoffAfterPoll(op: MemoryOperation, poll: Poll, start: int, k: nat)
    requires BackedOff(op, start, k) && poll.Answered? && Destination(poll.receipt.state).Some?
    requires !ReceiptChanged(op, poll.receipt) && poll.at >= start + EarliestAfter(k) * SECOND
    ensures BackedOff(AfterPoll(op, poll), start, k + 1)
  {
    var next := AfterPoll(op, poll);
    BackoffShape(Min(k + 1, U32_MAX), next.unchangedPolls);
    assert EarliestAfter(k + 1) == EarliestAfter(k) + PollBackoff(Min(k + 1, U32_MAX));
  }

  lemma {:induction false} PollsSpread(op: MemoryOperation, polls: seq<Poll>, from: int, to: int, start: int, k: nat)
    requires UnchangedRun(op, polls, from, to) && start <= from && BackedOff(op, start, k)
    ensures AnsweredPolls(polls) > 0 ==> to >= start + EarliestAfter(k + AnsweredPolls(polls) - 1) * SECOND
    decreases polls
  {
    if polls != [] {
      var poll := polls[0];
      var next := AfterPoll(op, poll);
      EarliestAfterGrows(k);
      if poll.Answered? {
        BackoffAfterPoll(op, poll, start, k);
        assert poll.at >= start + EarliestAfter(k) * SECOND;
        PollsSpread(next, polls[1..], poll.at, to, start, k + 1);
      } else {
        PollsSpread(next, polls[1..], poll.at, to, start, k);
      }
    }
  }

  lemma SpreadBoundsCount(k: nat, elapsed: int)
    requires elapsed >= EarliestAfter(k) * SECOND
    ensures k + 1 <= 6 + elapsed / (3_600 * SECOND)
  {
    EarliestAfterGrows(k);
    if k >= 6 {
      assert elapsed >= 3_600 * SECOND * (k - 5);
    }
  }

  /** The first unchanged poll starts the first window. */
  lemma FirstBackoff(op: MemoryOperation)
    requires op.nextPollAt.Some? && op.nextPollAt.value.At? && op.unchangedPolls > 0
    ensures BackedOff(op, PolledAt(op), 1)
  {
    BackoffShape(1, op.unchangedPolls);
    assert EarliestAfter(1) == EarliestAfter(0) + PollBackoff(1);
  }

  /** In any window without a receipt change an accepted operation gets at most six unchanged polls
      and one more for every whole hour. */
  lemma UnchangedPollsBounded(op: MemoryOperation, polls: seq<Poll>, from: int, to: int)
    requires from <= to && UnchangedRun(op, polls, from, to)
    ensures AnsweredPolls(polls) <= 6 + (to - from) / (3_600 * SECOND)
  {
    PollsSpread(op, polls, from, to, from, 0);
    if AnsweredPolls(polls) > 0 {
      SpreadBoundsCount(AnsweredPolls(polls) - 1, to - from);
    }
  }

  /** Both wait for the same next poll. */
  predicate SamePace(a: MemoryOperation, b: MemoryOperation) {
    a.unchangedPolls == b.unchangedPolls && a.nextPollAt == b.nextPollAt
  }

  /** The moment of the unchanged poll after which `op` waits. */
  function PolledAt(op: MemoryOperation): int
    requires op.nextPollAt.Some? && op.nextPollAt.value.At?
  {
    op.nextPollAt.value.time - PollBackoff(op.unchangedPolls) * SECOND
  }

  /** If what replaces an accepted record has to wait, it is the wait it had, or the next one after an
      unchanged poll outside that window. */
  predicate Paced(before: MemoryOperation, after: MemoryOperation) {
    after.nextPollAt.Some? && !SamePace(before, after) ==>
      && after.nextPollAt != before.nextPollAt && after.nextPollAt.value.At?
      && after.unchangedPolls == Min(before.unchangedPolls + 1, U32_MAX)
      && !Deferred(before, PolledAt(after))
  }

  /** A receipt outside the backoff window leaves a paced record, and an unchanged one always a new wait. */
  lemma AppliedIsPaced(op: MemoryOperation, receipt: Receipt, now: int)
    requires !Deferred(op, now) && Destination(receipt.state).Some?
    ensures var after := Applied(op, receipt, now);
            && Paced(op, after)
            && (ReceiptChanged(op, receipt) <==> after.nextPollAt.None?)
            && (!ReceiptChanged(op, receipt) ==> after.nextPollAt != op.nextPollAt && PolledAt(after) == now)
  {
    BackoffShape(0, Min(op.unchangedPolls + 1, U32_MAX));
  }

  /** The record waits for its next poll after an unchanged one. */
  predicate Waits(op: MemoryOperation) {
    op.nextPollAt.Some? && op.nextPollAt.value.At? && op.unchangedPolls > 0
  }

  /** What a record that waits holds over time. */
  predicate PacedSeq(ops: seq<MemoryOperation>) {
    && |ops| > 0
    && (forall m | 0 <= m < |ops| :: Waits(ops[m]))
    && forall m | 0 < m < |ops| :: Paced(ops[m - 1], ops[m])
  }

  /** The polls that set these waits, the first one's included. */
  function Polls(ops: seq<MemoryOperation>): nat {
    if |ops| <= 1 then |ops|
    else Polls(ops[..|ops| - 1]) + if ops[|ops| - 1].nextPollAt != ops[|ops| - 2].nextPollAt then 1 else 0
  }

  /** At most six polls and one more for every whole hour between the first and the last. */
  predicate FewPolls(ops: seq<MemoryOperation>)
    requires |ops| > 0 && Waits(ops[0]) && Waits(ops[|ops| - 1])
  {
    Polls(ops) <= 6 + (PolledAt(ops[|ops| - 1]) - PolledAt(ops[0])) / (3_600 * SECOND)
  }

  /** A poll outside the window of a record that has backed off `k` times starts the next window. */
  lemma BackoffAfterWait(before: MemoryOperation, after: MemoryOperation, start: int, k: nat)
    requires k > 0 && BackedOff(before, start, k) && Paced(before, after)
    requires after.nextPollAt.Some? && after.nextPollAt != before.nextPollAt
    ensures BackedOff(after, start, k + 1) && PolledAt(after) >= Earliest(start, k)
  {
    BackoffShape(Min(k + 1, U32_MAX), after.unchangedPolls);
    assert EarliestAfter(k + 1) == EarliestAfter(k) + PollBackoff(Min(k + 1, U32_MAX));
  }

  lemma {:induction false} PacedSeqBacksOff(ops: seq<MemoryOperation>)
    requires PacedSeq(ops)
    ensures var last, start := ops[|ops| - 1], PolledAt(ops[0]);
            && Polls(ops) > 0 && BackedOff(last, start, Polls(ops))
            && PolledAt(last) >= Earliest(start, Polls(ops) - 1)
  {
    if |ops| == 1 {
      FirstBackoff(ops[0]);
    } else {
      var shorter := ops[..|ops| - 1];
      PacedSeqBacksOff(shorter);
      if ops[|ops| - 1].nextPollAt != ops[|ops| - 2].nextPollAt {
        BackoffAfterWait(ops[|ops| - 2], ops[|ops| - 1], PolledAt(ops[0]), Polls(shorter));
      }
    }
  }

  lemma PacedSeqSpreads(ops: seq<MemoryOperation>)
    requires PacedSeq(ops)
    ensures FewPolls(ops)
  {
    PacedSeqBacksOff(ops);
    SpreadBoundsCount(Polls(ops) - 1, PolledAt(ops[|ops| - 1]) - PolledAt(ops[0]));
  }

  // ---------------------------------------------------------------------------
  // The staleness clock over receipts.
  // ---------------------------------------------------------------------------

  /** A record is stale when its last receipt change, or where it had none its first acceptance, is longer
      ago than the threshold; where there is neither, or it cannot be read, its queueing counts; without any
      readable time it never is. */
  lemma StaleMeans(op: MemoryOperation, now: int, threshold: nat)
    ensures match (op.lastReceiptChangeAt, op.firstAcceptedAt)
            case (Some(At(time)), _) => IsStale(op, now, threshold) <==> now - time > threshold
            case (None, Some(At(time))) => IsStale(op, now, threshold) <==> now - time > threshold
            case (_, _) => IsStale(op, now, threshold) <==> op.queuedAt.At? && now - op.queuedAt.time > threshold
  {
  }

  /** What one receipt does to the clocks of a record whose clock is not ahead of `now`: the time of
      first acceptance is never rewritten, and the staleness clock never runs ahead of `now`. It goes
      back only on a first observation, and then exactly when the server last touched the operation
      before the record's own clock started. */
  lemma ClocksAfterReceipt(op: MemoryOperation, receipt: Receipt, now: int)
    requires Bookkept(op) && StaleSince(op).Some? && StaleSince(op).value <= now
    ensures var after := Observed(op, receipt, now);
            && after.firstAcceptedAt.Some?
            && (op.firstAcceptedAt.Some? ==> after.firstAcceptedAt == op.firstAcceptedAt)
            && Bookkept(after) && StaleSince(after).Some? && StaleSince(after).value <= now
            && (StaleSince(after).value < StaleSince(op).value <==>
                  op.lastReceiptState.None? && ServerTime(receipt.updatedAt, now).time < StaleSince(op).value)
  {
  }

  /** A stale record that has been observed before stays stale through a receipt exactly when the
      receipt is unchanged; one never observed is judged by the server's own timestamp. */
  lemma StaleAfterReceipt(op: MemoryOperation, receipt: Receipt, now: int, threshold: nat)
    requires Bookkept(op)
    ensures op.lastReceiptState.Some? && IsStale(op, now, threshold) ==>
              (IsStale(Observed(op, receipt, now), now, threshold) <==> !ReceiptChanged(op, receipt))
    ensures op.lastReceiptState.None? ==>
              (IsStale(Observed(op, receipt, now), now, threshold) <==>
                 receipt.updatedAt.At? && now - receipt.updatedAt.time > threshold)
  {
  }

  /** Any number of polls with an unchanged receipt, failures included, leaves the clock where it was. */
  lemma {:induction false} UnchangedRunKeepsClock(op: MemoryOperation, polls: seq<Poll>, from: int, to: int)
    requires Bookkept(op) && op.lastReceiptState.Some? && UnchangedRun(op, polls, from, to)
    ensures StaleSince(AfterPolls(op, polls, from, to)) == StaleSince(op)
    decreases polls
  {
    if polls != [] {
      UnchangedRunKeepsClock(AfterPoll(op, polls[0]), polls[1..], polls[0].at, to);
    }
  }

  /** A released record with a receipt is not stale for a full window from its release, however often
      the same receipt comes back, and is stale right after it. */
  lemma ReleasedGetsFullWindow(op: MemoryOperation, released: int, polls: seq<Poll>, to: int, now: int, threshold: nat)
    requires op.receipt.Some?
    requires UnchangedRun(Released(op, In(Accepted), released), polls, released, to)
    ensures IsStale(AfterPolls(Released(op, In(Accepted), released), polls, released, to), now, threshold)
            <==> now > released + threshold
  {
    UnchangedRunKeepsClock(Released(op, In(Accepted), released), polls, released, to);
  }

  /** The first poll after a release is no first observation: the receipt already stored counts as seen. */
  lemma ReleasedReceiptIsKnown(op: MemoryOperation, released: int)
    requires op.receipt.Some?
    ensures !ReceiptChanged(Released(op, In(Accepted), released), op.receipt.value)
  {
  }
}
