# Durable learning pipeline: a verified model

The repository keeps a personal knowledge base that several agents read and write.
Sessions leave jobs in a queue on disk; a worker turns them into wiki pages and memory
operations, delivers the operations to a server, and mines the sessions for lessons and
workflows. This project models the parts of that pipeline whose correctness is an
argument about whole runs or whole texts, and proves them:

- **The learning queue** (`LearningQueue`, `QueueRuns`, `MemoryOperations`,
  `PayloadEnvironments`, `WorkerSteps`, `LearningWorker`, `MemoryEnqueue`). The disk is a
  map from slots to files, a run is a sequence of durable events, and a crash is a stop
  between two of them.
  `LearningQueue` states the rules that single events respect, `QueueRuns` what follows
  for every run that keeps them. `LearningWorker` is the worker itself, method by method:
  `run-once`, `quarantine` and `release`, against a server that may lose requests and
  replies, and with other programs adding operations and jobs between any two file
  operations. Each command is proved to keep the rules, so the theorems hold for any
  sequence of commands stopped anywhere. `MemoryEnqueue` takes the unlocked enqueuer apart,
  look by look, and says exactly when its write goes wrong.
- **Prompt snapshots** (`PromptSnapshots`, `Json`, `CompactJson`, `JsonIdentity`,
  `JsonEscapes`): an immutable generation file and one pointer per scope, with crashes
  after every file operation, and the hand-written compactor that has to reproduce the
  hashed bytes.
- **The update log and the index** (`UpdateLog`, `LockedLog`, `WikiIndex`, `IndexRows`,
  `TextLines`): two printers that re-read their own output, and the appenders that take
  turns under a file lock.
- **Footnote labels** (`FootnoteLabels`, `ArticleIds`), **the text index and the hash
  map** (`TextIndex`, `MarkdownStore`), **clustering** (`Clusters`), **context selection**
  (`ContextSelection`) and **the clock of the candidate commands** (`CivilDates`).

`Basics`, `Sorting` and `Decimals` are shared vocabulary. Code that updates fields or
files is a class or a method with loops; code that only computes is functions. Every such
method is proved equal to a function or against an outright property, and the lemmas then
speak about those functions.

`dafny verify dfyconfig.toml` checks the whole project.

## How some things are represented

- SHA-256 is an injective constructor of the bytes it hashes; times are integers
  (nanoseconds in the worker, seconds in the candidate commands); a stored timestamp is
  either the time it parses to or text that does not parse.
- Text is a sequence of characters, and lengths that the source counts in bytes are counted
  in characters, except where bytes are the point (`ContextSelection.TruncateUtf8`).
- `str::to_lowercase` and `char::is_alphanumeric` are their ASCII parts.
- Similarities are exact ratios and scores are ordered numbers or lists of summands, so no
  statement depends on floating-point rounding.
- A directory listing is a set that is walked in any order.

## Where the code does less than its documents say

The code is modelled as it is. Each of these has the exact condition under which the code
does meet the promise, and a lemma with a failing input.

- The repository's requirements for ingest de-duplication say that re-ingesting a recorded
  content increments the entry's revision; the draft's revision is incremented, so from the
  third ingest on it stands still (`MarkdownStore.RevisionCountsIngests`;
  it fails in `MarkdownStore.RevisionGoesBack`).
- `pk candidates accept` looks in all directories so as to queue an operation once; a record
  that moves back between two looks is missed, and can be destroyed by the write
  (`MemoryEnqueue.MissedExactly`, `MemoryEnqueue.ReplacesExactly`;
  it fails in `MemoryEnqueue.MigrationDuringLooks`).
- A job for an event whose record is in a directory that `enqueue_memory` does not look at
  creates a second record (`QueueRuns.SecondRecordExactly`; it fails in
  `QueueRuns.SecondBesideAccepted`).
- A generation file torn by a crash is trusted by later commits; its scope then reads as an
  error (`PromptSnapshots.RunAttempts`; it fails in `PromptSnapshots.TornByStop`).
- A snapshot's generation depends on the order of entries that share an identifier
  (`PromptSnapshots.OrderForgottenExactly`; it fails in `PromptSnapshots.SharedIdShows`).
- The hash map forgets a hash that two entries share
  (`MarkdownStore.DeleteStaysComplete`, `MarkdownStore.UpsertStaysComplete`; it fails in
  `MarkdownStore.SharedHashIsLost`).
- Delivery counts can be off after a crash (`WorkerSteps.CountsExactWhenTidy`; they fail in
  `WorkerSteps.StopMiscounts`). A command that runs to its end from a tidy queue leaves it
  tidy and counts exactly.
- The selection of context can depend on the order of its sources
  (`ContextSelection.SelectionForgetsOrder`; it does in
  `ContextSelection.TwiceInOneScope`).

## Model

| member | source | states |
|---|---|---|
| QueueRuns.NothingLost | pk-learning-worker/src/main.rs:886-900 | Over every run that keeps the rules, stopped anywhere, the memory record that was at a slot is still on disk under its name, with the same identity, payload, stored hash and first acceptance. |
| QueueRuns.NothingOverwritten | pk-learning-worker/src/main.rs:1013-1028 | Two memory records stay two: no write or rename of a run ever puts one in the other's place. |
| QueueRuns.OneDirPerNameThroughout | pk-learning-worker/src/main.rs:886-900 | A queue in which each name has one live record stays so at every point of a run if and only if no event creates a record of a name that has one. |
| QueueRuns.SubmissionsAgree | pk-learning-worker/src/main.rs:940-973 | Every submission ever sent for a record, across crashes, restarts, changed environments and requests that land late, carries the same id, method, dependencies, payload and hash. |
| QueueRuns.SameIdSameRequest | pk-learning-worker/src/main.rs:940-973 | Any two submissions with one operation id carry the same request, from whatever slots they were sent and whatever was lost or landed late in between, in a run in which a name keeps to one live record. |
| QueueRuns.SubmittedOnlyWhileAbsent | pk-learning-worker/src/main.rs:902-912 | Each submission follows a lookup at which the ledger lacked its id, and at the submission the ledger still lacks it, except exactly when a request for that id lands in between. |
| QueueRuns.AllSubmittedWhileAbsent | pk-learning-worker/src/main.rs:902-938 | So in a run in which nothing lands late, every id is submitted only while the ledger lacks it. |
| QueueRuns.ResubmittedOnlyIfNotLanded | pk-learning-worker/src/main.rs:902-938 | When each submission follows a lookup, an id is submitted again only if the earlier submission had not landed, at once or late, when the ledger was looked up. |
| QueueRuns.CreatedAtMostOnce | pk-learning-worker/src/main.rs:845-878 | A run creates two records of a name, or one beside one it began with, if and only if some event creates one while some directory holds another. |
| QueueRuns.NewEventsCreateOnce | pk-learning-worker/src/main.rs:845-878 | An event none of whose jobs was published while the queue had a record of it or another job that waited for it gets one record at most, however often its jobs are processed, interrupted and processed again. |
| QueueRuns.SecondRecordExactly | pk-learning-worker/src/main.rs:872-877 | Enqueueing gives an event a second live record if and only if its record is in one of the six directories that are not looked at and in neither of the two that are. |
| QueueRuns.SecondBesideAccepted | pk-learning-worker/src/main.rs:872-877 | The failing input: a record in `accepted` is not looked at, and enqueueing its event leaves two live records. |
| QueueRuns.PollsOfRunBounded | pk-learning-worker/src/main.rs:427-430 | In every run, as long as an accepted record only waits, it gets at most six unchanged polls and one more for every whole hour from the first to the last of them, over any number of worker runs and stops. |
| QueueRuns.PageCreatedAtMostOnce | pk-learning-worker/src/main.rs:565-592 | Each wiki page of a job is created at most once in a run. |
| LearningQueue.EntryId | pk-learning-worker/src/main.rs:565-592 | A job's page is named by the first sixteen characters of its event. |
| LearningQueue.NewOperation | pk-learning-worker/src/main.rs:845-870 | A fresh operation is pending, of version 2, adds a memory under the event's id with the job's payload bound to its hash, depends on nothing and has never been answered. |
| QueueRuns.CompletedJobsHaveEvidence | pk-learning-worker/src/main.rs:540-644 | Whatever crashes came on the way, a job in `completed` has its wiki page and a memory record of its operation. |
| QueueRuns.InvThroughout | pk-learning-worker/src/main.rs:364-398 | The queue invariant (bound records, evidence of completed jobs, operations of new events still pending while their job waits) survives every safe event and so every crash point. |
| MemoryEnqueue.ForwardIsFound | pk-cli/src/candidates.rs:382-387 | A record that is there at the first of the eight looks and only moves forward until the write is found by one of them. |
| MemoryEnqueue.MissedExactly | pk-cli/src/candidates.rs:382-415 | When all eight looks miss, the name has a record at the write if and only if in between a record of it moved back (a release or a migration) or another program created one. |
| MemoryEnqueue.ReplacesExactly | pk-cli/src/candidates.rs:382-415 | When all looks miss, the write replaces a record if and only if since the first look one was put in `memory/pending` and left there, which only another enqueuer or a move back does. |
| MemoryEnqueue.UndisturbedIsSafe | pk-cli/src/candidates.rs:382-415 | An enqueue that nothing disturbs keeps the rules of the queue, so all laws of runs hold for the run with its write. |
| MemoryEnqueue.MigrationDuringLooks | pk-cli/src/candidates.rs:382-415 | The failing input: the worker migrates a legacy record while `accept` looks, all looks miss, and the write leaves no file that holds the operation. |
| MemoryEnqueue.ReleaseDuringLooks | pk-cli/src/candidates.rs:382-415 | The release of a stalled record without a receipt during the looks loses it in the same way. |
| MemoryEnqueue.ReleaseMakesTwo | pk-cli/src/candidates.rs:382-415 | The release of one with a receipt during the looks leaves two live records of the name. |
| MemoryEnqueue.TwoAccepts | pk-cli/src/candidates.rs:382-415 | Two programs that accept one candidate at once: the second write replaces the first. |
| MemoryOperations.NormalizationSettles | pk-learning-worker/src/main.rs:1412-1448 | Normalizing a payload that was normalized before, in whatever environment, changes nothing: the hash stays bound to the same bytes. |
| PayloadEnvironments.EnvironmentMatters | pk-learning-worker/src/main.rs:1412-1448 | Before it is bound, a payload depends on the environment it is read in exactly when it is a task step in the old form that names no user. |
| MemoryOperations.ReadingSettles | pk-learning-worker/src/main.rs:1389-1410 | A record that was read once reads back as itself ever after, under any project id. |
| MemoryOperations.ReadingMeans | pk-learning-worker/src/main.rs:1389-1410 | Reading binds a record to its normalized payload and that payload's hash, sets version 2 and a blank state to pending, and keeps all else; it fails exactly on a payload that cannot be normalized or a stored hash that is another one. |
| PayloadEnvironments.OldStepBecomes | pk-learning-worker/src/main.rs:1412-1448 | A task step in the old form becomes its stream's first step, named, described and keyed by its description; it needs stream and description. |
| PayloadEnvironments.OldStepOwners | pk-learning-worker/src/main.rs:1412-1448 | It belongs to the agent and the user it names, trimmed, or else to the project's agent and the project. |
| PayloadEnvironments.OldCompletionBecomes | pk-learning-worker/src/main.rs:1412-1448 | A completion in the old form is keyed by its step and gets the fixed result; it needs the step. |
| PayloadEnvironments.OthersStay | pk-learning-worker/src/main.rs:1412-1448 | Payloads in the new form and those of the other two methods are kept as they are; any other method is refused. |
| MemoryOperations.ObserveReceipt | pk-learning-worker/src/main.rs:1044-1075 | Field by field: first acceptance is the server's time, never later than now and written once; a change of state or progress restarts the staleness clock and clears the backoff; an unchanged receipt lengthens the backoff by one poll; nothing else changes. |
| MemoryOperations.BackoffShape | pk-learning-worker/src/main.rs:1077-1085 | For every 32-bit count the delay is between a minute and an hour, never shorter than for fewer polls, doubling up to the cap, and computed below the 64-bit limit. |
| MemoryOperations.UnchangedPollsBounded | pk-learning-worker/src/main.rs:1044-1093 | For one record by itself: in any window without a receipt change, polls outside its backoff window number at most six and one more per whole hour, failed polls in between or not (`QueueRuns.PollsOfRunBounded` reads them off the runs). |
| MemoryOperations.AppliedIsPaced | pk-learning-worker/src/main.rs:1044-1093 | A receipt outside the backoff window that is unchanged always sets a new wait, timed by that poll, and any other clears the wait. |
| MemoryOperations.ClocksAfterReceipt | pk-learning-worker/src/main.rs:1044-1075 | First acceptance is write-once; the staleness clock never passes `now`, and goes back exactly on a first observation whose server time is older. |
| MemoryOperations.StaleAfterReceipt | pk-learning-worker/src/main.rs:1132-1146 | A stale record seen before stays stale through a receipt exactly when the receipt is unchanged; one never seen is judged by the server's own time. |
| MemoryOperations.StaleMeans | pk-learning-worker/src/main.rs:1134-1146 | A record is stale when its last receipt change, or where it had none its first acceptance, is longer ago than the threshold; where there is neither or it cannot be read, its queueing counts; without any readable time it never is. |
| MemoryOperations.UnchangedRunKeepsClock | pk-learning-worker/src/main.rs:1044-1075 | Any number of unchanged or failed polls leaves the staleness clock where it was. |
| MemoryOperations.ReleasedGetsFullWindow | pk-learning-worker/src/main.rs:1291-1330 | A released record with a receipt becomes stale exactly one full window after its release, under any number of unchanged polls. |
| MemoryOperations.ReleasedReceiptIsKnown | pk-learning-worker/src/main.rs:1291-1330 | The receipt stored on a released record is no first observation at the next poll. |
| WorkerSteps.CountsExactWhenTidy | pk-learning-worker/src/main.rs:975-1036 | A receipt that moves a record is counted as delivered, and one that does not is not, exactly when the state written in the record names its directory. |
| WorkerSteps.StopMiscounts | pk-learning-worker/src/main.rs:975-1036 | The failing input: a stop between the two file operations of applying a receipt to a tidy accepted record leaves one whose next receipt moves it and is not counted as delivered. |
| WorkerSteps.CountsAddUp | pk-learning-worker/src/main.rs:414-445 | Delivered, in flight, deferred and awaiting together count every visited name once. |
| WorkerSteps.RoundTrip | pk-learning-worker/src/main.rs:1182-1349 | Quarantine and then release leave each moved record in the directory its receipt calls for, with its id, arguments, hash, receipt and first acceptance, polled at once and its clock restarted. |
| LearningWorker.Worker.constructor | pk-learning-worker/src/main.rs:359-364 | A process that starts on a queue satisfying the invariant starts valid. |
| LearningWorker.Worker.QueueMemory | pk-cli/src/candidates.rs:375-417 | An enqueue that nothing disturbs adds a pending operation exactly where no directory holds one of its name (`MemoryEnqueue` has the looks one by one). |
| LearningWorker.Worker.ApplyReceipt | pk-learning-worker/src/main.rs:975-1036 | Only a receipt of version 2 for this very id, method, payload hash and dependencies is applied, and only in a known state. A committed record ends in `completed`, a refused one in `rejected`, one in any of the six phases in `accepted`, each saying so and holding receipt and error, at its own place or preserved beside the record that has it; a transition is reported exactly if the record did not claim to be there. |
| LearningWorker.Worker.Lookup | pk-learning-worker/src/main.rs:902-912 | A lookup answers with the ledger's receipt, or that there is none, or fails. |
| LearningWorker.Worker.SubmitOperation | pk-learning-worker/src/main.rs:940-973 | A POST carries the record's own id, method, dependencies and payload under the hash of that payload, follows a lookup that met no such id, and reports a lost request and a lost reply alike, and an unusable reply like a refusal, whether or not the ledger was opened. |
| LearningWorker.Worker.Exchange | pk-learning-worker/src/main.rs:902-938 | Looks up first and submits only an id the lookup did not meet, to a ready ledger, sending exactly that one request; returns the ledger's receipt, or the failure of the first step that has one: no answer in time, another answer, or a ledger that is not ready. |
| LearningWorker.Worker.ReconcileMemory | pk-learning-worker/src/main.rs:880-920 | A pending record is marked, its error cleared, and moved to `submitting` first; then the outcome, the final place and content of the record, what is sent and what the ledger has are determined by what was read, what the lookup met and how the exchange went. Committed, refused and underway records end in `completed`, `rejected` and `accepted`. |
| LearningWorker.Worker.RecordMemoryError | pk-learning-worker/src/main.rs:1485-1516 | Notes the error on the record where it was, or else in the first of `submitting`, `accepted`, `pending`, `completed`, `rejected` and `stalled` that has it, and fails only if none has or it cannot be read. |
| LearningWorker.Worker.ReconcileOne | pk-learning-worker/src/main.rs:427-444 | An accepted record in its backoff window is deferred; any other counts as delivered or in flight by what its receipt says, or waits with the error of the exchange noted on it, and the pass stops exactly for a failing transport. Only an unreadable record aborts the pass, and the tally of a tidy record means what it says on disk. |
| LearningWorker.Worker.ReconcileDirectory | pk-learning-worker/src/main.rs:417-445 | Listing a directory visits every name in it once, skipping names that an earlier directory had. |
| LearningWorker.Worker.ReconcileAll | pk-learning-worker/src/main.rs:409-445 | A pass that no transport failure ends early gives every name that was listed at its start exactly one outcome, the counts add up to the names, and only an unreadable listed record aborts it. A tidy queue is left tidy, and then every tally means what it says on disk. |
| LearningWorker.Worker.RecoverMemorySubmitting | pk-learning-worker/src/main.rs:500-513 | Normalizes exactly the records a crash left in `submitting`, in place, and succeeds exactly when each of them can be read. |
| LearningWorker.Worker.MigrateLegacyMemoryRetry | pk-learning-worker/src/main.rs:515-538 | Empties the legacy directory into `pending`, keeping records whose place is taken, and succeeds exactly when every record it has to read can be read. |
| LearningWorker.Worker.ReturnJobs | pk-learning-worker/src/main.rs:470-498 | Jobs found in `processing` or the legacy `retry` are pending again or kept as duplicates, and nothing else moves. |
| LearningWorker.Worker.WritePage | pk-learning-worker/src/main.rs:565-592 | The job's page exists afterwards and is written only if it was missing. |
| LearningWorker.Worker.EnqueueMemory | pk-learning-worker/src/main.rs:845-878 | Nothing changes if the operation is pending or completed, otherwise it is created from the job, whatever the other directories hold; for an event that was new when its job was published it ends up in `pending` and nowhere else. |
| LearningWorker.Worker.ProcessJob | pk-learning-worker/src/main.rs:540-646 | Fails exactly for an unreadable file, a schema other than 2 or a failed step; a job that was completed before is kept as a duplicate. |
| LearningWorker.Worker.HandleJob | pk-learning-worker/src/main.rs:371-397 | A job ends completed exactly if it was completed before, or it parses, is of version 2 and no outside step fails; else it is rejected with its file kept. |
| LearningWorker.Worker.ProcessJobs | pk-learning-worker/src/main.rs:368-398 | Every listed job ends completed or rejected, the completed count is the number of listed jobs that are in `completed`, the two counts add up to the listed jobs, and no queued job's operation is left half made. |
| LearningWorker.Worker.Recover | pk-learning-worker/src/main.rs:362-367 | After recovery no job is being processed and every record in `submitting` is ready to be sent; it fails only on an unreadable record. |
| LearningWorker.Worker.RecoverJobs | pk-learning-worker/src/main.rs:470-498 | Every job left in `processing` or the legacy `retry` is pending again, or preserved under its reason beside the pending one. |
| LearningWorker.Worker.RunOnce | pk-learning-worker/src/main.rs:359-456 | Over readable records a run succeeds; every queued job, also one left in processing or retry, is handled and counted by where it ended; the memory counts add up, an unbroken pass covers every name listed at its start, and the stale and the stalled records are reported. A tidy queue is left tidy, and its tallies are exact. |
| LearningWorker.Worker.Quarantine | pk-learning-worker/src/main.rs:1182-1262 | Moves exactly the accepted records that can be read and are stale to `stalled`, each saying so and otherwise as read, or nothing at all when one target is taken or the run is dry; a tidy queue is left tidy. |
| LearningWorker.Worker.Release | pk-learning-worker/src/main.rs:1267-1349 | Succeeds exactly when every stalled record reads, every named id exists and no target is taken; then moves exactly the named records, or all, to `accepted` if the server ever answered for them and else to `pending`, polled at once with their clock restarted; otherwise it fails for the first of these reasons and moves nothing; a tidy queue is left tidy. |
| LearningWorker.Worker.Crash | pk-learning-worker/src/main.rs:1544-1584 | Any prefix of the events of a run is a state from which the next process starts valid. |
| LearningWorker.Worker.Lifetime | pk-learning-worker/src/main.rs:273-305 | Any sequence of commands, each stopped after any number of file operations and interleaved with the other programs and late landings, loses no record, merges no two, submits an id only while the ledger lacks it unless it lands after the lookup, polls a record that only waits no more often than its backoff allows, leaves completed jobs with their evidence, creates one record at most for new events, and keeps one directory per name, and so one request per id, exactly while no event is enqueued that has a record. |
| LearningWorker.Worker.QuarantineThenRelease | pk-learning-worker/src/main.rs:1182-1349 | Run end to end, the release succeeds if and only if no stale record without a receipt has another one pending; then the two commands return every stale record to where its receipt calls for, unchanged in identity, payload, hash and receipt. |
| PromptSnapshots.GenerationIdentifiesEntries | pk-store/src/prompt_snapshot.rs:142-149 | Two commits get the same generation exactly when they have the same scope and the same entries sorted by identifier; where no two different entries share an identifier, exactly when they have the same entries in whatever order. |
| PromptSnapshots.OrderForgottenExactly | pk-store/src/prompt_snapshot.rs:142-149 | The generation is the same for every order of the entries if and only if no two different ones share an identifier. |
| PromptSnapshots.SnapshotStore.CommitPromptSnapshot | pk-store/src/prompt_snapshot.rs:28-60 | The published snapshot holds the given entries by ascending identifier, those of one identifier in the order given; its generation is the hash of the tagged scope and the compact text of just these entries, and its counts are theirs. States the error cases, the disk a commit leaves, and that until its last file operation no reader of any scope notices anything and no existing generation file changes. |
| PromptSnapshots.SnapshotStore.ReplacePointer | pk-store/src/prompt_snapshot.rs:206-227 | The pointer is replaced in one rename from an own temporary, or not at all if that temporary exists. |
| PromptSnapshots.CommitReadsBack | pk-store/src/prompt_snapshot.rs:53-101 | A finished commit reads back exactly its entries, if and only if a generation file that was there already is intact. |
| PromptSnapshots.AcceptedIsGenuine | pk-store/src/prompt_snapshot.rs:63-101 | Whatever a reader accepts is of version 1 and of its scope, and its generation and counts are those of its own entries. |
| PromptSnapshots.ReadErrors | pk-store/src/prompt_snapshot.rs:63-101 | A bad scope, a missing or bad pointer, a missing and an unreadable generation file each fail with their own error. |
| PromptSnapshots.CommitIsLocal | pk-store/src/prompt_snapshot.rs:28-101 | Whatever other files are torn, a commit changes what its own scope reads and nothing else: its new entries, or an error if and only if it trusted a file of its generation that is not intact. |
| PromptSnapshots.CrashKeepsReads | pk-store/src/prompt_snapshot.rs:28-60 | A stop before the last operation of a commit leaves every committed scope reading as before. |
| PromptSnapshots.RunAttempts | pk-store/src/prompt_snapshot.rs:28-101 | Over any sequence of commits and stops, each scope reads as the last snapshot published for it, whether its caller learned of it or the process stopped first, or fails if and only if the first attempt that got to that generation's file stopped between creating and filling it. |
| PromptSnapshots.TornByStop | pk-store/src/prompt_snapshot.rs:28-101 | The failing input: a first commit that stops between creating and filling its generation file makes the next commit of the same entries publish a scope that reads as an error. |
| CompactJson.Compacted | pk-store/src/prompt_snapshot.rs:118-140 | The character loop with its two flags equals the reading of the text mode by mode. |
| CompactJson.CompactionIdempotent | pk-store/src/prompt_snapshot.rs:118-140 | Compacting what was compacted changes nothing, for any text. |
| CompactJson.BlanksOnlyOutside | pk-store/src/prompt_snapshot.rs:118-140 | Outside string literals exactly blanks, tabs, line feeds and carriage returns go; inside them nothing does. |
| CompactJson.LayoutCompacts | pk-store/src/prompt_snapshot.rs:118-140 | Whatever blank gaps stand between tokens, exactly the tokens are left, strings and their escapes included. |
| CompactJson.PrettyCompacts | pk-store/src/prompt_snapshot.rs:118-140 | For every JSON value at every depth, compacting its pretty-printed text gives its compact text. |
| JsonIdentity.CompactInjective | pk-store/src/prompt_snapshot.rs:142-149 | Equal compact texts come from equal values, so the hash of the bytes identifies the value. |
| JsonEscapes.EscapeRoundTrip | pk-store/src/prompt_snapshot.rs:142-149 | A printed string literal reads back, by section 7 of RFC 8259, as the string it was printed for. |
| JsonEscapes.EscapeShape | pk-store/src/prompt_snapshot.rs:142-149 | Seven characters have a short escape, other control characters the four-digit one in lower case, and no other character is escaped. |
| CivilDates.CivilValid | pk-cli/src/candidates.rs:534-544 | Every integer day count gives a valid date of the proleptic Gregorian calendar. |
| CivilDates.Epoch | pk-cli/src/candidates.rs:534-544 | Day 0 is 1970-01-01. |
| CivilDates.CivilAdvances | pk-cli/src/candidates.rs:534-544 | Each day count is followed by the next day of the calendar, which with the epoch leaves no other function. |
| CivilDates.CivilInverse | pk-cli/src/candidates.rs:534-544 | Counting days by the leap rule inverts the computation on every day count. |
| CivilDates.CivilInverseOnDates | pk-cli/src/candidates.rs:534-544 | The computation inverts the count on every valid date. |
| CivilDates.CivilMonotone | pk-cli/src/candidates.rs:534-544 | Later day counts give later dates, and only they do. |
| CivilDates.TimestampRoundTrip | pk-cli/src/candidates.rs:530-551 | Until the year 10000 the printed timestamp has the fixed-width form of section 5.6 of RFC 3339 and reads back as the second it was printed for. |
| UpdateLog.AppendLogLine | pk-store/src/bundle.rs:175-222 | The insertion line by line equals the specification of one append. |
| UpdateLog.AppendRenders | pk-store/src/bundle.rs:175-222 | Appending to a printed log prints the log with the line added to its date's group: re-reading loses nothing. |
| UpdateLog.AppendedReads | pk-store/src/bundle.rs:175-222 | Appending to any text that is not blank keeps all its lines and adds the new ones in one place: the line below the first heading of its date, else a group above the first heading, else right below the title, else at the top. |
| UpdateLog.FoldRendersGroups | pk-store/src/bundle.rs:175-222 | After any appends from the empty log the text is the printed form of the groups. |
| UpdateLog.OneHeadingPerDate | pk-store/src/bundle.rs:186-193 | In whatever order dates come, each has exactly one heading, above its lines in reverse order of appending. |
| UpdateLog.HeadingsDescend | pk-store/src/bundle.rs:195-211 | The headings descend strictly if and only if every date is, when it first comes, later than all before it. |
| UpdateLog.NewestFirstLog | pk-store/src/bundle.rs:175-222 | Under dates that never go back: one heading per date, strictly descending, and all entries from top to bottom the exact reverse of the appends. |
| UpdateLog.BackdatedAppend | pk-store/src/bundle.rs:195-211 | An append under an earlier date lands above the later one, so the hypothesis on dates is needed. |
| UpdateLog.LogLineIsEntry | pk-store/src/store.rs:292-294 | What `append_log` writes is never mistaken for a heading as long as its parts hold no line feed. |
| UpdateLog.LockedLogReadsNewestFirst | pk-store/src/store.rs:292-312 | Any interleaving of appenders under the lock, with stops and new days, leaves a log that reads newest first and keeps every stored line. |
| UpdateLog.FreshLogReadsNewestFirst | pk-store/src/store.rs:292-312 | The same for a log that starts empty, with any appenders that have yet to take the lock. |
| LockedLog.LockedAppendsFold | pk-store/src/store.rs:253-315 | Under the lock the file is always the fold of the stored appends in the order stored, whatever the rewriting function. |
| WikiIndex.EntryGroups | pk-store/src/bundle.rs:103-124 | The loop over entries builds the groups of their rows. |
| WikiIndex.RenderIndexGroups | pk-store/src/bundle.rs:128-157 | The printing loop equals the specification, trailing newlines taken off. |
| WikiIndex.RenderIndexPreserving | pk-store/src/bundle.rs:73-99 | The pass over the old lines and the printing equal the specification of the index; the index opens with the version block and the title, or says that there is nothing; and re-reading it finds plain entries under the headings of their types, those without a type under "Uncategorized", as often as they were given. |
| WikiIndex.CarriedOncePerPath | pk-store/src/bundle.rs:80-97 | For each failed path the old index lists, exactly its first line is carried, in the section it stood in; nothing else is. |
| WikiIndex.EntryOrderIsForgotten | pk-store/src/bundle.rs:126-157 | The index does not depend on the order of the entries. |
| WikiIndex.RerenderIsFixed | pk-store/src/bundle.rs:73-157 | Printing again from the printed index changes nothing, if fields stay on one line and no parsed page's line reads as that of a failed path. |
| WikiIndex.PlainRerenderIsFixed | pk-store/src/bundle.rs:73-157 | The same for titles without `](/` and identifiers without `.md)` that are no failed paths. |
| WikiIndex.PlainEntryReads | pk-store/src/bundle.rs:159-169 | A plain entry's printed line parses back to its title and identifier, whatever its description. |
| WikiIndex.EntriesExactly | pk-store/src/bundle.rs:159-169 | A line is read as an entry with a title and a target exactly if it reads `* [title](/target.md)` and more, leading blanks aside, with both ending at the first place they can and the target not empty. |
| WikiIndex.IndexListsAll | pk-store/src/bundle.rs:73-169 | Re-reading the index finds, for whatever targets one looks up, exactly the entries and carried lines with those targets, each in its section. |
| WikiIndex.SectionsFollowTypes | pk-store/src/bundle.rs:103-157 | In the re-read index every row stands under a heading exactly as often as plain entries of that type have it, and under "Uncategorized" as entries without a type do, beside the lines carried over. |
| IndexRows.SameArranged | pk-store/src/bundle.rs:142-146 | A section prints the same rows in the same order whatever order they came in. |
| IndexRows.ArrangedAscends | pk-store/src/bundle.rs:142-146 | Within a section titles ascend, letter case aside, and equal titles come by their lines. |
| IndexRows.KeysAscend | pk-store/src/bundle.rs:126-141 | Sections come in ascending order. |
| IndexRows.GroupedCounts | pk-store/src/bundle.rs:118-122 | A group holds each row exactly as often as it was placed in its section. |
| FootnoteLabels.ClaimFree | pk-librarian/src/librarian.rs:332-345 | Finds the first free candidate, by pigeonhole among the first `taken + 1`, so the counter stays that small. |
| FootnoteLabels.WithUniqueIds | pk-librarian/src/librarian.rs:329-388 | The three passes label every source in order of rounds. The label is the model's own where it can stand, verbatim unless an earlier source had it; else the resource's slug, and "source" only where that is empty, bare if no other source has it; else with a number from 2 on. Resources and order are kept. |
| FootnoteLabels.LabelsAreDistinct | pk-librarian/src/librarian.rs:311-328 | Every label is a valid footnote label and no two are the same, letter case aside. |
| FootnoteLabels.FirstUsesKept | pk-librarian/src/librarian.rs:358-364 | The first occurrence of every usable label is kept verbatim. |
| FootnoteLabels.CitationResolves | pk-librarian/src/librarian.rs:311-328 | A citation by a label the model chose resolves to exactly one source, the first that chose it. |
| FootnoteLabels.LabellingSettles | pk-librarian/src/librarian.rs:329-388 | Labelling what is labelled changes nothing. |
| FootnoteLabels.LabellingIsUnique | pk-librarian/src/librarian.rs:329-388 | The order of the rounds leaves no choice: the labels are a function of the sources. |
| ArticleIds.SlugIsSafe | pk-core/src/types.rs:20-78 | A non-empty slug is a safe path, even where its words spell a device name. |
| ArticleIds.SafePathExactly | pk-core/src/types.rs:48-78 | A path is safe exactly when it does not start with a slash, holds no backslash and no colon, and no segment is empty, ends in a dot or a blank, or names a device. |
| ArticleIds.DeviceNamesAre | pk-core/src/types.rs:58-72 | The device names are the four bare ones, and `com` and `lpt` with a digit from 1 to 9. |
| ArticleIds.WordsKeepLetters | pk-core/src/types.rs:20-38 | A slug's words hold the letters and digits of the text, all of them and in order. |
| ArticleIds.WordsSeparate | pk-core/src/types.rs:20-38 | Any other character between two texts with words parts their words by one dash. |
| ArticleIds.SlugsCollideOnlyByWords | pk-core/src/types.rs:20-38 | The underscore behind a device name never makes two titles collide: slugs are equal exactly if the words are. |
| FootnoteLabels.SlugIsLabel | pk-librarian/src/librarian.rs:372-380 | A resource's slug is a usable label exactly when it is not empty. |
| TextIndex.Index.Upsert | pk-store/src/index.rs:34-65 | After an upsert the index stands for the documents with this one replaced; a document without terms leaves no trace. |
| TextIndex.Index.Remove | pk-store/src/index.rs:67-75 | After a removal the index stands for the documents without this one, and the count follows. |
| TextIndex.Index.Search | pk-store/src/index.rs:77-98 | Every score is made of one summand for each query term the document holds, in query order: its occurrences in the document, the document's length, the number of non-empty documents and the number of those that hold it. |
| TextIndex.SameScores | pk-store/src/index.rs:77-98 | Two indexes of the same documents agree on lengths, count and every query's score map, whatever empty posting maps they carry. |
| TextIndex.ScoresAreEarned | pk-store/src/index.rs:77-98 | Whatever run of updates the index went through, the accumulated scores are those that the documents themselves give. |
| TextIndex.ScoredDocuments | pk-store/src/index.rs:77-98 | A document scores for a query exactly when it holds one of its terms. |
| TextIndex.RunAgainstRebuild | pk-store/src/index.rs:34-98 | After any run of upserts and removals, a query gets the score map that a fresh build over the surviving documents gives. |
| MarkdownStore.Store.constructor | pk-store/src/store.rs:74-109 | An opened store's index stands for its entries, its hash map is complete, and it is true if and only if no page loses its hash to a later page of its identifier. |
| MarkdownStore.ScanPages | pk-store/src/store.rs:525-607 | The pass over the pages builds entries, index, texts and hash map together, the last page winning where two share an identifier or a hash. |
| MarkdownStore.SourceAt | pk-store/src/store.rs:525-607 | The text kept under a path is that of the last page that could be read there. |
| MarkdownStore.Store.ReconcileFromDisk | pk-store/src/store.rs:112-149 | Reloads everything exactly when all pages parse and some text changed; the reloaded hash map is complete, and true under the same exact condition; otherwise nothing changes. |
| MarkdownStore.Store.Upsert | pk-store/src/store.rs:155-195 | Refuses unsafe identifiers unchanged; otherwise bumps exactly existing entries and rehashes, before the page is written, and keeps the hash map true. |
| MarkdownStore.Store.Delete | pk-store/src/store.rs:197-214 | Refuses a missing identifier; otherwise entry, index and hash go together, and the hash map stays true. |
| MarkdownStore.Store.Compile | pk-librarian/src/librarian.rs:75-93 | A recorded content is stored under the entry that has it, wherever the search leads; one that is not recorded under the near duplicate it was given, adding no entry and leaving the draft's own identifier alone; the draft's own identifier is used exactly when both are missing. The stored revision grows exactly if the draft is not behind it, and an exact map stays exact. |
| MarkdownStore.UpsertStaysBacked | pk-store/src/store.rs:170-181 | Upserting keeps every hash of the map pointing at an entry that has it. |
| MarkdownStore.DeleteStaysBacked | pk-store/src/store.rs:197-206 | Deleting keeps it too. |
| MarkdownStore.DeleteStaysComplete | pk-store/src/store.rs:203-205 | Deleting keeps all hashes findable if and only if no other entry shares the deleted one. |
| MarkdownStore.UpsertStaysComplete | pk-store/src/store.rs:170-176 | Replacing keeps all hashes findable if and only if no other entry shares a hash that is given up. |
| MarkdownStore.SharedHashIsLost | pk-store/src/store.rs:203-205 | Two entries with one hash: deleting either leaves the other's content unrecorded. |
| MarkdownStore.ScanIsBacked | pk-store/src/store.rs:587-604 | Pages with distinct identifiers scan to a map that is backed and complete. |
| MarkdownStore.ScanBackedExactly | pk-store/src/store.rs:587-604 | What a scan's map says is true if and only if wherever a page's identifier comes again, its hash comes again too. |
| MarkdownStore.ScanIsComplete | pk-store/src/store.rs:587-604 | A scan finds every hash that an entry has, whatever the pages. |
| MarkdownStore.RepeatedIdIsUnbacked | pk-store/src/store.rs:587-597 | Two pages under one identifier with different hashes leave a hash that no entry has. |
| MarkdownStore.CompileStaysExact | pk-librarian/src/librarian.rs:75-83 | With `compile_with` as the only writer the map stays the exact inverse of the entries' hashes. |
| MarkdownStore.RecordedContentAddsNothing | pk-librarian/src/librarian.rs:75-91 | Re-ingesting a recorded content adds no entry and stores the draft's revision plus one, which is more than the stored one exactly if the draft is not behind it; an entry is added exactly for an unused identifier. |
| MarkdownStore.RevisionCountsIngests | pk-store/src/store.rs:165-167 | The revision counts each of any number of repeated ingests if and only if there is none, or a single one whose draft carries the stored revision: from the second on it stands still. |
| MarkdownStore.RevisionGoesBack | pk-store/src/store.rs:165-167 | A draft at revision 0, as the compiler makes it (`pk-core/src/types.rs`, line 260), over a stored revision 1 leaves 1, and over a stored 3 goes back to 1. |
| MarkdownStore.ExactMapFindsAll | pk-store/src/store.rs:405-412 | In an exact map the recorded contents are exactly those of the entries, each of one entry. |
| MarkdownStore.IngestAll | pk-librarian/src/librarian.rs:75-93 | After any run of ingests from an empty store the map is exact, and with drafts at revision 0 no entry's revision has passed 1. |
| MarkdownStore.Serve | pk-store/src/store.rs:116-214 | Over any run of upserts, deletions, ingests and reloads on pages none of which loses its hash to a later page of its identifier, the hash map stays true and the index in step with the entries. |
| Clusters.Jaccard | pk-learning-worker/src/promotion.rs:520-538 | The merge loop over sorted lists gives intersection over union, and zero for two empty lists. |
| Clusters.MergeCountsCommon | pk-learning-worker/src/promotion.rs:525-537 | On sorted, de-duplicated lists the merge counts exactly the common elements. |
| Clusters.RatioIsSymmetric | pk-learning-worker/src/promotion.rs:520-538 | Similarity is symmetric, between 0 and 1, and 1 exactly for equal non-empty sets. |
| Clusters.Cluster | pk-learning-worker/src/promotion.rs:309-319 | The loop that grows the clusters equals the greedy specification. |
| Clusters.ProposeClusters | pk-learning-worker/src/promotion.rs:302-319 | The clusters hold exactly the lessons that take part, members in the order of their stamps, each sharing at least three fifths of its shingles with its anchor and with no earlier anchor. |
| Clusters.LessonsNearExactly | pk-learning-worker/src/promotion.rs:309-319 | Two lessons resemble each other exactly if they share three fifths of their shingles. |
| Clusters.HalvesWeighAlike | pk-learning-worker/src/skill_candidates.rs:524-527 | Prompts and tools weigh alike: full agreement in one alone is exactly enough for workflows to be near, and less is not. |
| Clusters.ClustersInOrder | pk-learning-worker/src/promotion.rs:302-319 | Members and anchors come by stamp, and those of one stamp by identifier, so the anchor is the earliest member. |
| Clusters.ClustersAreAnchored | pk-learning-worker/src/promotion.rs:302-319 | Every member is near its cluster's anchor and near no earlier anchor. |
| Clusters.ClustersPartition | pk-learning-worker/src/promotion.rs:302-319 | The clusters hold every record exactly once. |
| Clusters.GrowthExtends | pk-learning-worker/src/skill_candidates.rs:267-281 | More records at the end only extend the clustering: old clusters are prefixes of their new selves. |
| Clusters.LaterRecordsExtend | pk-learning-worker/src/promotion.rs:300-319 | Growing an index by later-stamped records, sorted and filtered either way round, keeps every anchor and so every candidate id, and every old member in its place. |
| Clusters.EarlierRecordTakesAnchor | pk-learning-worker/src/promotion.rs:304-308 | A record stamped earlier can take over an anchor, so the hypothesis is needed. |
| Clusters.ResemblanceIsSymmetric | pk-learning-worker/src/skill_candidates.rs:524-527 | Comparing with the anchor first or last makes no difference, for lessons and for workflows. |
| Clusters.AppendNew | pk-learning-worker/src/promotion.rs:245-298 | Adds exactly the observations whose identifier is new, once each and stamped now; identifiers stay distinct and old records a prefix. |
| Clusters.AppendKeepsClusters | pk-learning-worker/src/promotion.rs:245-319 | What an append adds under a clock later than every stamp in the index only extends the clusters. |
| ContextSelection.Select | pk-cli/src/main.rs:804-849 | Of each identifier the copy of the closest scope is taken, the project's before the shared before the global one, and of that scope the best; results come by falling score, at one score the closer scope first, then by identifier; at most 32, and no more than either limit. |
| ContextSelection.Deduplicate | pk-cli/src/main.rs:817-836 | The filter through two mutable sets equals the canonical pass. |
| ContextSelection.DropsExactly | pk-cli/src/main.rs:820-836 | A candidate is dropped exactly when an earlier one has its identifier or an earlier kept one its content. |
| ContextSelection.LostThird | pk-cli/src/main.rs:828-832 | An identifier counts as seen even where its candidate is dropped for its content, so a third candidate can be lost though nothing kept resembles it. |
| ContextSelection.SelectionIsRanked | pk-cli/src/main.rs:837-849 | Results have pairwise distinct identifiers and contents, come by score, scope and identifier, respect the caps, and outrank everything kept that was cut. |
| ContextSelection.CanonicalCopyWins | pk-cli/src/main.rs:801-816 | The copy of an identifier that is ranked is canonical: it is the project's if the project has one, not the global one if a shared one exists, and of its scope none has a higher score. |
| ContextSelection.ArrangedByScope | pk-cli/src/main.rs:804-816 | The arrangement in which copies are judged has the project's candidates first, then the shared, then the global ones, within a scope by falling score, then by identifier. |
| ContextSelection.ContentIsBoth | pk-cli/src/main.rs:817-836 | Contents count as the same exactly if title and content are. |
| ContextSelection.SelectionForgetsOrder | pk-cli/src/main.rs:804-849 | Every permutation of the candidates is ranked alike if and only if, wherever different candidates tie, an identifier or a kept content before them drops them anyway. |
| ContextSelection.UntiedIsHarmless | pk-cli/src/main.rs:804-849 | Where no two different candidates tie the selection is a function of their multiset, also where a scope offers an identifier again with another score. |
| ContextSelection.OnceForgetsOrder | pk-cli/src/main.rs:804-849 | With each identifier once in a scope the selection is a function of the set of candidates. |
| ContextSelection.TwiceInOneScope | pk-cli/src/main.rs:804-816 | A scope that offers an identifier twice with one score makes the selection depend on their order. |
| ContextSelection.TruncateUtf8 | pk-cli/src/main.rs:1003-1012 | Walks back to the last boundary within the limit. |
| ContextSelection.CutKeepsCharacters | pk-cli/src/main.rs:1003-1012 | Cut encoded text is the longest run of whole characters that fits. |
| ContextSelection.EncodedIsEncoded | pk-cli/src/main.rs:1003-1012 | Every code point encoded by section 3 of RFC 3629 is a leading byte and continuation bytes. |
| Sorting.SortForgetsOrder | pk-store/src/bundle.rs:142-146 | A stable sort forgets the input order when its comparator has no ties. |

## Left out

- LearningWorker.Worker.ApplyReceipt: delivery is counted by the state written in the record, and a stop between that write and the rename makes the next count differ, so the claim for all runs has the exact condition of `WorkerSteps.CountsExactWhenTidy`: the counts of a pass are exact where it starts from tidy records, which every command that is not stopped keeps.
- LearningWorker.Worker.SubmitOperation: the server is a ledger of receipts: how it treats a second POST of an id it has is not modelled, beyond the receipt it then stores and answers with.
- LearningWorker.Worker.QueueMemory: only enqueues that nothing disturbs between their first look and their write act beside the worker. The source takes no lock, so a release or a migration by the worker itself, or another enqueuer, can come in between and make the write replace a record or create a second one; `MemoryEnqueue` has the exact conditions and the failing inputs, and the claims of `LearningWorker.Worker.Lifetime` are for the undisturbed case.
- LearningWorker.Worker.ReconcileAll: operations that other programs add during the pass may or may not be visited, and the claim that every listed record is visited needs all of them to be readable, since noting an error reads the record again.
- LearningWorker.Worker.RunOnce: the age of the oldest accepted record, log lines and the printed summary are not modelled.
- LearningWorker.Worker.Quarantine: the manifest written beside the moved records is not modelled.
- LearningWorker.Worker.Release: the manifest is not modelled here either, nor is the list of identifiers it prints.
- LearningWorker.Worker.HandleJob: the failure note written next to a rejected job is not modelled, and a file operation fails only by stopping the process.
- LearningWorker.Worker.Crash: a stop leaves whole file operations; the temporary files of atomic writes and the flushing of directories are taken for granted.
- LearningWorker.Worker.PreserveDuplicate: two duplicates of one name preserved within one millisecond are taken to get different names.
- LearningWorker.Worker.ProcessJobs: jobs are published under names that no queued job has, and candidates never have the id of an event that a job waits for.
- PromptSnapshots.RunAttempts: permissions and flushing are left out; a stop leaves whole file operations, where creating a file and filling it are two.
- PromptSnapshots.CommitReadsBack: what the JSON parser does with an entry is a stored pair of text and value, spelled by `serde_json`'s printers.
- UpdateLog.NewestFirstLog: lines and dates are taken as `append_log` makes them (ISO dates, one-line entries that are no headings); the existing file is the log's own or blank.
- WikiIndex.IndexListsAll: a title that holds `](/`, an identifier that holds `.md)`, or a type that is blank or ends in blanks prints a line or a heading that reads back as something else, so what the index lists is stated for the plain case only.
- WikiIndex.EntryOrderIsForgotten: the lock around the index rebuild and the reading of the pages are not modelled; the lock protocol is modelled for the log.
- FootnoteLabels.ClaimFree: the 32-bit counter is unbounded; the contract shows that it stays within one more than the labels taken.
- TextIndex.Index.Upsert: the tokenizer is left out, a document is the list of its terms.
- TextIndex.Index.Search: ranking and truncation of the score map, where ties fall arbitrarily, are left out.
- MarkdownStore.Store.Upsert: the page file is a success flag.
- MarkdownStore.Store.Delete: removing the page file, and its failure, are left out.
- MarkdownStore.Store.Compile: the near-duplicate search of `compile_with` is a parameter.
- QueueRuns.PollsOfRunBounded: speaks of the stretches in which a record waits in `memory/accepted`; a receipt that changes, a quarantine or a release starts a new stretch, and polls of records in `memory/submitting` are not deferred by the source.
- Clusters.AppendNew: tokenizing and hashing an observation to its identifier and shingles come before; writing candidates and the proposal texts are left out.
- ContextSelection.Select: scoring, tag filtering, snippets and the byte budget of the rendered output other than its final cut are left out.
- CivilDates.TimestampRoundTrip: the clock is a non-negative count of seconds, as the source's fallback to zero makes it.
- HTTP, model and tool-server plumbing, file watching, the version-control subprocess, permissions, terminal output and argument parsing are left out.
- Lint texts, transcript limits, keyword lists, the event store's sharding and the health report would only add easy members.
