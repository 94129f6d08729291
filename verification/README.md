# A verification model of the camera service's logging, parsing and message logic

The service's own code is thin; what it depends on is the logging library, the command-line
parser and the generated message classes it ships. This project models the intricate parts of
those in Dafny and proves what they promise. `dafny verify dfyconfig.toml` checks all of it.

**Asynchronous logging.** `CircularQueue` is the ring buffer, as a class over an array and as
the bounded sequence it stands for. `BlockingQueue` is the multi-producer multi-consumer queue
as a step system: one step is one section under the mutex, one notification, one increment of the
discard counter, one timeout or one spurious wakeup, by any of any number of threads. `MpmcQueue`
is the code of those sections, each proved to be such a step. `ThreadPool` adds workers, posters
and the destructor; `Shutdown` proves what the destructor achieves and that it ends;
`AsyncLogging` says what sinks and flush promises see.

**Rotating files.** `FileNames` names the files of a family, `Rotation` says what shifting a family
does to the log it holds (a file is the sequence of blocks written to it, a block being one
message), and `RotatingFileSink` is the sink over a file system whose removes, renames and opens
may fail at any time. The sink carries the history of all messages it received.

**Time.** `IsoWeek` compares the ISO week code with a calendar that is defined day by day;
`DurationCast` is the checked duration conversion over arbitrary integer types; `YearText` is the
text of years and of their pieces, over `Decimal`.

**Parsers.** `Tokenizer` and `OptionParser` are the two `parse` functions of the command-line
library; the arguments are decoded into events that do not depend on the parser's state, and
`OptionForms` says which command lines mean the same and what a successful parse means, and
`CommandIntents` what parsing does with anything a user can say on one.
`PatternCompiler` compiles log patterns; `Padding` is the padder around each flag.

**Messages.** `ImageRequest` is the generated request message, whose submessage stays allocated
after it has been cleared.

Where the code and what is said about it differ, the model follows the code:

- A ring of capacity 2^64 - 1 is born disabled, because its slot count wraps to 0
  (`CircularQueue.NewRingStoresIffUsable`).
- A thread pool with a queue of capacity 0 can never be destroyed (`Shutdown.NoRoomNeverEnds`).
- Spurious wakeups can prolong a shutdown without limit; each costs at most two steps
  (`Shutdown.ShutdownEnds`).
- After a rotation that could not reopen file 0, messages are lost without an error as long as the
  size counter, which counts them, stays within the limit. The counter can be wrong from the start:
  it keeps the size of a file 0 that may be gone or empty
  (`RotatingFileSink.RotatingSink.SinkIt`, `RotatingFileSink.CounterCanOutliveFile0`).
- ISO weeks are wrong for the dates before the year 0 that lie in week 53 of a long year, and only
  for those (`IsoWeek.IsoWeekIsThursdays`, `IsoWeek.UnseenWeekExists`).
- A joined long option or a cluster of two or more letters can be split only where the parser looks
  at it as an option; used as the value of the option before it, it cannot
  (`OptionForms.LongNormalForm`, `OptionForms.ClusterNormalForm`, `OptionForms.JoinedFormAsValue`).
- The width in a pattern is computed modulo 2^64 before it is limited to 64, so a long enough
  numeral can give any width up to 64 (`PatternCompiler.PatternFormatter.ReadWidth`).
- A truncating formatter that declares more characters than it writes cuts into earlier output
  (`Padding.EarlierContentKept`).
- `release_imageshape` can hand over an object although no shape is set; it is then all default
  (`ImageRequest.ImageRequestMsg.ReleaseImageshape`).

## Model

| member | source | states |
|---|---|---|
| `BlockingQueue.NoLostWakeups` | 3rd/spdlog/spdlog/details/mpmc_blocking_q.h:31-90 | in every run of any number of threads, with spurious wakeups and timeouts: while a producer sleeps, the free slots are at most the pop notifications still to come plus the producers woken but not rechecked; symmetrically for consumers and items |
| `BlockingQueue.StepKeepsWakeups` | 3rd/spdlog/spdlog/details/mpmc_blocking_q.h:31-90 | each single step of each operation keeps that |
| `BlockingQueue.NeverBothStuck` | 3rd/spdlog/spdlog/details/mpmc_blocking_q.h:31-90 | with room for one item, a producer and a consumer are never both asleep without some thread that still has to notify or to recheck |
| `BlockingQueue.FifoRefinement` | 3rd/spdlog/spdlog/details/mpmc_blocking_q.h:31-90 | items taken, followed by the queue, are the accepted pushes in order without exactly the overrun ones, whatever mix of policies, timeouts and counter resets the run contains |
| `BlockingQueue.Conservation` | 3rd/spdlog/spdlog/details/mpmc_blocking_q.h:41-64 | completed attempts are exactly those taken, queued, overrun, discarded, or rejected and not yet counted; without resets both counters are the true numbers modulo 2^64 |
| `BlockingQueue.BlockingLosesNothing` | 3rd/spdlog/spdlog/details/mpmc_blocking_q.h:31-38 | if every producer waits for room, taken items followed by the queue are all the pushes and both loss counters stay 0 |
| `BlockingQueue.RejectedCount` | 3rd/spdlog/spdlog/details/mpmc_blocking_q.h:49-64 | a producer counts as rejected from the moment it unlocks until it increments the counter |
| `BlockingQueue.PostedInOrder` | 3rd/spdlog/spdlog/details/mpmc_blocking_q.h:31-64 | in every run, what a thread has called the enqueue operations with is, in the order of its calls, what it has pushed or seen rejected, followed by at most one item still pending |
| `BlockingQueue.StepKeepsPending` | 3rd/spdlog/spdlog/details/mpmc_blocking_q.h:31-64 | a call makes its item pending, a push or rejection settles it, and no other step, of any thread, touches it |
| `BlockingQueue.ThreadsStandForCalls` | 3rd/spdlog/spdlog/details/mpmc_blocking_q.h:31-90 | in every run a thread stands only where the operation it called last leads: only the blocking enqueue sleeps for room, only the one that needs room is rejected, only the timed dequeue times out |
| `BlockingQueue.PolicyDecides` | 3rd/spdlog/spdlog/details/mpmc_blocking_q.h:31-90 | an item overruns another only under the overrun policy and is rejected only under the discard policy, each only if there is no room; a sleeper has found the queue full or empty; what is taken is the oldest item |
| `BlockingQueue.OnlyTimedWaitsEnd` | 3rd/spdlog/spdlog/details/mpmc_blocking_q.h:66-90 | a consumer waiting with a timeout can always leave; one without never leaves empty-handed |
| `MpmcQueue.MpmcBlockingQueue.constructor` | 3rd/spdlog/spdlog/details/mpmc_blocking_q.h:26-27 | the code starts in an initial state of the step system |
| `MpmcQueue.MpmcBlockingQueue.EnqueueSection` | 3rd/spdlog/spdlog/details/mpmc_blocking_q.h:33-35 | one locked section of the blocking enqueue is one step: a push if there is room, otherwise to sleep |
| `MpmcQueue.MpmcBlockingQueue.EnqueueNowaitSection` | 3rd/spdlog/spdlog/details/mpmc_blocking_q.h:43-44 | the locked section always pushes, and evicts the oldest item when the queue is full |
| `MpmcQueue.MpmcBlockingQueue.EnqueueIfHaveRoomSection` | 3rd/spdlog/spdlog/details/mpmc_blocking_q.h:51-57 | the locked section pushes if there is room and otherwise rejects, leaving the queue alone |
| `MpmcQueue.MpmcBlockingQueue.DequeueSection` | 3rd/spdlog/spdlog/details/mpmc_blocking_q.h:70-86 | one locked section of both dequeues is one step: take the oldest item, sleep, or give up after a timeout |
| `MpmcQueue.MpmcBlockingQueue.CountDiscarded` | 3rd/spdlog/spdlog/details/mpmc_blocking_q.h:61-63 | the increment outside the lock is one step of its own |
| `CircularQueue.PushOnlyRunKeepsNewest` | 3rd/spdlog/spdlog/details/circular_q.h:46-57 | after pushing n items into a new ring of capacity N it holds the last min(n, N) of them in order and has counted max(0, n - N) overruns modulo 2^64 |
| `CircularQueue.PushAllConcat` | 3rd/spdlog/spdlog/details/circular_q.h:46-57 | splitting a push-only run anywhere makes no difference |
| `CircularQueue.NewRingStoresIffUsable` | 3rd/spdlog/spdlog/details/circular_q.h:28-31 | a new ring stores what is pushed exactly if its capacity is neither 0 nor the largest size_t, for which the slot count wraps and the ring is born disabled |
| `CircularQueue.WindowPush` | 3rd/spdlog/spdlog/details/circular_q.h:48-55 | writing at the tail of the circular buffer appends to the sequence it stands for |
| `CircularQueue.WindowOverrun` | 3rd/spdlog/spdlog/details/circular_q.h:51-55 | where the tail meets the head, stepping the head drops the oldest item and only that |
| `CircularQueue.WindowPop` | 3rd/spdlog/spdlog/details/circular_q.h:83 | advancing the head of a nonempty buffer drops the oldest item of the sequence |
| `CircularQueue.CircularQ.constructor` | 3rd/spdlog/spdlog/details/circular_q.h:28-31 | a new ring is empty, with one slot more than its capacity in size_t arithmetic |
| `CircularQueue.CircularQ.PushBack` | 3rd/spdlog/spdlog/details/circular_q.h:46-57 | the sequence is extended, the oldest item leaves and is counted if the ring was full, and a disabled ring ignores the push |
| `CircularQueue.CircularQ.PopFront` | 3rd/spdlog/spdlog/details/circular_q.h:83 | the oldest item leaves and nothing else changes |
| `CircularQueue.CircularQ.At` | 3rd/spdlog/spdlog/details/circular_q.h:76-79 | the i-th oldest item, wherever it lies in the buffer |
| `CircularQueue.CircularQ.Size` | 3rd/spdlog/spdlog/details/circular_q.h:66-72 | the number of items, also when they go round the end |
| `CircularQueue.CircularQ.QueriesAreExact` | 3rd/spdlog/spdlog/details/circular_q.h:85-93 | the index tests for empty and full hold exactly for the empty and the full sequence; a disabled ring is never full |
| `CircularQueue.CircularQ.CopyMoveable` | 3rd/spdlog/spdlog/details/circular_q.h:101-112 | moving hands over the whole meaning of the other ring and leaves it disabled and valid |
| `CircularQueue.RingbufferSink.SinkIt` | 3rd/spdlog/spdlog/sinks/ringbuffer_sink.h:53-55 | a message sent to the sink is pushed |
| `CircularQueue.RingbufferSink.LastRaw` | 3rd/spdlog/spdlog/sinks/ringbuffer_sink.h:26-36 | the newest min(lim, size) messages in order, or all for a limit of 0 |
| `ThreadPool.RunsKeepInv` | 3rd/spdlog/spdlog/details/thread_pool-inl.h:16-129 | in every run: threads stand where the code allows, the queue is the tail of the pushes, no wakeup is lost, terminate messages balance live workers, and every message is queued, held by one worker, handled once, overrun, or a terminate message |
| `ThreadPool.StepKeepsInv` | 3rd/spdlog/spdlog/details/thread_pool-inl.h:84-129 | each step keeps all of that |
| `ThreadPool.StepKeepsBalance` | 3rd/spdlog/spdlog/details/thread_pool-inl.h:45-50 | no step upsets: workers yet to take a terminate message = terminates unposted + terminates queued, and nothing is pushed after the first terminate message |
| `ThreadPool.StepKeepsHolders` | 3rd/spdlog/spdlog/details/thread_pool-inl.h:104-129 | no two workers hold the same message, and none holds one that is handled or overrun |
| `ThreadPool.QueueRunIsRun` | 3rd/spdlog/spdlog/details/thread_pool-inl.h:84-106 | the queue steps of a run of the pool are a run of the queue, with the same pushes |
| `ThreadPool.EveryPolicyMayPost` | 3rd/spdlog/spdlog/details/thread_pool-inl.h:84-94 | until the destructor starts every idle poster may post any message under each of the three policies |
| `Shutdown.LiveWorkersBalance` | 3rd/spdlog/spdlog/details/thread_pool-inl.h:45-56 | live workers = terminates unposted + terminates queued, at every step of every run |
| `Shutdown.ShutdownDrains` | 3rd/spdlog/spdlog/details/thread_pool-inl.h:45-56 | after the last join the queue is empty and every log or flush message ever pushed was handled exactly once, except exactly those overrun |
| `Shutdown.NothingLostAfterStop` | 3rd/spdlog/spdlog/details/thread_pool-inl.h:45-50 | once the destructor has started nothing is overrun |
| `Shutdown.ShutdownNeverStuck` | 3rd/spdlog/spdlog/details/thread_pool-inl.h:45-56 | with room for one message, some step other than a spurious wakeup is enabled until the last worker is joined |
| `Shutdown.StepDoesWork` | 3rd/spdlog/spdlog/details/thread_pool-inl.h:45-129 | every step after the start of the destructor uses up at least one unit of work, except that a spurious wakeup costs one |
| `Shutdown.ShutdownEnds` | 3rd/spdlog/spdlog/details/thread_pool-inl.h:45-56 | so a run of the destructor is at most as long as the work at its start plus two steps per spurious wakeup |
| `Shutdown.NoRoomNeverEnds` | 3rd/spdlog/spdlog/details/thread_pool-inl.h:45-50 | with capacity 0 no run ever completes the destructor |
| `AsyncLogging.AsyncLogger.BackendSinkIt` | 3rd/spdlog/spdlog/async_logger-inl.h:62-73 | a log message is handed to the sinks that accept its level and then, if its level asks for it, all sinks are flushed; the order is that of `AsyncLogging.EffectsInOrder` |
| `AsyncLogging.AsyncLogger.BackendFlush` | 3rd/spdlog/spdlog/async_logger-inl.h:75-80 | every sink is flushed, in order |
| `AsyncLogging.AsyncLogger.ProcessMsg` | 3rd/spdlog/spdlog/details/thread_pool-inl.h:108-126 | the effects of the message are appended, in the order of `AsyncLogging.EffectsInOrder`; only a terminate message stops the worker |
| `AsyncLogging.SinkSeesAccepted` | 3rd/spdlog/spdlog/async_logger-inl.h:62-73 | over any sequence of messages a sink sees exactly those its level accepts, in that order |
| `AsyncLogging.FlushedByLevel` | 3rd/spdlog/spdlog/logger-inl.h:166-169 | processing a message flushes a sink exactly if it is a flush request, or a log message at or above the flush level and not off |
| `AsyncLogging.EffectsInOrder` | 3rd/spdlog/spdlog/async_logger-inl.h:62-80 | among the effects of one message, by position: sinks are given it in their order, all of them before any is flushed, they are flushed in their order, and a promise is set last |
| `AsyncLogging.PromisesSetOnce` | 3rd/spdlog/spdlog/details/thread_pool-inl.h:113-117 | every promise is set exactly as often as flush messages carry it |
| `AsyncLogging.PromiseAfterLogs` | 3rd/spdlog/spdlog/details/thread_pool-inl.h:113-117 | when a promise is set, every message before its flush has been handed to the sinks |
| `AsyncLogging.RunsInTurn` | 3rd/spdlog/spdlog/details/thread_pool-inl.h:96-129 | one worker and blocking posters: messages are processed in the order of their pushes |
| `AsyncLogging.PushesArePosts` | 3rd/spdlog/spdlog/details/thread_pool-inl.h:84-94 | with blocking posters, what each thread has posted is, in the order of its calls, its part of the pushes, followed by at most one message it is still posting |
| `AsyncLogging.SingleWorkerDelivers` | 3rd/spdlog/spdlog/async_logger-inl.h:34-80 | hence between any two messages each sink has seen exactly the accepted messages among the first pushes, in push order, and the promises of those are set |
| `AsyncLogging.SingleWorkerFlushes` | 3rd/spdlog/spdlog/details/thread_pool-inl.h:65-72 | and whenever a promise is set, it is the one of a posted flush, and each sink has by then seen exactly the messages it accepts among those posted before that flush |
| `AsyncLogging.ShutdownDelivers` | 3rd/spdlog/spdlog/details/thread_pool-inl.h:45-56 | and once the pool is destroyed, those of all messages ever pushed |
| `FileNames.SplitIsExact` | 3rd/spdlog/spdlog/details/file_helper-inl.h:131-149 | the two pieces concatenate to the name, and the second is the extension exactly if the name has one |
| `FileNames.CalcFilenameInjective` | 3rd/spdlog/spdlog/sinks/rotating_file_sink-inl.h:55-64 | different indices name different files, for every base name |
| `FileNames.IndexBeforeExtension` | 3rd/spdlog/spdlog/sinks/rotating_file_sink-inl.h:55-64 | index 0 is the name itself; any other index stands, as a numeral without leading zeros, before the extension if the name has one and at the end otherwise |
| `Rotation.RotationKeepsHistory` | 3rd/spdlog/spdlog/sinks/rotating_file_sink-inl.h:103-131 | if the renames succeed, the files from highest index to 0 hold a suffix of what they held before, with any gaps in the family and with only one file |
| `Rotation.InterruptedRotationKeepsOrder` | 3rd/spdlog/spdlog/sinks/rotating_file_sink-inl.h:115-128 | stopped at any failed rename, with or without emptying file 0, the files hold an in-order subsequence of what they held |
| `Rotation.RenameExtendsShift` | 3rd/spdlog/spdlog/sinks/rotating_file_sink-inl.h:108-129 | one more rename extends the shifted part of the family by one file and touches no other file of it |
| `Rotation.ShiftKeepsHistory` | 3rd/spdlog/spdlog/sinks/rotating_file_sink-inl.h:108-129 | the renames lose at most the oldest file, and only if a file takes its place |
| `RotatingFileSink.RemovalKeepsOrder` | 3rd/spdlog/spdlog/sinks/rotating_file_sink-inl.h:136-140 | deleting the target of a rename that then fails loses nothing but possibly the oldest file |
| `RotatingFileSink.RotatingSink.Create` | 3rd/spdlog/spdlog/sinks/rotating_file_sink-inl.h:27-50 | the constructor rejects a zero size and too many files; it keeps the existing log, or rotates it once if asked to and there is something in file 0; file 0 counts as started by the sink unless it is continued; in a family without files the sink owns all of them |
| `RotatingFileSink.RotatingSink.RenameFile` | 3rd/spdlog/spdlog/sinks/rotating_file_sink-inl.h:136-141 | the source takes the name of the target, or nothing changes except that the target may be gone |
| `RotatingFileSink.RotatingSink.ShiftFile` | 3rd/spdlog/spdlog/sinks/rotating_file_sink-inl.h:109-128 | one turn of the loop renames the file below, with a second attempt, or does nothing if it does not exist |
| `RotatingFileSink.RotatingSink.ShiftFiles` | 3rd/spdlog/spdlog/sinks/rotating_file_sink-inl.h:108-129 | the loop shifts the whole family, or stops at a target whose rename failed twice with everything above it shifted and everything below untouched |
| `RotatingFileSink.RotatingSink.Rotate` | 3rd/spdlog/spdlog/sinks/rotating_file_sink-inl.h:103-131 | every file moves up by one, with it whether the sink has started it, and file 0 is new and empty; or the renames stop at some file, with file 0 emptied and the counter 0 if it could be opened, and the handle closed and the counter left alone if not; files outside the family are untouched |
| `RotatingFileSink.RotatingSink.Reopen` | 3rd/spdlog/spdlog/sinks/rotating_file_sink-inl.h:120-130 | whether or not file 0 could be emptied and opened, what is left is an interrupted or a complete rotation, in order and within the limit |
| `RotatingFileSink.RotatingSink.GiveUp` | 3rd/spdlog/spdlog/sinks/rotating_file_sink-inl.h:120-126 | after a rename has failed twice, file 0 is emptied and the counter 0, or the handle is closed and the counter as before |
| `RotatingFileSink.RotatingSink.MakeRoom` | 3rd/spdlog/spdlog/sinks/rotating_file_sink-inl.h:81-87 | with a closed handle it throws and changes nothing; an empty file stays; otherwise it rotates |
| `RotatingFileSink.CounterCanOutliveFile0` | 3rd/spdlog/spdlog/sinks/rotating_file_sink-inl.h:107-130 | files for which all renames succeed and file 0 is gone while it had a size: the counter of a closed handle is then wrong |
| `RotatingFileSink.StoppedKeepsStarted` | 3rd/spdlog/spdlog/sinks/rotating_file_sink-inl.h:108-130 | a sink that has started every file of its family still has after a rotation stopped anywhere |
| `RotatingFileSink.RotatingSink.SinkIt` | 3rd/spdlog/spdlog/sinks/rotating_file_sink-inl.h:73-90 | the message is appended, after a rotation exactly if it would exceed the limit of a nonempty file; current_size_ is the real size of file 0 on every return with an open handle, and on a throw exactly if the handle is open or file 0 is as before; with a closed handle nothing is written and the counter still grows by each message it accepts; which files the sink has started is determined by the moves of the rotation, and each of them is within the limit or holds one oversized message, which is every file if the family was empty at the start; the log on disk is an in-order subsequence of everything received, and a suffix of it as long as nothing failed |
| `RotatingFileSink.RotatingSink.Write` | 3rd/spdlog/spdlog/details/file_helper-inl.h:100-107 | the message is added whole at the end of file 0, or silently lost if the file is closed; the limit is kept if there was room |
| `IsoWeek.IsoWeekIsThursdays` | 3rd/spdlog/spdlog/fmt/bundled/chrono.h:1225-1252 | for every consistent date of every integer year the computed week-year and week are those of the Thursday of its Monday-to-Sunday week (section 3.2.2 of ISO 8601:2004), except for exactly one family of dates, all before the year 0 |
| `IsoWeek.WeeksFromYearOne` | 3rd/spdlog/spdlog/fmt/bundled/chrono.h:1225-1234 | from the year 1 on a year counts 53 weeks exactly if it begins or ends on a Thursday |
| `IsoWeek.WeekInRange` | 3rd/spdlog/spdlog/fmt/bundled/chrono.h:1239-1252 | the week is in 1 .. iso_year_weeks(week-year), for any input at all |
| `IsoWeek.UnseenWeekExists` | 3rd/spdlog/spdlog/fmt/bundled/chrono.h:1225-1234 | 1 January of the year -1 lies in week 53 of the year -2, but the code says 52 |
| `DurationCast.ConversionIsExact` | 3rd/spdlog/spdlog/fmt/bundled/chrono.h:71-142 | between any two integer types the conversion succeeds exactly for the values of the target type, unchanged |
| `DurationCast.IntermediateLaw` | 3rd/spdlog/spdlog/fmt/bundled/chrono.h:210-212 | the intermediate type is the widest of the two types and intmax_t, and unsigned exactly if an unsigned one of them is as wide |
| `DurationCast.LimitsOf64Bits` | 3rd/spdlog/spdlog/fmt/bundled/chrono.h:76-79 | the limits of the 64-bit types |
| `DurationCast.SafeDurationCast` | 3rd/spdlog/spdlog/fmt/bundled/chrono.h:191-238 | ec is 0 exactly if the count, the product and the truncated quotient each fit their types, and then that quotient is returned; no product that does not fit is computed |
| `YearText.YearReadsBack` | 3rd/spdlog/spdlog/fmt/bundled/chrono.h:1274-1294 | a year is written in at least four characters, which read back as that year |
| `YearText.YearIsShort` | 3rd/spdlog/spdlog/fmt/bundled/chrono.h:1214-1217 | more than four characters are written only if necessary: the first digit is then not a zero |
| `YearText.PiecesAgree` | 3rd/spdlog/spdlog/fmt/bundled/chrono.h:1477-1489 | what %C writes in each of its three cases, followed by the two digits %y writes, is the text of %Y, for every integer year |
| `YearText.TmWriter.OnYear` | 3rd/spdlog/spdlog/fmt/bundled/chrono.h:1287-1294 | %Y writes the year, on the short path and on the long one |
| `YearText.TmWriter.OnCentury` | 3rd/spdlog/spdlog/fmt/bundled/chrono.h:1477-1489 | %C writes the year without its last two characters, for every integer year |
| `YearText.TmWriter.OnShortYear` | 3rd/spdlog/spdlog/fmt/bundled/chrono.h:1467-1469 | %y writes the last two characters of the year, for every integer year |
| `YearText.TmWriter.WriteInPieces` | 3rd/spdlog/spdlog/fmt/bundled/chrono.h:1214-1217 | writing %C and then %y writes the year |
| `YearText.CenturyCases` | 3rd/spdlog/spdlog/fmt/bundled/chrono.h:1477-1489 | each of the three cases of %C is the year without its last two characters |
| `YearText.TmWriter.WriteYearExtended` | 3rd/spdlog/spdlog/fmt/bundled/chrono.h:1274-1286 | sign, zeros and digits make up the year in at least four characters |
| `YearText.TmWriter.FormatDecimal` | 3rd/spdlog/spdlog/fmt/bundled/format.h:1308-1328 | two digits at a time give the decimal numeral |
| `Tokenizer.Tokenize` | 3rd/cmdline/cmdline.h:383-417 | the loop accepts and splits as the character-by-character scanner does, with its two errors |
| `Tokenizer.TokenizerRoundTrip` | 3rd/cmdline/cmdline.h:386-417 | escaping every argument and ending it with a space is undone by the tokenizer, empty arguments included |
| `Tokenizer.WellFormedLines` | 3rd/cmdline/cmdline.h:386-417 | arguments written with any mixture of quotes and backslashes are split into what they stand for, the last one with or without a space behind it; a last one that stands for nothing is no argument |
| `Tokenizer.ErrorsExact` | 3rd/cmdline/cmdline.h:400-414 | a line is rejected exactly if it ends with an odd number of backslashes, or else has an odd number of quotes that are not escaped |
| `OptionParser.Parser.SetOptionValue` | 3rd/cmdline/cmdline.h:621-630 | sets the option to what its reader makes of the value, or reports an undefined option or an invalid value |
| `OptionParser.Parser.SetOptionFlag` | 3rd/cmdline/cmdline.h:610-619 | sets an option without a value, or reports why it cannot |
| `OptionParser.Parser.BuildLookup` | 3rd/cmdline/cmdline.h:446-459 | the table of short names, or the first name used twice |
| `OptionParser.Parser.ParseArgument` | 3rd/cmdline/cmdline.h:462-525 | one turn of the loop does what the events decoded from that argument say, and consumes as many arguments |
| `OptionParser.Parser.ParseShort` | 3rd/cmdline/cmdline.h:491-521 | a cluster does what its letters say in order, the last one with the next argument if it takes a value |
| `OptionParser.Parser.Parse` | 3rd/cmdline/cmdline.h:435-534 | errors, rest and options are those of the events decoded from the arguments independently of the parser state, plus the missing required options; what that means for a command line is `CommandIntents.CommandLineRoundTrip` |
| `OptionForms.LongNormalForm` | 3rd/cmdline/cmdline.h:462-484 | replacing `--name=value` by `--name` `value` changes no event exactly if the parser looks at it as an option, and then leaves errors, rest and every option as they are, for any arguments before and after |
| `OptionForms.ClusterNormalForm` | 3rd/cmdline/cmdline.h:490-521 | the same for splitting a cluster without a dash among its letters and without a value option before its last |
| `OptionForms.TailDecides` | 3rd/cmdline/cmdline.h:461-526 | two different tails decode alike after the same arguments exactly if they decode alike alone and are reached as options |
| `OptionForms.JoinedFormAsValue` | 3rd/cmdline/cmdline.h:475-484 | a joined option that is the value of the option before it may not be split: a concrete command line after which one more argument is left over |
| `OptionForms.JoinedFormEvents` | 3rd/cmdline/cmdline.h:475-484 | what the two forms of that command line say |
| `OptionForms.SuccessfulParse` | 3rd/cmdline/cmdline.h:528-533 | no error is reported exactly if every event is fine and every required option ends up set; then each value option holds what its reader makes of its last occurrence, or what it held before, and each flag is set if it was or occurs |
| `CommandIntents.CommandLineRoundTrip` | 3rd/cmdline/cmdline.h:435-534 | saying any list of settings on a command line (long and short flags, values in all three forms, plain arguments, a lone dash, and every kind of mistake) and parsing it does exactly that: flags are set, each value option holds what its reader makes of the last value it accepts, plain arguments are handed back in order, and the errors are those of the mistakes in order followed by the required options left unset |
| `CommandIntents.TableMeansNoClash` | 3rd/cmdline/cmdline.h:446-459 | the table of short names is built exactly if no two options share one |
| `CommandIntents.ClashIsReported` | 3rd/cmdline/cmdline.h:452-456 | otherwise the parse only names a short name that two options share |
| `CommandIntents.SettingDecodes` | 3rd/cmdline/cmdline.h:461-526 | the words of one setting, in front of any others, are used up as a whole and mean that setting |
| `OptionForms.ErrorsAreUnfineEvents` | 3rd/cmdline/cmdline.h:610-630 | errors are never removed, and none is added exactly if every event is fine |
| `PatternCompiler.CompileRoundTrip` | 3rd/spdlog/spdlog/pattern_formatter-inl.h:1289-1323 | printing texts and padded flags as a pattern and compiling it gives the same texts and the same (flag, padding) calls |
| `PatternCompiler.FlagIsFormatted` | 3rd/spdlog/spdlog/pattern_formatter-inl.h:997-1239 | in a printed pattern a flag gives, in this order of preference, its custom formatter, a percent sign, the built-in formatter of one of the 45 listed flags with its padding, or itself as written; a `!` taken for truncation before an unknown flag becomes the function name |
| `PatternCompiler.TextIsWritten` | 3rd/spdlog/spdlog/pattern_formatter-inl.h:1311-1322 | in a printed pattern a text gives one formatter that writes it |
| `PatternCompiler.MessagePattern` | 3rd/spdlog/spdlog/pattern_formatter-inl.h:1031-1033 | the pattern %v writes the message |
| `PatternCompiler.UnfinishedFlagDropped` | 3rd/spdlog/spdlog/pattern_formatter-inl.h:1300-1310 | a percent sign and a padding at the end of a pattern, without a flag, add nothing |
| `PatternCompiler.PaddingDenoted` | 3rd/spdlog/spdlog/pattern_formatter-inl.h:1253-1286 | a side mark, digits and perhaps a `!` denote the value of the digits modulo 2^64, at most 64, on the side of the mark, and end there |
| `PatternCompiler.NoPaddingDenoted` | 3rd/spdlog/spdlog/pattern_formatter-inl.h:1248-1269 | without digits there is no padding and a side mark is dropped |
| `PatternCompiler.PadSpecReadsBack` | 3rd/spdlog/spdlog/pattern_formatter-inl.h:1244-1287 | a printed padding of width at most 64, any side, with or without truncation, is read back and consumed exactly |
| `PatternCompiler.PatternFormatter.ReadWidth` | 3rd/spdlog/spdlog/pattern_formatter-inl.h:1271-1275 | the loop consumes the whole run of digits and computes its value modulo 2^64 |
| `PatternCompiler.PatternFormatter.HandlePadspec` | 3rd/spdlog/spdlog/pattern_formatter-inl.h:1244-1287 | reads the longest padding at the position and stops right behind it |
| `PatternCompiler.PatternFormatter.AddFlag` | 3rd/spdlog/spdlog/pattern_formatter-inl.h:1300-1310 | the formatters of the flag behind the padding are added, or none if the pattern ends there |
| `PatternCompiler.PatternFormatter.CompilePattern` | 3rd/spdlog/spdlog/pattern_formatter-inl.h:1289-1323 | for every string the formatters are those of the items the pattern denotes, in order; which those are is `PatternCompiler.FlagIsFormatted` and `PatternCompiler.TextIsWritten` |
| `Padding.DeclaredSizeGivesField` | 3rd/spdlog/spdlog/pattern_formatter-inl.h:38-83 | if the declared size is the text size, the field is appended to the untouched earlier content |
| `Padding.FieldWidth` | 3rd/spdlog/spdlog/pattern_formatter-inl.h:38-83 | a field is exactly the width if the text fits, with blanks on the asked side or centred with the odd blank right; the first width characters if truncating; else the text |
| `Padding.DeclaredSizeDecides` | 3rd/spdlog/spdlog/pattern_formatter-inl.h:40-71 | a formatter that declares another size than it writes gets the blanks or the cut of the declared size |
| `Padding.EarlierContentKept` | 3rd/spdlog/spdlog/pattern_formatter-inl.h:64-71 | when a truncating formatter declares another size, earlier content survives exactly if the text is at least as long as what is cut |
| `Padding.FormatField` | 3rd/spdlog/spdlog/pattern_formatter-inl.h:40-71 | constructor, text and destructor of the padder leave exactly that in the buffer, with never more than 64 spaces asked for |
| `ImageRequest.MergeIsMonoid` | src/camera-service.pb.cc:1289-1313 | merging is associative and the empty message is its identity |
| `ImageRequest.FullRequestWins` | src/camera-service.pb.cc:1298-1310 | merging a request that says everything gives that request |
| `ImageRequest.ImageRequestMsg.MergeFrom` | src/camera-service.pb.cc:1289-1313 | the message becomes the merge of both as (string, optional shape), whether its own shape is absent, leftover or present; field by field, what the other message says and is not zero wins, and the rest stays; the source is unchanged |
| `ImageRequest.LeftoverMustBeDefault` | src/camera-service.pb.cc:1304-1309 | merging into a leftover shape gives the other shape exactly if the leftover is all default |
| `ImageRequest.ImageRequestMsg.Clear` | src/camera-service.pb.cc:1215-1230 | the message is empty, and the leftover shape is kept and all default |
| `ImageRequest.ImageRequestMsg.CopyFrom` | src/camera-service.pb.cc:1315-1320 | afterwards the two values are equal, copying onto itself included, and the copies share no shape object |
| `ImageRequest.ImageRequestMsg.InternalSwap` | src/camera-service.pb.cc:1323-1331 | the two messages exchange their values |
| `ImageRequest.ImageShape.MergeFrom` | src/camera-service.pb.cc:1524-1542 | each nonzero field of the other shape replaces the own one, the rest stays |
| `ImageRequest.ImageRequestMsg.ClearImageshape` | src/camera-service.pb.h:1659-1663 | the shape is absent, the serial number kept |
| `ImageRequest.ImageRequestMsg.GetImageshape` | src/camera-service.pb.h:1654-1672 | a reader sees the shape, or the default one when it is absent, even over a leftover object |
| `ImageRequest.ImageRequestMsg.MutableImageshape` | src/camera-service.pb.h:1714-1727 | the shape is present with the value it had, or all default |
| `ImageRequest.ImageRequestMsg.ReleaseImageshape` | src/camera-service.pb.h:1686-1704 | the shape is absent and its object handed over; without a shape, what is handed over is null or all default |
| `ImageRequest.ImageRequestMsg.SetAllocatedImageshape` | src/camera-service.pb.h:1728-1747 | the shape is the given object, which the message must not own already, or absent for null |

## Left out

- Below the lock sections: fairness of the mutex, real time and memory ordering. A locked section is one atomic step; a wait may wake spuriously and a timeout may come at any time.
- The MinGW variant of the queue, which notifies before unlocking.
- The program text that decides where each thread goes next (leave `wait`, then notify) is the thread's place in the step system; `MpmcQueue` keeps it as the field `threads` beside the source's fields.
- A worker's processing of one message, with all its sinks, is one step of the pool; `AsyncLogging` looks inside it for one logger per pool. The front end of the logger (its level filter, backtrace, and the caller that waits on the future of a flush) and exceptions thrown by sinks are not modelled.
- AsyncLogging.SingleWorkerDelivers: says what the sinks have seen between two messages, because processing a message is one step of the pool.
- Nobody posts to a pool or resets its counters once its destructor has started: posters hold a shared pointer to the pool. The callbacks at the start and stop of a worker are left out.
- `Shutdown.ShutdownNeverStuck` needs capacity 1 or more; with capacity 0 it is false (`Shutdown.NoRoomNeverEnds`).
- File sizes, the sink's size counter and message sizes are unbounded integers; writes to an open file and flushes succeed. File event handlers, creating directories, the retry loop of opening (one nondeterministic attempt) and the delay between two renames are left out. Names are split at `/` only, not at the separators of Windows.
- Two sinks on one file, other processes touching the files, and the daily and hourly sinks.
- A file with content the sink did not write is a sequence of blocks of any shape; bytes inside a block are not looked at.
- Years, days and counts in `IsoWeek` are unbounded integers; the source's `int` and `long long` hold all consistent dates it can be given.
- Floating-point durations, fractional seconds, locale-dependent formats, and the other specifiers of the time formatter.
- The tokens printed by the string form of `parse`, the help and usage texts, `parse_check`, the programmatic definition of options, and characters NUL inside arguments. The order of the option map is given as a sequence of names, and an option object is a value in the map, so pointers to options are not captured.
- The text each pattern flag produces, and the bookkeeping whether local time is needed. A padder that would cut more than the whole buffer is excluded by a precondition of `Padding.FormatField`: the source then asks for a negative size.
- Unknown fields, arenas, wire serialization, and pointers kept after `mutable_imageshape` and written through later.
- The camera, gRPC, configuration and utility code of the service, and the console, network and database sinks: input and output, or plumbing.
