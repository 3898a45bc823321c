# Verified models of the storage engine and its libraries

The modules model the parts of the repository with the most state, branching
or arithmetic, and prove what these parts are for.

- **Storage engine** (`EngineState`, `EngineInvariant`, `EngineRuns`,
  `EngineReads`, `EngineDisk`, `EngineRace`, `Memfile`, `BatchCommitter`,
  `Service`, `Updates`).
  `EngineState` is a transition system whose steps are the critical sections,
  disk operations and swaps of the commit thread, the redo preallocation, the
  dump callback with its retries, and any number of gc calls. `EngineRace` has
  the objects and methods of the C++ code and shows that each method is a
  sequence of such steps. The main results are over all runs: the engine is a
  plain map, reads are current, acknowledged batches are durable.
  `BatchCommitter` is such a system for the committer and its clients, and
  `Service` puts both together: what a client is told done is in the map and
  durable. `EngineDisk` says what the files alone show.
- **Number formatting** (`Decimal`, `CountDigits`, `DecimalFormatter`,
  `FormatInt`, `ParseInt`, and for doubles `FloatingPoint`, `RealPowers`,
  `Doubles`, `CachedPowers`, `GrisuDigits`, `Grisu`): the bundled fmt library.
  The main result is that the Grisu2 pipeline, which is complete in the
  repository but switched off by default, turns every positive finite double
  into digits that read back as that double, and into the shortest ones but for
  a margin of 1/256 of the rounding interval.
- **Histogram** (`BucketMapper`, `Percentiles`, `Histogram`).
- **spdlog** (`CircularQueue`, `ThreadPool`, `RotatingFileSink`).
- **Random numbers** (`Modular`, `LehmerPowers`, `Lehmer`), with the full
  period of the generator.
- `Arithmetic` has the word sizes and a few facts on products and quotients.

Numbers are unbounded integers; where the width of a machine word matters the
wrap-around is written out (`Histogram`), or it is proved that nothing exceeds
the word (the formatting modules and `Lehmer`). Files, clocks and schedulers
are parameters or nondeterministic steps.

Where the code differs from its own comments or from what one might expect, the
model follows the code:

- `get_cached_power` promises an exponent at most 3 above the wanted one; the
  table gives up to 26, which the digit generation still allows.
  `AtMostThreeAboveIff` says when the promise is kept.
- `compute_boundaries` puts the lower boundary of the smallest normal double too
  high, a quarter instead of half a unit below. That is the one exception, and
  the result stays correct since the interval only gets smaller.
- `grisu2_gen_digits` has no exit in its second loop when delta is zero.
- `wait_for_room_` returns true after a switch without asking again whether the
  batch fits; it does if and only if the batch is at most 2 MiB.
- A redo log does not tell a failed append from a successful one, so replaying
  the files may bring back a write that was refused. `DiskShowsPromised` says
  when it does not.
- `GoodSeed` can return 2^31 - 1, the fixed point its own comment excludes.
- The destructor of a thread pool whose queue has no room never returns.
- After a failed renaming the rotating sink has emptied its base file and no
  longer knows its size until the next rotation succeeds.

## Model

| member | source | states |
|---|---|---|
| EngineRuns.RunRefinesMap | engine/engine_race/engine_race.cpp:73-138 | In every state of every run, tables, queue and active memfile laid over each other are the plain map that folds all acknowledged batches in commit order; the step from logged to idle applies exactly the batch in hand, and every other step, of whatever thread, leaves the map as it is |
| EngineRuns.ViewIsMeaning | engine/engine_race/engine_race.cpp:193-203 | The same for one state that satisfies the invariant, also while a memfile is both a published table and still at the front of the queue |
| EngineReads.ReadsAreCurrent | engine/engine_race/snapshot.cpp:12-29 | With the memfiles captured in one state, the tables in a later one and each look at a memfile at any time after that, a value found was the key's value in the plain map at an instant between the capture and the look that found it; a miss without captured tables means that the key was absent at the capture |
| EngineReads.ReadFindsFirst | engine/engine_race/snapshot.cpp:12-29 | Under any interleaving a read finds the key if and only if some captured memfile has it when it is looked at, with the value of the first that has; it is NotFound if and only if none has it and no table was captured, and otherwise ends in the tables |
| EngineReads.ReadYourWrites | engine/engine_race/snapshot.cpp:12-19 | A key that a captured memfile has at the capture is always found, whatever tables there are and whatever happens meanwhile, with a value that was current at the capture or later |
| EngineReads.SnapshotCoversCommits | engine/engine_race/engine_race.cpp:260-279 | Each batch acknowledged before the memfiles are captured is one of the batches of its memfile, then and in every later history, and either that memfile is captured and holds exactly the batches acknowledged so far, or a captured table holds exactly the batches of that memfile |
| EngineReads.ActiveValueWasCurrent | engine/engine_race/engine_race.cpp:266-274 | A value found in the captured active memfile, which goes on growing and may be retired, was the current one at some instant since the capture |
| EngineReads.RunGrows | engine/engine_race/engine_race.cpp:193-203 | Along a run history, memfiles and tables only join at the end, a memfile that is not active never changes, and no memfile loses a key |
| EngineRuns.AcknowledgedBatchesAreDurable | engine/engine_race/engine_race.cpp:73-90 | In every state of every run each acknowledged batch is in a table on disk that the metadata lists, if its memfile is at or below the checkpoint, and in a redo log that still exists, if it is at or above it |
| EngineRuns.GcOnlyDropsCheckpointedLogs | engine/engine_race/engine_race.cpp:222-258 | No removal of a gc call, whatever the age of its bound and whatever happened since it chose its files, hits the log in use or the preallocated one; the acknowledged batches of a removed log are all in listed tables |
| EngineDisk.DiskShowsPromised | engine/engine_race/redo_log.cpp:53-67 | Listed tables and all records of the logs above the checkpoint, which is all that the files tell, give the acknowledged map (with the batch about to be acknowledged) if and only if every record that a failed append or an earlier process left, and that no later record covers, repeats the value beneath it |
| EngineDisk.CleanDiskShowsPromised | engine/engine_race/redo_log.cpp:53-67 | In particular they do whenever no failed append left a record above the checkpoint and no other process left a log there |
| EngineDisk.FailedAppendShows | engine/engine_race/redo_log.cpp:53-67 | For each update short enough a run ends with a failed append whose record the files show although the map is empty |
| EngineDisk.RecordsHideFailures | engine/engine_race/redo_log.cpp:53-67 | Two runs can end with the same metadata, tables and records in every log, one having acknowledged the update and the other not: nothing on disk tells a failed append that wrote everything from a successful one |
| EngineRuns.QueueAndDump | engine/engine_race/engine_race.cpp:141-219 | At most 32 immutable memfiles; at most one dump in flight, from its submission to the end of its callback, and one if and only if the queue is not empty, namely that of the front; checkpoints are the oldest memfiles in order and without repetition, and every memfile that left the queue is among them |
| EngineRuns.RunHasOneDump | engine/engine_race/engine_race.cpp:141-219 | The same in every state of every run, although the step that submits a dump never asks whether one is in flight |
| EngineRuns.TableListsAgree | engine/engine_race/db_file_manager.cpp:31-48 | Table ids increase and were all handed out; metadata and file manager list the same tables except between a checkpoint and its publication, when the metadata has one more |
| EngineRuns.RedoIdsGrow | engine/engine_race/redo_alloctor.cpp:11-37 | Through all failures of the one-ahead preallocation a new active memfile has an id above every memfile that was ever active and below the counter, which never goes back |
| EngineInvariant.CheckpointMovesForward | engine/engine_race/db_meta.cpp:50-64 | Both asserts of checkpoint hold for every dump whose callback reaches them, also on a retry |
| EngineInvariant.DumpedIsNotActive | engine/engine_race/engine_race.cpp:164-183 | No memfile that a dump in flight reads is the one that writes go to |
| EngineInvariant.StepKeepsInv | engine/engine_race/engine_race.cpp:73-258 | Every step of the commit thread, the preallocation task, the dump callback and its retries, and gc keeps the invariant that all results on runs rest on |
| EngineRuns.RunKeepsInv | engine/engine_race/engine_race.cpp:27-37 | The invariant holds in every state of every run of a freshly opened engine |
| EngineRuns.RoomedBatchFits | engine/engine_race/engine_race.cpp:141-161 | After wait_for_room_ returned true the batch fits if and only if it is at most 2 MiB long: the new memfile is not checked again |
| EngineRuns.LoggedBatchCanBeAdded | engine/engine_race/engine_race.cpp:79-83 | A logged batch of at most 2 MiB can always be added to the active memfile |
| EngineRuns.LongValueCannotBeAdded | engine/engine_race/engine_race.cpp:141-161 | For every value over 2 MiB a run ends with its batch logged and no room for it in the active memfile, although that is empty |
| EngineRace.EngineRace.constructor | engine/engine_race/engine_race.cpp:27-37 | Opening gives the initial state of the transition system with the first redo log created |
| EngineRace.EngineRace.Write | engine/engine_race/engine_race.cpp:73-90 | The whole write is a sequence of allowed steps that ends idle, waiting for a dump, or with a logged batch that outgrows an empty memfile, the last step being the one its result stands for; it waits exactly if there is no space and 32 memfiles are queued, gets as far as the memfile exactly if there is space or a switch is possible and works and the log takes the batch, and the plain map has the batch applied if and only if it succeeded |
| EngineRace.EngineRace.ResumeWrite | engine/engine_race/engine_race.cpp:146-161 | A write that waits for a dump gives up exactly on a timeout, waits on exactly while 32 memfiles are queued, and otherwise ends like any write, the last step being the one its result stands for |
| EngineRace.EngineRace.AddBatch | engine/engine_race/engine_race.cpp:81-83 | A logged batch becomes part of the active memfile and is acknowledged exactly if the bytes to copy fit behind what is there, and otherwise nothing changes |
| EngineRace.EngineRace.CheckRoom | engine/engine_race/engine_race.cpp:141-149 | Room exactly if the bytes of the batch fit, a wait exactly if they do not and 32 memfiles are queued, and otherwise the permission to switch; nothing is changed by the check |
| EngineRace.EngineRace.SwitchMemfile | engine/engine_race/engine_race.cpp:126-138 | The active memfile joins the end of the queue and a fresh empty one with the new log's id takes its place; the first one queued gets its dump scheduled |
| EngineRace.EngineRace.AwaitLog | engine/engine_race/redo_alloctor.cpp:11-17 | Comes by a redo log exactly if the outstanding preallocation, or the first one, was submitted and could open its file; a failed one is consumed |
| EngineRace.EngineRace.AllocateAndSwitch | engine/engine_race/engine_race.cpp:154-157 | Succeeds exactly if the outstanding preallocation, or a new one if there is none, yields a log and the new memfile can be built; then there is a fresh memfile, and otherwise the content is as it was |
| EngineRace.EngineRace.RunDump | engine/engine_race/engine_race.cpp:173-183 | Any dump in flight that succeeds leaves exactly the front memfile's map on disk under the scheduled id; one that fails is scheduled again under a new id |
| EngineRace.EngineRace.OnDumpCompleted | engine/engine_race/engine_race.cpp:193-212 | Either nothing changed and the callback can be run again, or the front left the queue, the metadata and the table list have its table at the end, and redo_id_ is its id |
| EngineRace.EngineRace.GcStarts | engine/engine_race/engine_race.cpp:226 | The bound of a gc call is the checkpoint at the time it is read, and is kept however long the call takes |
| EngineRace.EngineRace.GcLists | engine/engine_race/engine_race.cpp:226-246 | Chooses at most eight listed logs below the bound, and all of them if they are fewer than eight, in whatever order the directory lists them |
| EngineRace.PickVictims | engine/engine_race/engine_race.cpp:226-246 | The choice itself: distinct ids below the bound, complete if fewer than eight |
| EngineRace.EngineRace.GcRemoves | engine/engine_race/engine_race.cpp:248-258 | The chosen logs are removed one by one, each in a step of its own, up to the first removal that throws, and no others |
| EngineRace.EngineRace.CaptureMemfiles | engine/engine_race/engine_race.cpp:266-274 | The active memfile and then the queue from the newest to the oldest |
| EngineRace.SnapshotRead | engine/engine_race/snapshot.cpp:12-29 | The value of the first memfile that has the key, whatever tables there are; NotFound exactly if none has it and there is no table; the answer is that of the read whose looks are at these contents |
| EngineRace.EngineRace.Read | engine/engine_race/engine_race.cpp:266-279 | Captures memfiles and tables and reads from them: the value is the current one, NotFound means that the key is absent, and the tables are reached exactly if there are some and no memfile has the key |
| EngineRace.DBMeta.Checkpoint | engine/engine_race/db_meta.cpp:50-64 | Under the two asserts the checkpoint becomes the redo id and the file id is appended to the table list |
| EngineRace.RedoAllocator.RunTask | engine/engine_race/redo_alloctor.cpp:27-37 | The preallocation uses up an id whether or not the file can be opened, and may leave an empty file behind when it fails |
| EngineRace.RedoLog.Append | engine/engine_race/redo_log.cpp:53-67 | True exactly if all writes and the flush succeed; then the whole batch is in the log, otherwise at most a part of it |
| Memfiles.Memfile.HasRoomFor | engine/engine_race/memfile.cpp:24-32 | True if and only if the keys and values of the batch, all of them put one behind the other, fit into what is left of the reserved capacity |
| Updates.BatchBytesIsPayload | engine/engine_race/memfile.cpp:24-32 | The bytes counted for a batch are the length of all its keys and values put one behind the other |
| Memfiles.Memfile.Add | engine/engine_race/memfile.cpp:40-53 | The decoded map is the old one with the first updates applied in order, repeated keys included: all of them exactly if the bytes to copy fit into the reserved capacity, otherwise those before the first that does not fit; all earlier bytes stay where they are |
| Memfiles.Memfile.AddOne | engine/engine_race/memfile.cpp:43-52 | One update: a new key is copied with its value, a known one only gets a new value, and nothing changes in the map exactly if the bytes do not fit |
| Memfiles.Memfile.Clone | engine/engine_race/memfile.cpp:66-72 | The bytes go behind all others and the view returned is where they are, exactly if they fit |
| Updates.ClonedAtMostBatch | engine/engine_race/memfile.cpp:24-53 | The bytes that add copies are at most those that the room check counts, so a batch that has room can be added |
| Memfiles.Memfile.Read | engine/engine_race/memfile.cpp:55-64 | The value of the key in the map the memfile stands for, or none |
| Memfiles.Memfile.Find | engine/engine_race/memfile.cpp:44-45 | The search by byte order finds the key if it is there, and otherwise the place where it keeps the index ordered |
| Memfiles.Memfile.Values | engine/engine_race/memfile.h:32-36 | The entries in key order without repetition; applying them one by one to an empty map gives the memfile's map |
| Memfiles.ViewsSurvive | engine/engine_race/memfile.cpp:66-72 | A view decodes to the same bytes however much is appended later |
| Memfiles.InsertKeepsSorted | engine/engine_race/memfile.cpp:45-48 | A new key inserted at the place found keeps the index ordered with distinct keys |
| Memfiles.LessIsTotal | engine/engine_race/memfile.cpp:43-52 | The byte order of keys is total, so of two keys one is smaller unless they are equal |
| Memfiles.LessIsLexicographic | engine/engine_race/memfile.cpp:43-52 | A key is smaller than another if and only if it is a proper prefix of it, or has the smaller byte at the first place where they differ |
| BatchCommitter.StepKeepsInv | engine/engine_race/batch_commiter.cpp:28-123 | Every piece of the commit thread, the destructor and the clients, submissions falling between any two, keeps: decided tasks, tasks in process and queue are all submitted ones in order, and exactly the first tasks have an outcome |
| BatchCommitter.SettleKeepsInv | engine/engine_race/batch_commiter.cpp:92-101 | A promise that is kept was not kept before, and gets the outcome of its round |
| BatchCommitter.SubmissionOrder | engine/engine_race/batch_commiter.cpp:71-123 | In every run, whatever is submitted during the rounds, the pairs of the rounds and the undecided ones are all submitted pairs in submission order; each task has at most one outcome, that of its round, and keeps it |
| BatchCommitter.UpdaterSeesNext | engine/engine_race/batch_commiter.cpp:84-95 | The updater is called with exactly the pairs that follow all those decided before, never with none |
| BatchCommitter.GoneMeansAnswered | engine/engine_race/batch_commiter.cpp:28-43 | Once the committer is destroyed exactly the submitted tasks have an outcome |
| BatchCommitter.ShutdownIsBounded | engine/engine_race/batch_commiter.cpp:28-58 | After a stop each step of the committer's own threads brings the end nearer by a measure |
| BatchCommitter.ShutdownCompletes | engine/engine_race/batch_commiter.cpp:28-58 | After a stop the end can be reached from every point, without any new submission |
| BatchCommitter.TaskHasRound | engine/engine_race/batch_commiter.cpp:84-106 | Every decided task is in exactly the round, at exactly the place, that its submission number says, and has the outcome of that round |
| BatchCommitter.DoneMeansAccepted | engine/engine_race/batch_commiter.cpp:89-95 | A client that is told done has its pair in a batch that the updater saw and accepted |
| BatchCommitter.OutcomeTellsCause | engine/engine_race/batch_commiter.cpp:28-106 | In every run a promise is done exactly if the updater accepted its round, server_busy exactly if the updater refused it or the task was drained, and the exception exactly if the updater threw or a copy failed |
| BatchCommitter.Committer.Submit | engine/engine_race/batch_commiter.cpp:108-123 | One step: a task with the next number joins the end of the queue |
| BatchCommitter.Committer.WaitUnplug | engine/engine_race/batch_commiter.cpp:45-69 | A round begins exactly if something is queued and no stop was asked for, and otherwise nothing changes |
| BatchCommitter.Committer.TakeQueue | engine/engine_race/batch_commiter.cpp:73-77 | One step: the whole queue becomes the tasks in process |
| BatchCommitter.Committer.CopyPairs | engine/engine_race/batch_commiter.cpp:79-81 | The batch becomes the pairs of the tasks in process, in order, or the round is decided as an exception if a copy fails |
| BatchCommitter.Committer.BeginWrite | engine/engine_race/batch_commiter.cpp:89-90 | The updater gets the pairs submitted next after all decided ones |
| BatchCommitter.Committer.EndWrite | engine/engine_race/batch_commiter.cpp:90-101 | All tasks in process get the one outcome of the updater's answer: done if it returned true, server_busy if it returned false, the exception if it threw; the answer is kept with the round |
| BatchCommitter.Committer.KeepPromises | engine/engine_race/batch_commiter.cpp:92-106 | Each task in process is told that outcome, and nothing is in process afterwards |
| BatchCommitter.Committer.Drain | engine/engine_race/batch_commiter.cpp:28-43 | Each task still queued is told that the server is busy, and then exactly the submitted tasks have an outcome |
| Service.StepKeepsInv | engine/engine_race/batch_commiter.cpp:84-106 | With the engine as the updater every step of either keeps both invariants, and the batches the engine acknowledged are those the committer saw accepted |
| Service.EngineHoldsAccepted | engine/engine_race/engine_race.cpp:51-90 | In every run the engine's data structures hold exactly the accepted batches of the committer, applied in submission order to an empty map |
| Service.DoneIsDurable | engine/engine_race/engine_race.cpp:51-90 | A client that is told done has its pair in a batch the engine acknowledged; its key is in the map, and the batch is in a listed table or in a log that still exists |
| Service.ClientLearnsEnd | engine/engine_race/engine_race.cpp:51-90 | In every run a client is told done exactly if the write of its round ended by adding the batch to the memfile, server_busy exactly if that write timed out waiting for a dump or the task was drained, and the exception exactly if no redo log could be had, the memfile could not be built or the append failed, or the copy failed before any write |
| CountDigits.ClzCountsDigits | engine/include/spdlog/fmt/bundled/format.h:902-909 | The bit trick gives the number of decimal digits for every 64-bit number with the 64-bit table, and for every 32-bit number with the 32-bit table, and never leaves the table |
| CountDigits.EstimateIsClose | engine/include/spdlog/fmt/bundled/format.h:907 | The estimate from the bit length is the digit count less one, or one too large, for all bit lengths up to 64 |
| CountDigits.CountDigitsLoop | engine/include/spdlog/fmt/bundled/format.h:911-925 | The loop over four digits at a time gives the number of decimal digits of any number |
| DecimalFormatter.LgIsDigitCount | engine/include/spdlog/fmt/bundled/format.h:940-953 | For every 32-bit number the handler chosen is on<d - 1> for d decimal digits, on<0> for zero |
| DecimalFormatter.ScaledError | engine/include/spdlog/fmt/bundled/format.h:977-981 | For each of the eight widths the product fits into 64 bits, and the fixed-point value is too large by less than one unit of the last digit still to be written |
| DecimalFormatter.NextDigits | engine/include/spdlog/fmt/bundled/format.h:982-988 | Multiplying the fraction by 100 or 10 brings exactly the next digits above the point and keeps the error |
| DecimalFormatter.DigitPair | engine/include/spdlog/fmt/bundled/format-inl.h:254-260 | The two characters of DIGITS at twice an index are the two decimal digits of the index |
| DecimalFormatter.DecimalFormatter.On | engine/include/spdlog/fmt/bundled/format.h:968-992 | on<N> writes exactly the N + 1 decimal digits of any 32-bit number below 10^(N + 1), leaves the rest of the buffer alone and advances behind them |
| DecimalFormatter.DecimalFormatter.Format | engine/include/spdlog/fmt/bundled/format.h:940-993 | lg with this handler writes exactly the decimal digits of any 32-bit number |
| Decimal.DigitsDenote | engine/include/spdlog/fmt/bundled/format.h:1051-1078 | The digits are below ten, denote the number, and are as many as the powers of ten around it say |
| Decimal.DigitsAreUnique | engine/include/spdlog/fmt/bundled/format.h:1051-1078 | No other digits of that length denote the number |
| FormatInt.FormatDecimal | engine/include/spdlog/fmt/bundled/format.h:1051-1078 | The cells from the start on are overwritten with the digits in groups of three from the right, separated by the given separator, and no others |
| FormatInt.AddThousandsSep.Call | engine/include/spdlog/fmt/bundled/format.h:1025-1045 | Each third call writes the separator to the left and moves the pointer by its length, the others do nothing |
| FormatInt.OnNum | engine/include/spdlog/fmt/bundled/format.h:2612-2618 | The size computed beforehand is exactly what the grouped digits of a 64-bit value take |
| FormatInt.GroupedLength | engine/include/spdlog/fmt/bundled/format.h:2612-2616 | Grouped digits take one cell each and (d - 1) / 3 separators |
| FormatInt.StrippingRecoversDigits | engine/include/spdlog/fmt/bundled/format.h:1036-1044 | Taking a separator character out of the grouped digits gives the digits back if and only if it is none of the digits that occur |
| FormatInt.DigitIsAt | engine/include/spdlog/fmt/bundled/format.h:1025-1045 | The digit with k digits to its right has exactly k / 3 separators there, one of them next to it if k is a positive multiple of three |
| ParseInt.ParseNonnegativeInt | engine/include/spdlog/fmt/bundled/format.h:1594-1615 | Reports too big if and only if the run of digits denotes more than INT_MAX; otherwise returns its value and stops behind it; the accumulator never exceeds 32 bits |
| ParseInt.FormattedIsParsed | engine/include/spdlog/fmt/bundled/format.h:1594-1615 | The digits that formatting writes for a number, followed by anything that is no digit, are read back as the number |
| FloatingPoint.MulRounds | engine/include/spdlog/fmt/bundled/format-inl.h:433-442 | operator* is exactly floor((x * y + 2^63) / 2^64) on significands, and no 64-bit step of it overflows |
| FloatingPoint.Normalize | engine/include/spdlog/fmt/bundled/format-inl.h:390-403 | For a significand that is not zero the loop ends, with the top bit at 63 and the same value |
| FloatingPoint.ComputeBoundaries | engine/include/spdlog/fmt/bundled/format-inl.h:405-417 | Both boundaries get one exponent, in the range that the exponent of the double allows, keep their value, and differ by at least 1536 units |
| Doubles.FromDoubleIsBinary64 | engine/include/spdlog/fmt/bundled/format-inl.h:371-388 | The constructor's significand and exponent are the value of the double by section 3.4 of IEEE 754-2008 |
| Doubles.NextDouble | engine/include/spdlog/fmt/bundled/format-inl.h:371-388 | The next double in bit order is one unit in the last place above |
| Doubles.UpperIsMidpoint | engine/include/spdlog/fmt/bundled/format-inl.h:412 | The upper boundary is half way to the next double |
| Doubles.LowerIsMidpoint | engine/include/spdlog/fmt/bundled/format-inl.h:410-411 | The lower boundary is half way to the previous double if and only if the double is not the smallest normal one; for that one it is strictly above, and never reaches the double |
| Doubles.BetweenMidpointsRounds | engine/include/spdlog/fmt/bundled/format-inl.h:405-408 | A number strictly between the midpoints is nearer to the double than to any other |
| CachedPowers.WithinHalfUlp | engine/include/spdlog/fmt/bundled/format-inl.h:291-338 | All 87 cached powers are within half a unit in the last place of the power of ten they stand for |
| CachedPowers.CachedIndexIsFirst | engine/include/spdlog/fmt/bundled/format-inl.h:444-456 | The entry found is the first of the table whose binary exponent is at least the wanted one, and at most 26 above it |
| CachedPowers.RoundedIndexIsExact | engine/include/spdlog/fmt/bundled/format-inl.h:444-452 | However the constant and the product are rounded to doubles, the index computed is the one of the exact product |
| CachedPowers.AtMostThreeAboveIff | engine/include/spdlog/fmt/bundled/format-inl.h:429-431 | The promise of an exponent at most 3 above the wanted one is kept if and only if some entry of the table has one in that range |
| CachedPowers.AtMostThreeAboveFails | engine/include/spdlog/fmt/bundled/format-inl.h:429-431 | It is broken for the double 2^972, whose upper boundary asks for -1033 and gets -1007 |
| CachedPowers.CachedPowerInRange | engine/include/spdlog/fmt/bundled/format-inl.h:444-456 | The power returned is normalized, in that range, and comes with its decimal exponent |
| GrisuDigits.GenDigits | engine/include/spdlog/fmt/bundled/format-inl.h:458-512 | For exponents from -60 to -32 and any delta, which may be zero only if the fraction is, the digit generation ends without 64-bit overflow, writes at most 29 characters, and stops at the first place where the exit condition holds, with all digits down to there |
| GrisuDigits.HighDigits | engine/include/spdlog/fmt/bundled/format-inl.h:466-497 | The first loop: all digits of the integral part down to the place where it stops |
| GrisuDigits.LowDigits | engine/include/spdlog/fmt/bundled/format-inl.h:498-511 | The second loop: all digits of the fraction down to the place where it stops |
| GrisuDigits.DigitsAreShortest | engine/include/spdlog/fmt/bundled/format-inl.h:458-512 | Where the generation stops, its number is between upper - delta and upper, and no positive multiple of a larger power of ten is above upper - delta and at most upper |
| GrisuDigits.TerminatesIff | engine/include/spdlog/fmt/bundled/format-inl.h:498-511 | There is a place where the exit condition holds if and only if delta is above zero or the fraction is zero |
| Grisu.ScaledGap | engine/include/spdlog/fmt/bundled/format-inl.h:525-531 | The scaled boundaries moved inwards neither wrap nor cross: delta is at least 765 |
| Grisu.DecimalBetween | engine/include/spdlog/fmt/bundled/format-inl.h:525-532 | A decimal between the scaled boundaries moved inwards is strictly between the boundaries themselves |
| Grisu.CoarserIsOutside | engine/include/spdlog/fmt/bundled/format-inl.h:458-533 | A multiple of a power of ten that is not between the scaled boundaries moved inwards is not between the boundaries themselves, less 1/256 of their distance at either end |
| Grisu.FormatPositive | engine/include/spdlog/fmt/bundled/format-inl.h:514-533 | For every positive finite double the digits and exponent produced denote a number strictly between the midpoints to the two neighbours, so that the double is the one nearest to it, and they are the shortest but for a margin: no multiple of a larger power of ten is between the computed boundaries, less 1/256 of their distance at either end |
| BucketMapper.MakeBuckets | histogram.cc:14-34 | However the products are rounded to doubles, the constructor ends with 109 limits, as many as the assert in line 58 asks for, starting at 1, strictly increasing, below 2^64, indexed by the map, and each the leading digits of the rounded product of 1.5 and the one before |
| BucketMapper.LeadingScale | histogram.cc:22-29 | What is kept of a limit is a number up to 109 times a power of ten, with all digits below dropped, and at least 11 times it if a digit was dropped |
| BucketMapper.NextLimitIsLarger | histogram.cc:20-31 | Each limit is larger than the one before although its trailing digits are dropped and the products are rounded |
| BucketMapper.LastGrowth | histogram.cc:19-20 | However the products are rounded, 107 of them are below 2^64 and the next one is above |
| BucketMapper.HistogramBucketMapper.IndexForValue | histogram.cc:36-50 | The bucket found is the one that the value lies in: above the limit before it and at most its own, the last one without an end |
| BucketMapper.BucketsFollow | histogram.cc:36-50 | Larger values are in later buckets, and each value is in one bucket only |
| Histogram.HistogramStat.Clear | histogram.cc:62-71 | The state stands for no samples |
| Histogram.HistogramStat.Add | histogram.cc:75-101 | The state, wrapped to 64 bits, stands for the samples with one more: count, sum, squares, extremes and every bucket |
| Histogram.HistogramStat.Merge | histogram.cc:103-123 | The state stands for the concatenation of both lists of samples, also when a histogram is merged into itself |
| Histogram.Concat | histogram.cc:103-123 | Sum, sum of squares, extremes and bucket counts of a concatenation come from those of its parts |
| Histogram.CumulativeIsBelow | histogram.cc:75-101 | Without overflow the first b bucket counts add up to the samples in the first b buckets, and all of them to the number of samples |
| Histogram.VarianceIsNonnegative | histogram.cc:164-171 | The number of samples times the sum of squares is at least the square of the sum |
| Histogram.NumeratorIsExact | histogram.cc:169-170 | The unsigned numerator is the true one modulo 2^64, and equals it if and only if the true one is below 2^64 |
| Histogram.DenominatorIsExact | histogram.cc:171 | The unsigned denominator is exact if and only if there are fewer than 2^32 samples |
| Histogram.HistogramStat.Variance | histogram.cc:164-172 | The two operands of the division in terms of the samples, and 0 for no samples |
| Histogram.HistogramStat.Percentile | histogram.cc:129-155 | The loop computes PercentileOf of counts, extremes and limits, whose values the next four rows give |
| Histogram.PercentileIsInRankBucket | histogram.cc:129-155 | For 0 < p <= 100 the percentile lies in the same bucket as the sample of the rank that p asks for, that is the rank with 100 (rank - 1) < num * p <= 100 rank, after interpolation and clamping |
| Histogram.PercentileHasSample | histogram.cc:129-155 | Every such percentage of a histogram with samples asks for a rank from 1 to their number, some sample has that rank, and the percentile lies in its bucket |
| Histogram.PercentileValue | histogram.cc:129-155 | For 0 < p <= 100 the percentile divides the width of that bucket as num * p / 100, less the samples in earlier buckets, divides the samples inside, and is kept between the smallest and the largest sample |
| Histogram.PercentileAtEnds | histogram.cc:129-155 | The percentile is 0 without samples, the smallest sample for p <= 0 and the largest for p > 100 |
| Percentiles.InterpolationIsLinear | histogram.cc:136-146 | Within a bucket the interpolation runs linearly from its left point to its right point |
| Percentiles.InterpolatedInBucket | histogram.cc:136-146 | In the bucket where the threshold is reached the interpolation stays at most at the right point, and above the left one as soon as the threshold is above the counts before |
| Percentiles.PercentileIsMonotone | histogram.cc:129-155 | A larger percentage, of all reals, never gives a smaller percentile, also without samples |
| CircularQueue.CircularQ.PushBack | engine/include/spdlog/details/circular_q.h:25-36 | The item becomes the newest; a full queue, also one of capacity zero, loses its oldest and counts an overrun |
| CircularQueue.CircularQ.PopFront | engine/include/spdlog/details/circular_q.h:38-44 | Returns the oldest item and leaves the others in order |
| CircularQueue.CircularQ.Empty | engine/include/spdlog/details/circular_q.h:46-49 | True if and only if there is no item |
| CircularQueue.CircularQ.Full | engine/include/spdlog/details/circular_q.h:51-55 | True if and only if there are as many items as the queue was made for |
| CircularQueue.MpmcBlockingQueue.Enqueue | engine/include/spdlog/details/mpmc_blocking_q.h:35-43 | Once the wait is over nothing is lost: the item follows all others |
| CircularQueue.MpmcBlockingQueue.EnqueueNowait | engine/include/spdlog/details/mpmc_blocking_q.h:46-53 | Never waits; a full queue loses its oldest item and counts it |
| CircularQueue.MpmcBlockingQueue.DequeueFor | engine/include/spdlog/details/mpmc_blocking_q.h:57-69 | Times out exactly if the queue is empty, and otherwise takes the oldest item |
| ThreadPool.StepKeepsInv | engine/include/spdlog/details/thread_pool.h:130-224 | Every step keeps: the messages that wait are the newest ones posted, those taken are in order among the ones before with one missing there for each overrun, terminate messages come last, and a worker has stopped exactly when it took one, and it took only one |
| ThreadPool.BlockingRunIsFifo | engine/include/spdlog/details/thread_pool.h:173-183 | In a run with the blocking policy the messages taken followed by those waiting are all messages posted, in order |
| ThreadPool.FinishedIsDrained | engine/include/spdlog/details/thread_pool.h:130-147 | When the destructor has joined all workers, the queue is empty, all messages but one for each overrun were taken in the order posted, and each worker took exactly one terminate message |
| ThreadPool.ShutdownIsNotStuck | engine/include/spdlog/details/thread_pool.h:130-147 | With a capacity of at least one, some step other than a timeout is possible until the shutdown is finished |
| ThreadPool.ShutdownIsBounded | engine/include/spdlog/details/thread_pool.h:130-147 | No shutdown has more steps other than timeouts than its measure |
| ThreadPool.ShutdownCompletes | engine/include/spdlog/details/thread_pool.h:130-147 | From any point of a shutdown with a capacity of at least one its end is reached |
| ThreadPool.ZeroCapacityBlocks | engine/include/spdlog/details/mpmc_blocking_q.h:35-41 | With capacity zero no terminate message is ever sent and the destructor does not return |
| ThreadPool.ShutdownEndsIff | engine/include/spdlog/details/thread_pool.h:113-147 | A pool can be destroyed if and only if its queue was made for at least one message |
| RotatingFileSink.RotatingFileSink.SinkIt | engine/include/spdlog/sinks/rotating_file_sink.h:58-69 | Below the limit the message goes to the end of the base file and nothing else changes; above it the files rotate, and the call succeeds if and only if each existing file below max_files can be renamed in one of two tries; then each file is the one before it, the base file is the message, and only the oldest file is lost; otherwise the messages of the base file are lost too, and no others; the size is tracked if and only if the call succeeded |
| RotatingFileSink.RotatingFileSink.Rotate | engine/include/spdlog/sinks/rotating_file_sink.h:82-110 | With the outcome of every renaming given: success if and only if no file fails twice, and then exactly the shifted files; otherwise the first target that failed, counted from the top, is deleted, those above it are shifted, and the base file is emptied |
| RotatingFileSink.RotatingFileSink.RenameFile | engine/include/spdlog/sinks/rotating_file_sink.h:112-119 | The target is deleted in any case, and is the source afterwards if the renaming worked |
| RotatingFileSink.RotationLosesOldest | engine/include/spdlog/sinks/rotating_file_sink.h:82-110 | A successful rotation loses exactly the messages of file max_files, if the file before it exists or it is the only one, and keeps the order of all others |
| RotatingFileSink.GivingUpLosesBase | engine/include/spdlog/sinks/rotating_file_sink.h:82-110 | A rotation that gives up loses exactly what a successful one would and the messages of the base file, and keeps the order of all others, wherever it stopped |
| RotatingFileSink.RotatedIsOk | engine/include/spdlog/sinks/rotating_file_sink.h:82-110 | Afterwards each file is still within the limit, a single message, or as it was found at the start, and files above max_files are untouched |
| Lehmer.Random.Next | random.h:32-50 | The shift-and-add reduction gives the true remainder of seed * 16807 for every seed but M, which stays as it is |
| Lehmer.NextIsProduct | random.h:39-48 | The reduction is exact modulo M and fits into 32 bits for every seed from 1 to M |
| Lehmer.NextStaysInRange | random.h:36-48 | From 1 to M - 1 the next seed is the remainder, and again from 1 to M - 1 |
| Lehmer.NextIsBijection | random.h:36-38 | The generator permutes the seeds from 1 to M - 1 |
| Lehmer.FullPeriod | random.h:36-38 | From each seed in the range each other one is reached: the generator cycles through every number from 1 to M - 1 |
| Lehmer.ReturnsAfterPeriod | random.h:36-38 | Within M - 1 steps a seed comes back only at the end |
| Lehmer.NoEarlierOne | random.h:16-18 | 16807 has order M - 1 modulo M |
| Lehmer.GoodSeedInRange | random.h:22 | The seed taken is from 1 to M, and is the fixed point M if and only if the lower 31 bits of the argument are all set |
| Lehmer.GoodSeedKeeps | random.h:22 | An argument from 1 to M is the seed itself, 0 gives 1, and only the lower 31 bits count |
| Lehmer.Random.constructor | random.h:22 | The generator starts with an argument from 1 to M itself, with 1 for 0, and otherwise with what the lower 31 bits give |

## Left out

- EngineRace.EngineRace.Write: ends with Overflow where a logged batch outgrows an empty memfile; the source goes on and lets the buffer move under its views, of which nothing is claimed.
- EngineRace.EngineRace.ResumeWrite: ends with Overflow in the same case as Write.
- EngineRace.EngineRace.AddBatch: leaves a batch that outgrows the memfile logged, where the source goes on.
- Memfiles.Memfile.Add: stops at the first update that outgrows the reserved capacity, where the source goes on with views into memory it has given back.
- Memfiles.Memfile.AddOne: stops in the same case as Add.
- Memfiles.Memfile.Clone: copies nothing in that case.
- EngineRace.SnapshotRead: stops at the tables, because SSTable::read is a stub; a miss with a captured table is reported as such and nothing is claimed about it.
- EngineReads.ReadsAreCurrent: claims nothing about a miss with a captured table, for the same reason.
- EngineRace.EngineRace.Read: runs while nothing else happens; reads under interleaving are `EngineReads.Read`, with the same answer function.
- Grisu.FormatPositive: claims nothing about shorter decimals within 1/256 of the interval's width from its ends, since Grisu2 gives up a unit at either end for its rounding and so misses some.
- GrisuDigits.GenDigits: requires delta above zero or a fraction of zero, since otherwise the loop does not end, as TerminatesIff says.
- RotatingFileSink.RotatingFileSink.SinkIt: takes opening and writing the base file to succeed.
- Histogram.HistogramStat.Percentile: is over exact reals and for fewer than 2^64 samples, so that the counters have not wrapped.
- Histogram.HistogramStat.Add: is sequential; the relaxed atomics allow other threads to see, and to lose, parts of an update.
- Histogram.HistogramStat.Variance: gives the operands of the division; the square root and its rounding are not modelled.
- Recovery after a restart: Replayer does nothing, so durability is about one process lifetime; `EngineDisk` says what the files would allow, with the checkpoint and table list that DBMeta keeps in memory, since writing them is a TODO in the source.
- The text format of redo logs and dumps, which has no delimiters; a log is a sequence of records here, and which of them an append wrote completely is kept as history.
- Range, the destructor of the engine, and the mapping of exceptions to return codes.
- Wrap-around of the 64-bit id counters of DBMeta.
- The unlocked swap in DBFile_manager::apply, which counts as one atomic step, and its zombies_ set, which is never filled.
- A submit to the dumper that throws inside schedule_dump_; the submission of a dump is taken to succeed, its execution may fail.
- The lifetime of client buffers after a timed-out write: tasks hold copies of keys and values.
- boost futures: a future is taken to be invalid after its value was taken.
- std::map, which is an ordered sequence with binary search here.
- The end of the process when adding a logged batch to the memfile throws.
- Exceptions other than failing copies in the committer, and submissions to a committer that is being destroyed.
- Prefixes, padding and signs around formatted integers, octal, hexadecimal and binary output, and the overloads for iterators and wide characters.
- The rounding, trailing zeros and layout of grisu2_format and grisu2_prettify, which work on the digits produced here.
- Memory ordering, spurious wake-ups and the ten-second wait in thread_pool; the locked sections are atomic steps.
- calc_filename: a file is named by its index.
- Overflow of max_items + 1 and of current_size_ in size_t.
- Uniform, OneIn, Skewed and the thread-local instance of Random.
- Average and Median of the histogram, which are one division and one call of Percentile.
- Other sinks, the registry, pattern formatting, the benchmark driver and the build files.
