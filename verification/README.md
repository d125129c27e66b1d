# HermiNas, modelled in Dafny

HermiNas moves log records from files on a host into a column store and shows them on dashboards.
This project models the parts of it in which state, failure and order interact, and proves what they
keep over every run.

- **Delivery (Rust).** `Framing`, `Decimal`, `WalModel`, `Wal` (the write-ahead log as a class over its two
  files), `Shipping` (batch encoding, the file shipper, the drain loop), `Dedup`, `Base64`, `ReceiverModel`
  and `ReceiverService` (the receiver with its key set, sink and dead letter file), `TailModel` and `Tailer`
  (the file tailer and its collector loop), `TailGrouping` (where records begin and end), `TailHistory` (a tailed
  file with restarts and replacements).
  `Pipeline` puts agent and receiver together as one step relation with lost requests, lost replies, crashes
  of the agent between any two steps, crashes inside an ack and restarts of the receiver; `PipelineRows`
  counts the occurrences of records one by one.
- **Schema registry (Go).** `Schema` (validation, compatibility, inference), `RegistryModel` and
  `SchemaRegistry` (reads and writes of many clients interleaved), `DdlModel` and `Ddl` (the statement
  printers and a reader for them). `Lex` is Go's string order.
- **Concurrent and timed components (Go).** `BackoffDelay` and `Supervisor`, `BusModel`, `BusHistory` and
  `Bus`, `SlidingWindow`, `FixedWindow`, `PollerModel` and `Poller`.
- **CSV export (TypeScript).** `Csv`.

Objects whose methods update fields are classes, and loops are loops; each method is proved equal to a
function on values, and the theorems over whole runs are about those functions. The supervisor, whose
threads interleave, and the pipeline are machines that take one step at a time.

Where the code does not do what one would expect of it, the exact condition is proved:

- A batch is remembered before its sink write. After a failed write the retry is acknowledged as a
  duplicate, so its new records reach the sink if and only if the first write worked
  (`ReceiverModel.RetryExactly`, and a whole run of the agent in `Pipeline.SinkFailureLoses`).
- A key is made of content only, so a batch of the same records as an earlier one is acknowledged as a
  duplicate although it is no retry: in `PipelineRows.SameRecordTwice` nothing fails, two records are acked,
  and the sink has one row. No-loss therefore holds by content (`Pipeline.NoLoss`); when each acked occurrence
  has its own row is `PipelineRows.OccurrencesExactly`, and `PipelineRows.OwnRowEachExactly` for runs without
  a crash or a lost reply.
- After a lost reply the retry has the same key if and only if the batch was full or nothing was appended
  since, and its valid records are inserted again unless its key is remembered
  (`Pipeline.RetryInsertsExactly`; a whole run in `Pipeline.LostReplyRepeats`).
- A tailer restart "resumes where it left off" if and only if no multiline record was being collected
  (`TailModel.RestartAfterPoll`). The checkpoint is written before the records reach the log, so a restart may
  also lose emitted records, and a rotation lines that nobody has read. Over a whole run no line is missing if
  and only if no restart and no replacement met one of these cases (`TailHistory.NothingMissingExactly`; a run
  that loses a record in `TailHistory.RestartLosesARecord`).
- A record of 4 GiB or more is not read back from the log (`WalModel.AppendExactly`). An append after a torn
  length header of one to three bytes is read back only in the case that `WalModel.TornHeader` states
  (`WalModel.TornByteLoses` is an input outside it), although such a header is harmless until then.
- A statement is read back if and only if its column types are plain and, for an `ALTER TABLE`, there is a
  column (`DdlModel.CreateReadsBack`, `DdlModel.AlterReadsBack`); a table follows the registry's history, in
  which evolutions without a column may occur, if and only if every batch of columns was plain
  (`Ddl.TableFollowsHistory`).
- The widget poller advances `lastSeen` even when the hub rejects the push (`PollerModel.DeliveredExactly`),
  and asks for everything again while no since-value has exceeded the empty string
  (`PollerModel.PollReturnsArrivalsExactly`).
- The first restart delay is not capped (`BackoffDelay.BoundedExactly`), and a backoff that sets some field but no
  positive `Initial` never waits at all (`BackoffDelay.NoWaitExactly`).
- `Stop` stops for good if and only if `Start` has nothing left to launch when it is called
  (`Supervisor.StopsForGoodExactly`; the program calls it later, bootstrap.go:146-154). It then waits only for
  launches that it has asked to stop if and only if the watcher is not asleep before a restart when it asks
  (`Supervisor.MissesARestartExactly`); otherwise it need not return (`Supervisor.StopMissesARestart`).
- An export without rows or columns cannot be told apart by a reader (`Csv.RoundTripExactly`).

`dafny verify dfyconfig.toml` checks everything.

## Model

| member | source | states |
|---|---|---|
| Framing.DecodeExactly | rust/bootstrap/src/receiver.rs:42-53 | on arbitrary bytes the receiver's decoder returns given records if and only if the bytes are the framing of these records, each under 4 GiB, and fewer than four more bytes |
| Framing.RoundTripExactly | rust/agent/src/ship/grpc.rs:15-22 | the receiver's decoder inverts the agent's framing for exactly the batches without a record of 4 GiB or more |
| Framing.StrictIsDecodeWithoutTail | rust/agent/src/ship/grpc.rs:28-36 | the agent's unchecked decoder succeeds exactly when the receiver's does and no byte is left over, and every other outcome is a panic |
| Framing.DecodeStrictExactly | rust/agent/src/ship/grpc.rs:24-37 | the agent's decoder succeeds on exactly the framings of records under 4 GiB |
| Framing.DecodeReceived | rust/bootstrap/src/receiver.rs:42-53 | the decoding loop stays in bounds and computes the decoder that `DecodeExactly` characterises, errors included |
| Framing.DecodeShipped | rust/agent/src/ship/grpc.rs:28-36 | the unchecked loop computes the decoder that `DecodeStrictExactly` characterises, panics included |
| Decimal.PrintParses | rust/agent/src/buffer/wal.rs:145-158 | a u64 written in decimal is read back, trimming included |
| Decimal.ParsesExactly | rust/agent/src/buffer/wal.rs:145-158 | white space around a written number and a plus sign before it do not matter, and it is read back if and only if it fits into a u64 |
| WalModel.PendingIsTodo | rust/agent/src/buffer/wal.rs:71-94 | pending returns exactly the records not yet acked, in order |
| WalModel.PendingOffsets | rust/agent/src/buffer/wal.rs:71-94 | each pending entry carries the exact byte length of the framing of all records up to and including it |
| WalModel.PendingBytesExact | rust/agent/src/buffer/wal.rs:104-108 | the backpressure measure is the sum of 4 + length over the pending records |
| WalModel.AppendRepresents | rust/agent/src/buffer/wal.rs:59-66 | an append of a record under 4 GiB adds it behind the ones to ship and changes nothing else |
| WalModel.AppendExactly | rust/agent/src/buffer/wal.rs:59-94 | for a record of any length: it is read back behind the pending ones if and only if it is under 4 GiB |
| WalModel.AckRepresents | rust/agent/src/buffer/wal.rs:98-102 | acking a pending entry moves it and those before it to the shipped ones; the ack offset stays on a record boundary, in memory and on disk |
| WalModel.CompactRepresents | rust/agent/src/buffer/wal.rs:115-142 | compaction keeps the records to ship, forgets the others and shortens the file by the old ack offset |
| WalModel.CompactShifts | rust/agent/src/buffer/wal.rs:110-142 | compaction moves every pending offset down by exactly the old ack offset and keeps the data |
| WalModel.ReopenRepresents | rust/agent/src/buffer/wal.rs:32-55 | a restart changes nothing; a crash that leaves the ack file empty makes every stored record pending again |
| WalModel.RunRepresents | rust/agent/src/buffer/wal.rs:32-158 | over every run of appends of records under 4 GiB, acks, compactions, restarts and crashes inside an ack, the ack offset is a record boundary and pending is exactly the records after it |
| WalModel.TornHeader | rust/agent/src/buffer/wal.rs:59-94 | one to three torn bytes do not change pending; a record appended after them is read back if and only if its frame is a prefix of the torn bytes followed by that frame |
| WalModel.TornByteLoses | rust/agent/src/buffer/wal.rs:59-94 | after one torn byte of value five an empty record that is appended is not read back |
| Wal.Wal.constructor | rust/agent/src/buffer/wal.rs:32-55 | opening reads the ack offset and takes the write offset from the file |
| Wal.Wal.Append | rust/agent/src/buffer/wal.rs:59-66 | the files and offsets afterwards are those of an append on values |
| Wal.Wal.Pending | rust/agent/src/buffer/wal.rs:71-94 | the reading loop returns the records and offsets that `PendingIsTodo` and `PendingOffsets` describe, or the error |
| Wal.Wal.Ack | rust/agent/src/buffer/wal.rs:98-102 | file and field both hold the new offset |
| Wal.Wal.PendingBytes | rust/agent/src/buffer/wal.rs:106-108 | the saturating difference that `PendingBytesExact` interprets |
| Wal.Wal.Compact | rust/agent/src/buffer/wal.rs:115-142 | the rewritten file and offsets are those of a compaction on values; an unreadable log is left alone |
| Shipping.EncodeBatch | rust/agent/src/ship/grpc.rs:15-22 | the payload is the compressed framing of the records of the batch |
| Shipping.FileShipper.Ship | rust/agent/src/ship/file.rs:25-43 | appends one length-prefixed compressed batch, and nothing for an empty one |
| Shipping.PayloadRoundTrip | rust/agent/src/ship/grpc.rs:15-37 | a shipped payload decodes to the records it was made from |
| Shipping.ShippedFileReadsBack | rust/agent/src/ship/file.rs:46-67 | reading a shipped file gives every non-empty batch shipped, in order |
| Shipping.ReadShippedBatches | rust/agent/src/ship/file.rs:50-67 | the reading loop computes the reader that `ShippedFileReadsBack` is about, panics included |
| Shipping.DrainAdvances | rust/agent/src/main.rs:170-173 | shipping and acking the next chunk moves exactly that chunk from pending to acked |
| Shipping.DrainAndShip | rust/agent/src/main.rs:165-175 | whatever the link does, the batches it took are the first chunks of what was pending, in order and without gaps or repeats, and exactly their records are acked; all of them when it succeeds |
| Dedup.Deduplicator.CheckAndRemember | rust/bootstrap/src/dedup.rs:35-49 | the answer and the key set afterwards are those of the step that `ClosedForm` iterates |
| Dedup.ClosedForm | rust/bootstrap/src/dedup.rs:18-49 | of n keys called new exactly the last ((n-1) mod max)+1 are remembered, so the set never outgrows its bound |
| Dedup.RememberedKeysCame | rust/bootstrap/src/dedup.rs:33-49 | a key is called duplicate only if it came before |
| Dedup.RetryRecognised | rust/bootstrap/src/dedup.rs:33-49 | an immediate retry is always a duplicate, a key that never came never is |
| Base64.EncodeBytes | rust/bootstrap/src/dlq.rs:88-110 | the chunk loop, its shifts and masks written as division and remainder, computes the encoding that the next three rows describe |
| Base64.RoundTrip | rust/bootstrap/src/dlq.rs:88-110 | a decoder for section 4 of RFC 4648 recovers every byte string |
| Base64.LengthExact | rust/bootstrap/src/dlq.rs:88-110 | the output has 4 * ceil(n/3) characters |
| Base64.OnlyAlphabetAndPadding | rust/bootstrap/src/dlq.rs:88-110 | every character is of the standard alphabet or padding at the end |
| ReceiverService.Dlq.Reject | rust/bootstrap/src/dlq.rs:53-79 | one entry more, with the encoded record and the reason but without its time, and the counter one higher |
| ReceiverService.AgentService.Sort | rust/bootstrap/src/receiver.rs:84-107 | JSON objects become enriched rows and everything else dead letters, in order, each counted |
| ReceiverService.AgentService.ShipBatch | rust/bootstrap/src/receiver.rs:58-125 | reply, key set, dead letters and sink afterwards are those of the step on values that the ReceiverModel rows are about, on all five ways out |
| ReceiverModel.RowsAndRejectsPartition | rust/bootstrap/src/receiver.rs:84-107 | a batch is split in two: its JSON objects, each once and in order, are the rows, and all other records, each once and in order, the dead letters |
| ReceiverModel.FirstAttemptDelivers | rust/bootstrap/src/receiver.rs:58-125 | a first attempt puts every record that is not a JSON object into the dead letter file, every other into the sink if the write works, and is then accepted |
| ReceiverModel.AcceptedExactly | rust/bootstrap/src/receiver.rs:61-77 | for any request whatever: it is accepted if and only if its key is remembered, or its payload decodes and the sink works or has nothing to store; a payload that cannot be decoded is refused with the decoder's error and leaves sink, dead letters and counter alone; the key is remembered afterwards in every case |
| ReceiverModel.AcceptedIsDelivered | rust/bootstrap/src/receiver.rs:58-125 | a new batch that is accepted decodes, and every record of it is delivered |
| ReceiverModel.ReplyCountsExactly | rust/bootstrap/src/receiver.rs:109-125 | the reply to a new batch counts its JSON objects, all stored, and its other records, all in the dead letter file, or reports the failed sink |
| ReceiverModel.AddedExactly | rust/bootstrap/src/receiver.rs:79-107 | each row that a batch adds carries the request's names, the time of this call and a JSON object; each dead letter the request's names, the bytes of a record that is none, and the parser's reason for it |
| ReceiverModel.RestartForgets | rust/bootstrap/src/dedup.rs:18-49 | after a restart no batch is called a duplicate, and nothing stored is lost |
| ReceiverModel.DeliveredStays | rust/bootstrap/src/receiver.rs:58-125 | no later batch or restart takes a delivered record away |
| ReceiverModel.DeliveredFrom | rust/bootstrap/src/receiver.rs:58-125 | whatever is delivered after a batch was delivered before or is a record of this batch, sent for this agent and dataset |
| ReceiverModel.RetryExactly | rust/bootstrap/src/receiver.rs:61-67 | the retry is acknowledged as a duplicate and changes nothing, so a new valid record reaches the sink if and only if the first write worked |
| Pipeline.ServeCovers | rust/bootstrap/src/receiver.rs:58-125 | once the key of one of the agent's batches is remembered, each of its records has reached the sink or the dead letter file or belongs to a refused write |
| Pipeline.StepInv | rust/agent/src/main.rs:165-175 | every append, tick, ship attempt, ack, crash, compaction, receiver restart and foreign batch keeps the pipeline invariant |
| Pipeline.RunInv | rust/agent/src/main.rs:165-175 | over every run, all appended records are the acked ones followed by the pending ones, every acked record is covered, and what was shipped since the log was opened is what was acked since plus one chunk in flight |
| Pipeline.NoLoss | rust/agent/src/ship/grpc.rs:60-89 | by content: the appended records split into those pending still returns, in order, and before them acked ones, each equal to a record that reached sink or dead letter file or whose sink write failed |
| Pipeline.NoLossWhenSinkWorks | rust/bootstrap/src/receiver.rs:109-116 | if no sink write fails, the content of every acked record was delivered for this agent and dataset; an occurrence need not have a row of its own |
| PipelineRows.RowsAreInsertions | rust/bootstrap/src/receiver.rs:58-125 | over every run without foreign batches under this name, the agent's sink rows are, in order, the valid records of exactly those handled batches whose key was not remembered and whose write worked |
| PipelineRows.BooksBalance | rust/bootstrap/src/receiver.rs:61-67 | over every run, record by record, the valid records accepted and those inserted while the reply was lost are as many as those inserted and those accepted because their batch's key was remembered |
| PipelineRows.AcceptedAccount | rust/agent/src/main.rs:165-175 | over every run, the records ever reported accepted are those acked or in flight now and those that crashes made pending again |
| PipelineRows.OccurrencesExactly | rust/bootstrap/src/dedup.rs:25-31 | over every run without foreign batches each acked occurrence of a valid record has its own row, if and only if the occurrences accepted because of a remembered key are, record by record, no more than those inserted while the reply was lost and those released by a crash |
| PipelineRows.OwnRowEachExactly | rust/bootstrap/src/dedup.rs:25-31 | without crashes and lost replies each acked occurrence has its own row, if and only if every batch that was handled had a key that was not remembered, or no valid record |
| PipelineRows.SameRecordTwice | rust/bootstrap/src/receiver.rs:61-67 | for every valid record there is a run in which nothing fails, nothing is retried, two records are acked and the sink has one row |
| Pipeline.ShippedExactlyOnce | rust/agent/src/main.rs:165-175 | the batches reported shipped since the log was opened are the records acked since then, in order, without gaps or repeats, and at most one chunk of max(batch_size,1) records not yet acked |
| Pipeline.OpenedOnce | rust/agent/src/main.rs:165-175 | without a crash the log is opened once, so `ShippedExactlyOnce` covers the whole run |
| Pipeline.OnlyAppendedIsDelivered | rust/bootstrap/src/receiver.rs:58-125 | nothing is made up: over every run, whatever the sink or the dead letter file holds for the agent and dataset is a record that was appended, or one that another client sent under the same name |
| Pipeline.RetryKeyExactly | rust/bootstrap/src/dedup.rs:1-31 | after a lost reply the next tick's first batch has the same key if and only if the batch was full or nothing was appended in between |
| Pipeline.RetryInsertsExactly | rust/bootstrap/src/dedup.rs:1-6 | at any later state of the receiver the retry adds nothing to a working sink if and only if it has no valid record or its key is remembered, and this is the lost batch's key if and only if that batch was full or nothing was appended in between |
| Pipeline.LostReplyRepeats | rust/agent/src/main.rs:165-175 | with batches of at least two, for any valid record and any second one there is a run with nothing but one lost reply that inserts the first record twice |
| Pipeline.SinkFailureLoses | rust/bootstrap/src/receiver.rs:61-67 | for every valid record there is a run, one failed sink write and a retry, that ends with it acked and never delivered |
| TailModel.LinesGrow | rust/agent/src/collect/file.rs:65-78 | reading a grown file is reading it before and then from where that reading stopped |
| TailModel.GroupConcat | rust/agent/src/collect/file.rs:84-105 | grouping lines in two portions, the open record carried over, is grouping them at once |
| TailGrouping.RecordsAreDelimited | rust/agent/src/collect/file.rs:84-105 | over every run of growth, polls and flushes: no line of a record after its first satisfies the pattern, a record of several lines and the open one begin with a line that does, and, without a flush, records that begin otherwise come before all others |
| TailGrouping.LineBeginsRecordExactly | rust/agent/src/collect/file.rs:91-104 | over every run without a flush a line begins a record if and only if it satisfies the pattern or no line up to it does; with `TailModel.Conservation` this fixes every record |
| TailGrouping.OpenExactly | rust/agent/src/collect/file.rs:91-104 | in such a run a record is open if and only if some line satisfies the pattern |
| TailGrouping.EveryLineARecord | rust/agent/src/collect/file.rs:85-90 | without a pattern every complete line read is a record of its own and none is ever open |
| TailModel.ScheduleIndependent | rust/agent/src/collect/file.rs:42-105 | on a file that only grows, whatever the moments of polling and the partial lines met, emitted and open records are the one-shot grouping of all complete lines, and the offset is past the last of them |
| TailModel.Conservation | rust/agent/src/collect/file.rs:45-111 | whatever the order of growth, polls and flushes, splitting what was emitted and is open gives the consumed lines in order, and the offset is their length in bytes |
| TailModel.GrownFileIsRead | rust/agent/src/collect/file.rs:65-81 | after any run, a poll that follows a growth accounts for every complete line of the grown file |
| TailModel.SplitJoin | rust/agent/src/collect/file.rs:97-99 | joining a line to a record with a newline is undone by splitting |
| TailModel.ConsumedIsSize | rust/agent/src/collect/file.rs:70-78 | the offset counts exactly the complete lines with their newlines |
| TailModel.CheckpointRoundTrip | rust/agent/src/collect/file.rs:131-146 | a checkpoint reads back as written, with or without an inode |
| TailModel.CheckpointExactly | rust/agent/src/collect/file.rs:131-141 | for any checkpoint text: the first two parts between colons are used, an offset that is no u64 counts as 0 and an inode that is none as unknown |
| TailModel.UnreadableReadsAll | rust/agent/src/collect/file.rs:131-141 | without a checkpoint, or with an unreadable offset in it, the first poll reads the whole file from its start |
| TailModel.RestartAfterPoll | rust/agent/src/collect/file.rs:22-82 | after a poll a restart changes nothing if and only if no record was open |
| TailModel.RotationExactly | rust/agent/src/collect/file.rs:55-63 | a poll starts over exactly when a known inode has changed or the file is shorter than what was read: then it finds all complete lines of the new content and drops what was open; otherwise it finds the lines after the offset, behind what was open |
| TailModel.ReplacedBehavesNew | rust/agent/src/collect/file.rs:55-63 | after a detected rotation or truncation, however the new file grows and is polled, the tailer emits what a new one emits: the one-shot grouping of all complete lines of the new content |
| TailModel.RoundIsEvents | rust/agent/src/main.rs:53-73 | every round of the collector, whether the poll finds the file, finds none or fails, is a poll followed by nothing or a flush, or nothing at all, so conservation covers it |
| TailHistory.RunInv | rust/agent/src/collect/file.rs:22-146 | over every run of growth, polls, flushes, restarts and replacements the ledger of lines balances and the checkpoint leads back to where the last poll stopped |
| TailHistory.EveryLineAccounted | rust/agent/src/collect/file.rs:22-146 | all complete lines of the replaced files and those read from the present one are, in order, the lines of the records in the ledger, of the open record, and of exactly these losses: the record open at a restart, emitted records that had not reached the log by then, the record open when a file was found replaced, and the lines nobody had read from it |
| TailHistory.NothingMissingExactly | rust/agent/src/collect/file.rs:55-82 | the records in the log and the open one hold every line, if and only if every restart met no open record and no emitted one that had not reached the log, and every replacement no open record and no unread line |
| TailHistory.EventLosesExactly | rust/agent/src/collect/file.rs:55-82 | in any state an event makes lines go missing if and only if it is a restart that meets an open record or an emitted one that had not reached the log, or a replacement that meets an open record or unread lines |
| TailHistory.RestartLosesARecord | rust/agent/src/collect/file.rs:22-39 | for any pattern and any file of one line at which a record starts: read, restart, read again, and the line is in no record |
| TailModel.IdleFlushes | rust/agent/src/main.rs:50-63 | on a file that no longer changes, an open record is sent once within four rounds |
| TailModel.FourthIdleFlushes | rust/agent/src/main.rs:48-63 | an open record stays open through the first three empty polls in a row, and the fourth sends it |
| Tailer.FileTailer.Poll | rust/agent/src/collect/file.rs:45-82 | the tailer, its checkpoint file and the records are those of a poll on values; when the file cannot be opened the error is passed on and nothing changes |
| Tailer.FileTailer.PushLine | rust/agent/src/collect/file.rs:84-105 | the open record and the emitted ones are those of the step that the TailGrouping rows delimit and `GroupConcat` iterates |
| Tailer.FileTailer.FlushPending | rust/agent/src/collect/file.rs:109-111 | the open record is handed out and nothing stays open |
| Tailer.Collector.Round | rust/agent/src/main.rs:53-73 | tailer, idle counter and sent records are those of a round on values, in all three branches |
| Schema.Validate | engine/schemamgr/dataset.go:54-85 | the loop with its set of seen names returns the first error in the order of the checks |
| Schema.ValidationExactly | engine/schemamgr/dataset.go:52-85 | validation accepts exactly the definitions with a name, at least one column, distinct non-empty names and types, defined sort and partition columns, and a partition whenever there is a TTL |
| Schema.ColumnReported | engine/schemamgr/dataset.go:61-69 | the first column that is incomplete or repeats an earlier name decides the error, whatever else is wrong after it |
| Schema.OrderByReported | engine/schemamgr/dataset.go:71-75 | with all columns fine, the first undefined sort column is reported |
| Schema.OuterErrorsReported | engine/schemamgr/dataset.go:55-83 | a missing name and missing columns are reported before all else, an undefined partition and a TTL without one after all else |
| Schema.CompatibilityExactly | engine/schemamgr/dataset.go:87-105 | an evolution is compatible exactly when every old column keeps its type and is not made non-nullable |
| Schema.CompatibilityReported | engine/schemamgr/dataset.go:92-103 | the first old column that is not kept is reported, as removed, as retyped, or else as made non-nullable |
| Schema.PrefixIsCompatible | engine/schemamgr/dataset.go:87-105 | appending columns with new names is always compatible |
| Schema.InferColumns | engine/schemamgr/infer.go:13-24 | one column for each field of the sample, in strictly increasing order of names, each fitting the value of its field |
| Schema.InferredFits | engine/schemamgr/infer.go:31-49 | a column is Int64 if and only if its value is a number without a fraction in the 64-bit range, Float64 if and only if it is any other number, Bool if and only if it is a boolean, String otherwise, and nullable if and only if the value is null |
| Schema.InferenceDeterministic | engine/schemamgr/infer.go:7-24 | the result depends on the sample alone, not on the order in which the map is walked |
| RegistryModel.PersistExactly | engine/schemamgr/store.go:210-243 | a planned write succeeds if and only if the version it was planned from is still the latest; a stale one changes nothing |
| RegistryModel.HistoryIsOneChain | engine/schemamgr/store.go:57-103 | however reads and writes of many clients interleave, each dataset has exactly the versions 1 to n, the latest is version n, and each version's columns extend the one before |
| RegistryModel.WritesAreAtomic | engine/schemamgr/store.go:81-103 | no lost update: a write that succeeds has the effect of the whole operation done at that moment |
| RegistryModel.WritesAppend | engine/schemamgr/store.go:81-103 | over every run, a write of an addition that goes through makes the latest columns those that were the latest followed by the columns given, one version later |
| RegistryModel.LateWriterIsRefused | engine/schemamgr/store.go:81-103 | for any dataset and any two additions that could join it there is a run in which two clients plan from the same version: the first write wins and the second is refused |
| RegistryModel.AddColumnsExactly | engine/schemamgr/store.go:81-103 | adding columns succeeds if and only if the dataset exists and the columns are complete, distinct and not yet there; then the definition has the old columns followed by the new ones, the next version, the time, and everything else as it was; a failure changes nothing |
| RegistryModel.CreateExactly | engine/schemamgr/store.go:57-75 | creating succeeds if and only if the definition is consistent and its name is new; then it is stored as version 1; a failure changes nothing |
| RegistryModel.CompatibilityNeverRejects | engine/schemamgr/store.go:92-97 | once validation has passed, the compatibility check of AddColumns passes too |
| RegistryModel.AnyPairCompatible | engine/schemamgr/store.go:184-208 | any earlier version is a prefix of any later one, with the same settings, and compatible with it |
| SchemaRegistry.Store.Persist | engine/schemamgr/store.go:210-243 | both tables are written, or neither when the version row exists |
| SchemaRegistry.Store.Create | engine/schemamgr/store.go:57-75 | version 1 of the definition as given is stored in both tables, or nothing changes; errors in the order of the code |
| SchemaRegistry.Store.AddColumns | engine/schemamgr/store.go:81-103 | the old columns followed by the new ones are stored as the next version in both tables, or nothing changes; errors in the order of the code |
| SchemaRegistry.Store.EnsureDataset | engine/schemamgr/store.go:109-138 | an existing dataset is returned untouched; an unknown one is stored as version 1 with the inferred columns, unpartitioned and sorted by the receiver's time field if and only if the sample has it, or nothing changes |
| SchemaRegistry.AutoCreationExactly | engine/schemamgr/store.go:105-138 | creating an unknown dataset succeeds if and only if it has a name, the sample has a field and no field name is empty |
| DdlModel.IdentReadsBack | engine/schemamgr/ddl.go:71-79 | a reader that knows the doubled backtick recovers every name |
| DdlModel.CreateReadsBack | engine/schemamgr/ddl.go:11-47 | for every validated dataset and arbitrary names, a reader recovers name, columns, partition, order and positive TTL if and only if the columns are plain: no line break in a type, no non-nullable type of the form Nullable(...), no comma at the end of a non-nullable last type |
| DdlModel.AlterReadsBack | engine/schemamgr/ddl.go:49-69 | for any columns, a reader recovers dataset and columns of an ALTER if and only if there is a column and the columns are plain; without a column nothing is read |
| DdlModel.ReadColumnsArePlain | engine/schemamgr/ddl.go:14-25 | whatever the text, the columns that the reader returns are plain, so nothing else can ever be read back |
| DdlModel.InferredIsPlain | engine/schemamgr/infer.go:31-49 | inferred types are plain, so `CreateReadsBack` applies to every auto-created dataset |
| DdlModel.TypesCanCollide | engine/schemamgr/ddl.go:16-19 | without legible types two different definitions can print the same statement |
| DdlModel.CreateStatement | engine/schemamgr/ddl.go:11-47 | word for word, the statement for any two columns, the second one nullable, with partition, order and TTL |
| DdlModel.BareStatement | engine/schemamgr/ddl.go:11-47 | word for word, the statement for one column without partition, order and TTL |
| DdlModel.AlterStatement | engine/schemamgr/ddl.go:54-69 | word for word, the statement that adds a nullable and a required column |
| Ddl.WriteDdl | engine/schemamgr/ddl.go:11-47 | the printer's loops produce the statement that `CreateReadsBack` reads |
| Ddl.WriteAlterDdl | engine/schemamgr/ddl.go:54-69 | the printer's loop produces the statement that `AlterReadsBack` reads |
| Ddl.TableFollowsHistory | engine/schemamgr/http.go:130-141 | after any history, evolutions without a column included, version 1's CREATE followed by every ALTER that can be read gives the latest definition if and only if the columns of version 1 and of each evolution were plain |
| BackoffDelay.ClosedFormExactly | engine/supervisor/supervisor.go:40-49 | for 0 < Initial <= Max and Multiplier >= 1 the first n delays are min(Initial * Multiplier^(k-1), Max) if and only if none of these values has a fraction |
| BackoffDelay.WholeMultiplier | engine/supervisor/supervisor.go:40-49 | with a whole multiplier every delay is min(Initial * Multiplier^(k-1), Max) |
| BackoffDelay.DefaultDelays | engine/supervisor/supervisor.go:36-38 | a registration without a backoff waits min(500 ms * 2^(k-1), 30 s) |
| BackoffDelay.BoundedExactly | engine/supervisor/supervisor.go:40-49 | with any multiplier all delays respect Max if and only if Initial does |
| BackoffDelay.NeverShrinks | engine/supervisor/supervisor.go:40-49 | with a multiplier of at least one, rounding included, delays lie between Initial and Max and never shrink |
| BackoffDelay.NoWaitExactly | engine/supervisor/supervisor.go:40-49 | of a registration that is not the zero value the first delay is Initial, and no attempt ever waits if and only if Initial is not positive |
| Supervisor.RunInv | engine/supervisor/supervisor.go:92-187 | over every interleaving, start order, stop order, watchers, launches and delays keep the invariant from which the next rows follow |
| Supervisor.StartsInOrder | engine/supervisor/supervisor.go:92-110 | the launched processes are a prefix of registration order, each launched right after the one before reported healthy; Start returns nil only when all did |
| Supervisor.StartAborts | engine/supervisor/supervisor.go:92-132 | a failed launch, or a process that does not become healthy, ends Start with an error for good: those launched before are left as they are and those after are never launched |
| Supervisor.OneLaunchAlive | engine/supervisor/exec_process.go:57-89 | a process never has two launches alive; a watcher restarts only after the last launch has exited |
| Supervisor.RestartDelays | engine/supervisor/supervisor.go:135-161 | the delay before the k-th restart attempt is the k-th delay, never reset by a successful restart, and min(Initial * Multiplier^(k-1), Max) if the multiplier is whole or none of these values has a fraction |
| Supervisor.CrashedIsRestarted | engine/supervisor/supervisor.go:135-161 | from every state of the invariant, a process whose latest launch has exited and that Stop has not marked is launched again by steps of its own watcher alone |
| Supervisor.TriedUntilItWorks | engine/supervisor/supervisor.go:149-159 | a watcher asleep before a restart tries again after every failure, one attempt later each time and marked as stopping or not, and the first attempt that works launches the process |
| Supervisor.AttemptsAreSleeps | engine/supervisor/supervisor.go:149-153 | over every run the attempts are as many as the times the watcher went to sleep, so `RestartDelays` counts all of them |
| Supervisor.StoppedForGood | engine/supervisor/supervisor.go:163-187 | when a Stop that was called once Start had nothing left to launch returns, stops were issued and joined in exact reverse order, every process has exited, every watcher is done, and no step but a last health report to Start is possible any more |
| Supervisor.AskedHasExited | engine/supervisor/exec_process.go:107-138 | a Stop whose context is not cancelled goes on to join only when the launch that it asked to stop has exited, and that launch never runs again |
| Supervisor.StopsForGoodExactly | engine/supervisor/supervisor.go:92-187 | in every continuation no process is alive once Stop has returned, if and only if Start, when Stop was called, had returned or was waiting for the health of the last registration |
| Supervisor.NeverAgainExactly | engine/supervisor/supervisor.go:139-187 | after Start has nothing left to launch, a process marked as stopping is never launched again in any continuation if and only if its watcher is not asleep before a restart |
| Supervisor.MissesARestartExactly | engine/supervisor/supervisor.go:149-184 | when Stop is about to ask a process to stop: in every continuation the only launch it then waits for is the one it asks, if and only if the watcher is not asleep before a restart |
| Supervisor.StopCanReturn | engine/supervisor/supervisor.go:163-187 | no deadlock: from every reachable state in which Stop was called there is a continuation, with processes exiting and no cancelled context, after which Stop returns |
| Supervisor.StopDuringStart | engine/supervisor/supervisor.go:165-187 | a Stop that overlaps with Start can return before a process is launched that nobody stops |
| Supervisor.StopMissesARestart | engine/supervisor/supervisor.go:149-159 | a Stop that meets a watcher in its restart loop can end up waiting for a process that it never asks to stop |
| BusModel.UnsubscribeKeeps | engine/bus/bus.go:84-98 | after an unsubscribe every listed subscriber still has an open channel of its own and every other stays listed |
| BusModel.FanoutKeeps | engine/bus/bus.go:106-119 | no send of a Publish meets a closed channel, and Publish changes neither the lists nor what is open |
| BusHistory.RunInv | engine/bus/bus.go:75-119 | over every run of subscribes, unsubscribes, sends of publishes and receives in between, every subscriber is in order, every topic is in balance and no panic occurs |
| BusHistory.NeverPanics | engine/bus/bus.go:44-51 | no send hits a closed channel and no channel is closed twice |
| BusHistory.ReceivesInOrder | engine/bus/bus.go:103-119 | what a subscriber received and what waits for it is a subsequence of the events published on its topic while it was subscribed, with at most the buffer size waiting |
| BusHistory.WaitingIsReceived | engine/bus/bus.go:75-101 | in every run, what waits for a subscriber is received by it, in order, one event for each time it asks |
| BusHistory.KeepingUpMissesNothing | engine/bus/bus.go:38-42 | a subscriber gets every event published on its topic while subscribed, in order, if and only if no send to it met a full buffer; it misses exactly one event for each such send |
| BusHistory.SubseqPositions | engine/bus/bus.go:103-119 | what being a subsequence means: an increasing choice of positions |
| BusHistory.NothingIsLostUncounted | engine/bus/bus.go:121-128 | per topic the subscriber counts summed over all publishes are the events that reached a subscriber plus the dropped counter |
| BusHistory.UnsubscribedForGood | engine/bus/bus.go:84-98 | from the call of the unsubscribe function on, whatever happens later, the channel is closed, no list mentions it and it is offered nothing more |
| BusHistory.SendsAreFanout | engine/bus/bus.go:106-119 | the sends of a Publish that no receiver interrupts are the fan-out that the method below computes |
| Bus.EventBus.constructor | engine/bus/bus.go:60-69 | an empty bus; a buffer size of zero or less becomes 16 |
| Bus.EventBus.Subscribe | engine/bus/bus.go:75-101 | a new open channel at the end of the topic's list |
| Bus.EventBus.Unsubscribe | engine/bus/bus.go:84-98 | the search loop removes this subscriber and closes its channel, once |
| Bus.EventBus.Publish | engine/bus/bus.go:106-119 | the loop over the subscribers queues or counts as dropped, never sending on a closed channel |
| SlidingWindow.KeepRecent | engine/querybroker/quota.go:45-51 | the in-place filter keeps exactly the times after the cutoff, in order, and overwrites no entry before reading it |
| SlidingWindow.Limiter.Allow | engine/querybroker/quota.go:34-60 | decision and stored windows are those of the step that the next rows are about |
| SlidingWindow.DecidesAsFullHistory | engine/api/ratelimit.go:54-80 | with a clock that does not go back each call is decided as counting all past admissions of its key in the last minute would, and no stored window exceeds the limit |
| SlidingWindow.GrantedIsAdmitted | engine/querybroker/quota.go:34-60 | the calls let through are exactly those that the full history admits |
| SlidingWindow.NeverOverLimit | engine/api/ratelimit.go:54-80 | no half-open minute, wherever it lies, sees more calls of a key let through than the limit |
| SlidingWindow.NoLimitGrantsAll | engine/querybroker/quota.go:34-37 | with a limit of zero or less every call of every run is let through |
| FixedWindow.MessageRateLimiter.Allow | engine/wshub/ratelimit.go:24-35 | decision, window and count are those of the step that the next rows are about |
| FixedWindow.RunInv | engine/wshub/ratelimit.go:24-35 | over every run, what was let through in the current window and in the second before it is at most the limit each |
| FixedWindow.AtMostTwiceTheLimit | engine/wshub/ratelimit.go:20-35 | any half-open second contains at most twice the limit of messages let through |
| FixedWindow.DeniedExactly | engine/wshub/ratelimit.go:24-35 | over every run a message is denied if and only if the limit was let through since its window began, less than a second ago |
| FixedWindow.TwiceTheLimitHappens | engine/wshub/ratelimit.go:24-35 | for every limit a run reaches the bound: twice the limit is let through within two nanoseconds |
| PollerModel.LastSeenIsMax | engine/wshub/subscription.go:146-174 | whatever the database returns, `lastSeen` is the greatest since-value among all rows pushed |
| PollerModel.PollReturnsArrivalsExactly | engine/wshub/subscription.go:100-114 | a poll returns exactly the rows that arrived since the last if and only if they all exceed `lastSeen`, or no row was seen while `lastSeen` is empty |
| PollerModel.IncrementalIsFullRefresh | engine/wshub/subscription.go:91-132 | if new rows exceed every value seen at an earlier poll, all pushes together are the full result at the last successful poll, failed polls included |
| PollerModel.DeliveredExactly | engine/wshub/subscription.go:110-118 | the client then has that full result if and only if no push was rejected |
| PollerModel.FullRefresh | engine/wshub/subscription.go:97-118 | without incremental mode every successful poll pushes the full result |
| Poller.MaxSinceColumn | engine/wshub/subscription.go:153-174 | the loop returns the maximum that `LastSeenIsMax` is about, skipping unreadable rows |
| Poller.Subscription.Poll | engine/wshub/subscription.go:100-119 | `lastSeen` and pushes are those of a poll on values; a failed one changes nothing |
| Csv.RowsToCsv | web/src/pages/exportResults.ts:1-9 | the loop produces the header and one line for each row |
| Csv.ReaderFindsTheCells | web/src/pages/exportResults.ts:1-22 | a reader finds, as field k of record j + 1, the text of row j's own value under the k-th name of the header, and nothing where the row has none |
| Csv.ReadsField | web/src/pages/exportResults.ts:11-16 | an escaped field, whatever its text, is read back where a comma, a line break or the end follows |
| Csv.RoundTripExactly | web/src/pages/exportResults.ts:1-22 | a reader for section 2 of RFC 4180 with LF as record break recovers exactly the header and the formatted cells if and only if there is a row and a column |
| Csv.NothingToShow | web/src/pages/exportResults.ts:1-9 | without a row or a column the export is one line break for each row and nothing else |

## Left out

- Compression: zstd is a pair of functions, and decompressing what was compressed is assumed to give it back.
- The key of a batch is a function of agent, dataset and payload that is assumed injective; collisions of the 64-bit hash are not modelled.
- Crashes in the middle of a compaction and torn appends of four or more bytes, which the code does not handle; other I/O errors of the log, the checkpoint and the dead letter file.
- A torn write of the ack file is modelled as an empty file only.
- A sink write works as a whole or not at all; a partial write that is reported as failed is not modelled.
- A call of ship_batch is one step. A handler that is cut off between remembering the key and the end of the sink write counts as one whose write failed and whose reply was lost: Handled(false, now, false).
- JSON parsing: whether a record is a JSON object is an arbitrary function, and enrichment is kept as the three added values beside the record, so overwriting a field of the same name does not show.
- The texts of replies and errors are constructors that hold the names and counts in them.
- Tailer.FileTailer.Poll: does not model an error while reading, such as text that is not valid UTF-8, which would drop the records read so far; the multiline pattern is an arbitrary predicate on lines.
- TailHistory: a replaced file is one that a poll recognises as such; a file truncated and grown past the offset before the next poll is taken for the old one by the code. Lines that the agent cannot parse are dropped after tailing.
- WalModel.RunRepresents: does not cover runs with a record of 4 GiB or more, whose length wraps; `WalModel.AppendExactly` says what such an append does.
- Two threads racing on one tailer or one log; the agent uses each from one task.
- ReceiverService.Dlq.Reject: does not model the entry's time, which no other part reads, and the order of JSON fields in its line.
- SlidingWindow.Limiter.Allow: the stored window is kept as its contents; that `append` may reuse the capacity of the backing array is not modelled, as no other reference to it exists.
- Schema.InferColumns: the library sort is an insertion sort here; the result is determined by the sample in either case.
- A JSON number beyond the range of a 64-bit integer, whose conversion in Go depends on the platform; numbers are reals.
- DdlModel.CreateReadsBack: a backslash in a name is read as itself, whereas ClickHouse has escapes for it.
- Listing datasets and versions, the HTTP handlers around the registry and the execution of statements.
- Supervisor: the threads are steps of a machine on values, not classes; Start and Stop are called at most once each and every process is registered before Start. Waiting for Health, signals and grace times are choices of the steps, so no claim is made that anything happens in time; Stop can return from every state, but need not.
- ExecProcess: a signal that cannot be delivered although the process lives is not modelled; a cancelled Stop may return before the process has exited.
- BackoffDelay: durations are unbounded and the product with the multiplier is exact before it is cut; overflow and the rounding of floating point are not modelled.
- Bus: counters are unbounded; a blocked receiver is a receive that finds nothing.
- PollerModel: the rows that arrive stand at the end of the full result, the value put into the query is compared as a string, and values with quotation marks or backslashes, which would change the query text, are not modelled. The set of subscriptions of a client and the intervals are left out.
- Csv: an object's own keys are given in order, and the texts of numbers and of nested objects are given with the values.
- Clocks are arguments that do not go back; 64-bit times do not overflow.
- Backpressure delay, query broker, cache, audit log, authentication, permissions, settings, paths, the hub's fan-out, generated protocol code, the Python services and the React interface: thin layers or short expressions.
