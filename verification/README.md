# Verified model of the telemetry, DNS-agent, alerting and web-client cores

A Dafny project that models seven parts of the system and proves what each of
them is for. `dafny verify dfyconfig.toml` checks all of it.

| file | part |
|---|---|
| `SampleBuffer.dfy`, `Forwarder.dfy`, `Heron.dfy`, `Pipeline.dfy` | the path of a telemetry sample: badger's durable buffer, the forward loop, heron's ingest, and all of it interleaved with lost replies, failed writes and restarts |
| `Bytes.dfy`, `FrameStreams.dfy`, `Protobuf.dfy`, `DnsQuestion.dfy`, `Dnstap.dfy` | one dnstap connection: framing, handshake, the protobuf walker, the DNS question parser |
| `Bundle.dfy`, `BundleAgent.dfy` | materializing a DNS bundle on disk, and the etag protocol that decides when |
| `TopK.dfy`, `PromText.dfy`, `PromMetrics.dfy`, `Percentiles.dfy`, `MetricsLoop.dfy` | the DNS metrics: top names, Prometheus counters, latency percentiles, per-interval deltas |
| `Alerts.dfy`, `AlertRuns.dfy` | the alert engine, one evaluation at a time and with all rules and operators interleaved |
| `Refresh.dfy`, `Csv.dfy` | the web client's single-flight token refresh and its CSV parser |
| `Latency.dfy` | the load generator's latency reservoir |

The parts that change state are classes, arrays and loops, each proved against
a specification function or against the property itself; the lemmas are about
those functions. Protocols (`Pipeline`, `AlertRuns`, `Refresh`) are step
systems: a state, the steps that are enabled in it, and theorems about every
run. Whatever can fail in the outside world is a parameter (`TxFault`,
`Faults`, `Reply`, `EvalFault`, ...) or a step.

## What came out

Some things that one would like to say of the code hold only under a
condition. In each case the condition is proved to be the exact one, or an
input or run that breaks the property is exhibited.

* A batch insert stores a sample's row if and only if its dedup key was free
  or held that very row (`Heron.SampleStoredUnlessKeyTaken`). The pipeline
  theorems take the collector's batch ids to be fresh.
* A batch id is the process's UUID and eight characters of another. The batches
  of a run have distinct ids if and only if no two turns that send draw the same
  eight (`Forwarder.NoIdTwiceExactlyWhen`); with such draws, and ids not used
  before, every run of the loop is a run of the pipeline (`Pipeline.LoopIsARun`).
* With hypertable writes switched off nothing is stored, and a run that loses
  a sample exists (`Pipeline.HypertableOffLosesASample`). heron's header says so.
* Every POST attempt mints a new batch id, so heron's dedup makes retries
  harmless only for a resubmission of one and the same batch. End to end the
  guarantee is at-least-once: a sample has as many rows as POSTs that carried
  it had their insert committed (`Pipeline.ExactMultiplicity`). A run that stores
  one twice is given (`Pipeline.LostReplyDuplicates`).
* Upserting only the last sample of each (asset, metric) pair differs from
  upserting every sample in the unit column, exactly when the last sample has
  no unit and an earlier one has another unit than the stored one
  (`Heron.FreshnessFold`).
* The protobuf walker panics if and only if the first match's declared length
  reaches beyond the signed 64-bit range (`Protobuf.FindMeaning`); short of that
  a length that does not fit yields nothing. A connection dies exactly on such a
  length, in the dnstap message or in the query message within it
  (`Dnstap.FatalMeansCrash`, `Dnstap.DrainCrash`), and a whole input that does
  it is given (`Dnstap.FatalInputKills`).
* The forwarder is first in, first out to the point of blocking: a run deletes
  something if and only if one of its turns would have deleted the first window,
  so a window that is answered 4xx for ever holds up everything behind it
  (`Forwarder.ProgressExactlyWhen`, `Forwarder.RefusedWindowBlocks`).
* Adding up cumulative histograms is cumulative for all their counts if and only
  if no bound of one series has above it a bound that this series lacks and the
  other has (`PromMetrics.MergeCumulativeExactlyWhen`).
* A sample in Prometheus text reads back with its labels if and only if no label
  text holds a comma or anything that the format escapes
  (`PromText.LineRoundTrip`): the code splits at every comma and undoes no escape.
* Dotted names do not tell a dot inside a label from one between two labels
  (`DnsQuestion.DotsCollide`), so the counts of such names are added up; without
  dots inside labels they are distinct (`DnsQuestion.JoinInjective`).
* A successful bundle apply leaves exactly the bundle if and only if no ignored
  `os.Remove` or `os.ReadDir` failure hit a file that had to go
  (`Bundle.ApplyConverges`). A file named like another's temporary file makes
  the outcome depend on the map's order (`Bundle.CollisionDependsOnOrder`);
  every order is safe if and only if no name is another's temporary name
  (`Bundle.CleanNamesSafeInAnyOrder`).
* After a failed apply, a central that goes back to the earlier bundle serves an
  etag that the agent still remembers, so nothing is repaired. The disk ends up
  as the earlier bundle if it was the write of the config that failed, and not
  if the configs differ and it was not, or if the zones were already replaced by
  others; where it is a directory that cannot be made these are the exact
  condition (`BundleAgent.Agent.FailedThenReverted`). When a single file cannot
  be written it depends on the map's order which others were. A poll without
  errors leaves the served bundle on disk if and only if its etag is not the
  remembered one or the disk is that bundle already
  (`BundleAgent.Agent.CleanPoll`).
* A failed request counts as a zero latency until 4096 durations were recorded
  (`Latency.ErrorsCountAsZeros`, `Latency.PercentileZeroIff`).
* A CSV document that is not marked must not begin with a byte order mark
  inside its first field (`Csv.ParsePrinted`).
* With operators in the picture what is notified about a key alternates fire and
  resolve if and only if no dismissed alert fires again straight after
  (`AlertRuns.AlternatesExactlyWhen`); a run that fires twice in a row is given
  (`AlertRuns.OperatorBreaksAlternation`). A resolution can still follow a
  dismissal, since the resolving update (`packages/magpie/main.go:353-356`) does
  not ask for the state again and so overwrites what the operator did
  (`AlertRuns.ResolveOverwritesOperator`).

Where the code and its comments disagree the model follows the code:
heron's header (`packages/heron/main.go:9-10`) announces one freshness
statement per batch, the code runs one per pair; the comment on the dedup
constraint (`packages/heron/main.go:347-351`) says that it makes collector
retries idempotent, but the collector's retries carry new batch ids; `readControl`'s comment
(`packages/badger/internal/dnstap/dnstap.go:185-186`) says that it reads frames
until the wanted one arrives, the code reads one frame; the write index of the
latency ring (`packages/loadgen/latency.go:17`) is said to wrap with the
observed count, but moves only with durations; a CSV test's title
(`packages/finch/src/lib/csv.test.ts:43`) has cells kept verbatim, the code and
the test's body trim them.

## Model

| member | source | states |
|---|---|---|
| `SampleBuffer.Buffer.Enqueue` | packages/badger/internal/buffer/buffer.go:73-82 | appends one row with the next id, or changes nothing |
| `SampleBuffer.Buffer.EnqueueBatch` | packages/badger/internal/buffer/buffer.go:86-112 | all samples of a batch in order with consecutive ids, or none of them |
| `SampleBuffer.Buffer.Drain` | packages/badger/internal/buffer/buffer.go:116-142 | the oldest rows up to the limit, unreadable ones with an empty sample; removes nothing |
| `SampleBuffer.Buffer.Ack` | packages/badger/internal/buffer/buffer.go:145-167 | deletes exactly the given ids in one transaction, or nothing |
| `SampleBuffer.AckRemovesExactlyThePrefix` | packages/badger/internal/buffer/buffer.go:145-167 | acknowledging a drained prefix leaves exactly the rows behind it, so none enqueued since is deleted |
| `SampleBuffer.IdsNeverReused` | packages/badger/internal/buffer/buffer.go:58-63 | whatever was deleted, new rows get ids above every id ever handed out |
| `Heron.InsertAddsOnly` | packages/heron/main.go:352-386 | the batch insert changes no existing row and adds only keys of the batch |
| `Heron.InsertAddsAll` | packages/heron/main.go:352-386 | every key of the batch is present afterwards, a missing one with its own sample's row |
| `Heron.InsertIdempotent` | packages/heron/main.go:347-386 | resubmitting an identical batch leaves the sample table unchanged |
| `Heron.SampleStoredUnlessKeyTaken` | packages/heron/main.go:347-386 | a sample's row is stored if and only if its key was free or held that row |
| `Heron.HypertableRows` | packages/heron/main.go:388-415 | one argument row per sample, in the statement's column order |
| `Heron.BuildInsert` | packages/heron/main.go:362-381 | placeholders $1..$11n, each once and in order, bind each row's cells to its own columns |
| `Heron.RunInsert` | packages/heron/main.go:352-386 | executing the built statement row by row is the specified insert |
| `Heron.LatestIsLast` | packages/heron/main.go:417-428 | the folded map holds a pair exactly when the batch does, with the last sample in batch order |
| `Heron.UpsertPairs` | packages/heron/main.go:429-461 | in any map order the upserts give the same source table; the first failure aborts |
| `Heron.FreshnessFold` | packages/heron/main.go:417-461 | the fold equals upserting every sample in all columns but unit, and in unit under an exact condition |
| `Heron.Server.WriteHypertableRows` | packages/heron/main.go:352-386 | all samples inserted under their dedup keys, or the table unchanged; success is reported only for the former |
| `Heron.Server.UpsertFreshness` | packages/heron/main.go:417-461 | one transaction with one upsert per pair, or nothing; success is reported only for the former |
| `Heron.Server.HandleIngest` | packages/heron/main.go:206-290 | refusals in order and without a write; 200 only after both writes were committed, 502 exactly when one is reported as failed, committed or not; each write's exact effect |
| `Forwarder.OneMoreRetry` | packages/badger/internal/forwarder/forwarder.go:261-269 | from [1s, 36s) the jitter range is positive, the next wait is in [1s, 36s) again and a retry further up the lower bound |
| `Forwarder.NextWaits` | packages/badger/internal/forwarder/forwarder.go:261-269 | the waits that can follow one are exactly those within a fifth of the doubled wait, capped at 30 s |
| `Forwarder.WaitTracksRetries` | packages/badger/internal/forwarder/forwarder.go:57-101 | in every run the wait is one second after a reset, 1.6 to 2.4 times as much with each retry since, up to the cap, and left alone by refusals and failed reads |
| `Forwarder.SevenRetriesReachTheCap` | packages/badger/internal/forwarder/forwarder.go:57-101 | after seven retries since the loop last started afresh the wait is in [24s, 36s), from any start and whatever the random source does |
| `Forwarder.After` | packages/badger/internal/forwarder/forwarder.go:57-101 | in every run the wait stays in [1s, 36s) |
| `Forwarder.PostedBatchIsAcceptable` | packages/badger/internal/forwarder/forwarder.go:57-137 | every batch posted in any run passes heron's checks on sample count and id length |
| `Forwarder.AttemptIdsDiffer` | packages/badger/internal/forwarder/forwarder.go:106-110 | two attempts share an id if and only if they are of one process and draw the same eight characters |
| `Forwarder.PostOfTurn` | packages/badger/internal/forwarder/forwarder.go:63-137 | a turn that sends has its batch among those posted: the readable, finite samples of its window under the process's id and the turn's own suffix |
| `Forwarder.TurnOfPost` | packages/badger/internal/forwarder/forwarder.go:63-137 | and every batch posted in a run is the batch of one of its turns |
| `Forwarder.NoIdTwiceExactlyWhen` | packages/badger/internal/forwarder/forwarder.go:106-111 | no two batches of a run have one id if and only if no two turns that send draw the same eight characters |
| `Forwarder.TurnRemovesOnlyAnswered` | packages/badger/internal/forwarder/forwarder.go:63-99 | a turn removes a prefix, and only rows that were unreadable or travelled in a batch answered 2xx |
| `Forwarder.RunRemovesOnlyAnswered` | packages/badger/internal/forwarder/forwarder.go:57-101 | the same for whole runs |
| `Forwarder.ProgressExactlyWhen` | packages/badger/internal/forwarder/forwarder.go:57-101 | a run deletes rows if and only if one of its turns, on the first window, drains and acks without a fault and is answered 2xx or finds nothing readable |
| `Forwarder.RefusedWindowBlocks` | packages/badger/internal/forwarder/forwarder.go:74-99 | while no POST is answered 2xx a readable sample in the first window keeps every row in place |
| `Forwarder.FaultFreeTurnsDrain` | packages/badger/internal/forwarder/forwarder.go:57-101 | n turns without a fault delete exactly the oldest 500n rows |
| `Forwarder.Forwarder.SendBatch` | packages/badger/internal/forwarder/forwarder.go:105-165 | posts exactly the readable rows under a new id; delivered, retryable or refused by reply; all ids, the unreadable rows' included, come back for the ack |
| `Forwarder.Forwarder.TakeTurn` | packages/badger/internal/forwarder/forwarder.go:63-99 | one drain, POST and ack is one step of the loop's specification |
| `Forwarder.Forwarder.Run` | packages/badger/internal/forwarder/forwarder.go:57-101 | the loop over any script of outcomes is the specified run |
| `Pipeline.AckDeletesExactlyTheSent` | packages/badger/internal/forwarder/forwarder.go:63-99 | in every reachable state an ack deletes the sent rows and no row enqueued since the drain |
| `Pipeline.StepInv` | packages/badger/internal/forwarder/forwarder.go:57-165 | every interleaved step keeps: the buffer is a suffix of the log, attempts carry log slices, the table holds all or nothing of each attempt, released rows were answered for |
| `Pipeline.LogIsComplete` | packages/badger/internal/buffer/buffer.go:84-112 | the log is what was buffered at the start followed by everything committed since, in order |
| `Pipeline.NoLoss` | packages/badger/internal/forwarder/forwarder.go:57-165 | after any run every committed readable sample is still buffered or has its row in `telemetry_samples`, every column of it but the time of receipt |
| `Pipeline.ReceivedWhenInserted` | packages/heron/main.go:243-285 | a row that a run added carries the time of an insert of its own batch |
| `Pipeline.BufferIsSuffixOfLog` | packages/badger/internal/buffer/buffer.go:116-167 | the buffer is a suffix of the committed sequence; each readable row before it went out in a POST with both writes committed |
| `Pipeline.ArrivalFollowsEnqueueOrder` | packages/badger/internal/forwarder/forwarder.go:63-99 | first deliveries follow enqueue order, even with requests that arrive late |
| `Pipeline.ExactMultiplicity` | packages/badger/internal/forwarder/forwarder.go:106-137 | a sample has exactly as many rows as POST attempts that carried it and whose insert was committed |
| `Pipeline.LostReplyDuplicates` | packages/badger/internal/forwarder/forwarder.go:74-111 | a reply that is lost and a second POST store one sample twice |
| `Pipeline.IngestIsARun` | packages/heron/main.go:206-290 | handling a request is a run of pipeline steps that leaves the same table, gives the same answer and commits the same writes |
| `Pipeline.TurnIsARun` | packages/badger/internal/forwarder/forwarder.go:63-99 | each turn of the loop is a run of pipeline steps with the same rows and the same posted batch |
| `Pipeline.LoopIsARun` | packages/badger/internal/forwarder/forwarder.go:57-101 | so is every run of the loop whose turns draw distinct suffixes and whose ids were not used before |
| `Pipeline.UnusedProcessIsFresh` | packages/badger/internal/forwarder/forwarder.go:106-111 | a process id that begins no id in use gives fresh ids with any suffix |
| `Pipeline.HypertableOffStoresNothing` | packages/heron/main.go:250-256 | without hypertable writes no run stores a sample |
| `Pipeline.HypertableOffLosesASample` | packages/heron/main.go:250-256 | and a run that loses one exists |
| `FrameStreams.StreamRoundTrip` | packages/badger/internal/dnstap/dnstap.go:160-183 | reading the concatenated encodings of any frames gives those frames back |
| `FrameStreams.ParseBytes` | packages/badger/internal/dnstap/dnstap.go:160-183 | the length bytes weigh 2^24, 2^16, 2^8 and 1; four zeros announce a control frame with a length of its own |
| `FrameStreams.StreamDecomposes` | packages/badger/internal/dnstap/dnstap.go:160-183 | every byte stream is the encoding of the frames read from it followed by a torn end |
| `FrameStreams.ParseInverts` | packages/badger/internal/dnstap/dnstap.go:160-183 | a parsed frame's encoding is exactly what was consumed |
| `Protobuf.VarintRoundTrip` | packages/badger/internal/dnstap/dnstap.go:243-259 | reading inverts base-128 encoding for every value below 2^64, consuming exactly it |
| `Protobuf.ReadVarint` | packages/badger/internal/dnstap/dnstap.go:243-259 | the shifting loop computes the varint's value, with its overflow and truncation errors |
| `Protobuf.SkipMeaning` | packages/badger/internal/dnstap/dnstap.go:261-282 | in unbounded arithmetic a field is skipped to its real end if and only if that is below 2^63, and beyond it the position turns over once; only an unreadable varint or wire type is an error |
| `Protobuf.SkipContent` | packages/badger/internal/dnstap/dnstap.go:261-282 | on the encoded content of any field skipping ends exactly behind it, and moves |
| `Protobuf.FieldBytes` | packages/badger/internal/dnstap/dnstap.go:243-312 | byte by byte: fields of wire types 0, 1 and 5 are passed over and field 14 is found behind them |
| `Protobuf.FindLengthDelimited` | packages/badger/internal/dnstap/dnstap.go:284-312 | the loop ends on every input and finds the first match of the specification |
| `Protobuf.FindMeaning` | packages/badger/internal/dnstap/dnstap.go:284-312 | the payload if and only if the declared length fits, a panic if and only if it leaves the int range |
| `Protobuf.HugeLengthPanics` | packages/badger/internal/dnstap/dnstap.go:300-307 | a message that makes the slice panic |
| `Protobuf.WalkerRefinesFieldList` | packages/badger/internal/dnstap/dnstap.go:284-312 | on any encoded list of fields the walker returns the first payload with the number, or nothing |
| `DnsQuestion.TypeLabelInjective` | packages/badger/internal/dnstap/dnstap.go:64-72 | no two query types share a label |
| `DnsQuestion.TypeLabels` | packages/badger/internal/dnstap/dnstap.go:64-72 | the mnemonic of each of the 21 known types, and the decimal numeral of every other |
| `DnsQuestion.QuestionRoundTrip` | packages/badger/internal/dnstap/dnstap.go:320-354 | header, encoded question and any trailing bytes decode to the lower-cased dotted name and the type label |
| `DnsQuestion.QuestionBytes` | packages/badger/internal/dnstap/dnstap.go:320-354 | byte by byte: a one-label question decodes to its name and the type that the two bytes spell, high byte first |
| `DnsQuestion.AcceptedIsEncoded` | packages/badger/internal/dnstap/dnstap.go:320-354 | every accepted message has such an encoding right after its header |
| `DnsQuestion.CaseIsFolded` | packages/badger/internal/dnstap/dnstap.go:345-348 | ASCII names of one length decode alike if and only if they differ in case at most |
| `DnsQuestion.NameIsLowered` | packages/badger/internal/dnstap/dnstap.go:345-348 | an ASCII name keeps every letter, loses its capitals and gains a final dot; no labels give a dot |
| `DnsQuestion.JoinConcat` | packages/badger/internal/dnstap/dnstap.go:345-348 | the labels are joined by dots in their order |
| `DnsQuestion.JoinInjective` | packages/badger/internal/dnstap/dnstap.go:345-348 | label lists without dots in them have distinct dotted names |
| `DnsQuestion.DotsCollide` | packages/badger/internal/dnstap/dnstap.go:345-348 | a label with a dot has the dotted name of two labels |
| `DnsQuestion.DecodeDNSQuestion` | packages/badger/internal/dnstap/dnstap.go:320-354 | the loop computes the specified decoding on every input |
| `Dnstap.DispatchRoundTrip` | packages/badger/internal/dnstap/dnstap.go:225-239 | a dnstap message with a query message is dispatched as its question, whatever other fields surround either |
| `Dnstap.RepliesParse` | packages/badger/internal/dnstap/dnstap.go:195-220 | the ACCEPT and FINISH we write read back as control frames of their kind |
| `Dnstap.ReplyBytes` | packages/badger/internal/dnstap/dnstap.go:195-220 | the very bytes of the ACCEPT, with its content type, and of the FINISH |
| `Dnstap.MakeControlFrame` | packages/badger/internal/dnstap/dnstap.go:195-202 | writes the frame encoding of a control payload in place |
| `Dnstap.MakeAcceptFrame` | packages/badger/internal/dnstap/dnstap.go:204-214 | an ACCEPT with the dnstap content type |
| `Dnstap.FatalMeansCrash` | packages/badger/internal/dnstap/dnstap.go:225-239 | a data frame crashes the dispatch exactly when the dnstap message, or the query message in it, declares a length beyond the int range |
| `Dnstap.DrainMeaning` | packages/badger/internal/dnstap/dnstap.go:126-146 | whatever ends the drain, exactly the questions before it were dispatched; FINISH on a STOP, death on a fatal frame |
| `Dnstap.DrainCrash` | packages/badger/internal/dnstap/dnstap.go:126-146 | the process dies exactly when a data frame with such a length comes before any STOP |
| `Dnstap.FatalInputKills` | packages/badger/internal/dnstap/dnstap.go:105-146 | READY, START and one such frame are a whole input that kills the process |
| `Dnstap.SessionMeaning` | packages/badger/internal/dnstap/dnstap.go:105-146 | on any input exactly the data frames between READY, START and the first STOP or fatal frame are dispatched, in order; FINISH is written if and only if it is a STOP, and the process dies if and only if it is a fatal frame |
| `Dnstap.OneFrameSession` | packages/badger/internal/dnstap/dnstap.go:105-146 | a whole connection byte by byte: READY, START, any short DNS message in field 10 of field 14, STOP, and anything after; ACCEPT and FINISH are written and its question is handed on |
| `Dnstap.OneQuestionSession` | packages/badger/internal/dnstap/dnstap.go:105-354 | the same for a spelled-out question: the callback gets the lower-cased label and the type of its two bytes |
| `Dnstap.Conn.ReadFrame` | packages/badger/internal/dnstap/dnstap.go:160-183 | reads the next frame of the specification and consumes exactly it |
| `Dnstap.Conn.ReadControl` | packages/badger/internal/dnstap/dnstap.go:187-193 | reads one frame and says whether it is the wanted control frame |
| `Dnstap.Conn.DispatchFrame` | packages/badger/internal/dnstap/dnstap.go:225-239 | calls back with the frame's question, once, or not at all |
| `Dnstap.Conn.DrainLoop` | packages/badger/internal/dnstap/dnstap.go:126-146 | the read loop ends and does what the frames of the unread bytes call for |
| `Dnstap.Conn.HandleClient` | packages/badger/internal/dnstap/dnstap.go:105-146 | the whole connection, handshake included, is the specified session |
| `Bundle.Disk.WriteFile` | packages/badger/internal/dnsagent/bundle.go:174-176 | the states of a write: partly written, whole, or neither; no other path changes |
| `Bundle.Disk.AtomicWrite` | packages/badger/internal/dnsagent/bundle.go:169-178 | the exact sequence of disk states; in each the target holds its whole old or whole new contents, and on failure only the temporary file differs |
| `Bundle.Disk.RemoveStale` | packages/badger/internal/dnsagent/bundle.go:188-204 | unwanted files with the suffix are gone and nothing else is touched, at every moment |
| `Bundle.Disk.WriteEntries` | packages/badger/internal/dnsagent/bundle.go:207-212 | the writes of all entries in some order, whichever the map yields, until one fails |
| `Bundle.Disk.SyncDir` | packages/badger/internal/dnsagent/bundle.go:184-213 | the directory holds exactly the wanted files, siblings without the suffix kept, in any map order |
| `Bundle.Disk.ApplyBundle` | packages/badger/internal/dnsagent/bundle.go:134-164 | which phase fails, and the exact state of every phase that was completed or not begun; on success every path is as expected; at every moment each path is old, new or absent |
| `Bundle.ApplyConverges` | packages/badger/internal/dnsagent/bundle.go:134-213 | from any disk a successful apply leaves exactly the bundle if and only if no ignored failure hit a file that had to go; unrelated siblings stay |
| `Bundle.IdealIsMaterialized` | packages/badger/internal/dnsagent/bundle.go:134-164 | that disk carries one engine's config, the zone files and the key files of the bundle and no others |
| `Bundle.MaterializedMeaning` | packages/badger/internal/dnsagent/bundle.go:134-164 | by file names: `config.toml` for hickory and `Corefile` for any other engine, never both; which files end in `.zone` |
| `Bundle.CollisionDependsOnOrder` | packages/badger/internal/dnsagent/bundle.go:169-213 | with colliding temporary names all entries survive a given order of writes if and only if none was written before the one whose temporary name it has |
| `Bundle.CleanNamesSafeInAnyOrder` | packages/badger/internal/dnsagent/bundle.go:207-212 | every order of the map keeps all entries if and only if no name is another's temporary name |
| `BundleAgent.Agent.ServerCycle` | packages/badger/internal/dnsagent/agent.go:95-129 | the etag moves exactly with a full apply; a poll with nothing new leaves etag and disk alone; what a failed apply leaves of the disk, phase by phase |
| `BundleAgent.Agent.ServerLoop` | packages/badger/internal/dnsagent/agent.go:74-93 | after any script of polls etag and bundle are those of the last full apply, and the disk is that bundle unless something went wrong since; nothing new, nothing changed |
| `BundleAgent.AstrayMeaning` | packages/badger/internal/dnsagent/agent.go:95-129 | going astray takes an apply that failed after the config, or ignored a failure, and no clean apply after it |
| `BundleAgent.Agent.CleanPoll` | packages/badger/internal/dnsagent/agent.go:95-129 | a poll without errors leaves the served bundle on disk, from any state, if and only if its etag is not the remembered one or it is there already |
| `BundleAgent.Agent.FailedThenReverted` | packages/badger/internal/dnsagent/agent.go:95-129 | after a failed apply and any script of polls that bring nothing but the earlier bundle: which failures leave that bundle on disk and which do not, exactly so where a directory cannot be made |
| `TopK.TallyIsExact` | packages/badger/internal/dnsagent/topk.go:21-41 | tracked are exactly the first 5000 distinct keys of the stream, each with its exact count |
| `TopK.TallyFills` | packages/badger/internal/dnsagent/topk.go:21-41 | until it is full the reservoir tracks every key |
| `TopK.SortByCount` | packages/badger/internal/dnsagent/topk.go:54-61 | the in-place sort leaves the same entries in descending order |
| `TopK.Reservoir.Record` | packages/badger/internal/dnsagent/topk.go:21-41 | one more query of one server; the others' streams are untouched |
| `TopK.Reservoir.Snapshot` | packages/badger/internal/dnsagent/topk.go:43-71 | min(100, size) distinct entries with exact counts, descending, none omitted that counts more; the server starts afresh |
| `PromText.LineRoundTrip` | packages/badger/internal/dnsagent/prom.go:95-123 | a rendered sample with any label texts reads back as its name, labels and value if and only if no text holds a comma, quote, backslash or line feed |
| `PromText.LineRead` | packages/badger/internal/dnsagent/prom.go:95-123 | name and value read back whatever the labels hold; without a readable value it is no sample |
| `PromText.RawMeaning` | packages/badger/internal/dnsagent/prom.go:116-120 | what is read for an escaped text: its escapes as they stand, less a quote at its end |
| `PromText.ParsePromLine` | packages/badger/internal/dnsagent/prom.go:94-123 | the trimming, cutting and label loop compute the specified reading of every line |
| `PromText.EntryRead` | packages/badger/internal/dnsagent/prom.go:95-123 | a sample reads the same with any margins and any gap with a space in it before its value, carriage returns and tabs included; comments and blank lines are no samples |
| `PromText.ItemMargins` | packages/badger/internal/dnsagent/prom.go:112-121 | so does a label with margins around it |
| `PromText.ExpositionSplits` | packages/badger/internal/dnsagent/prom.go:28-38 | the lines of a printed exposition are its entries, whatever its label texts hold |
| `PromText.SplitJoin` | packages/badger/internal/dnsagent/prom.go:28-38 | splitting distributes over joining with the separator |
| `PromMetrics.ParsePromText` | packages/badger/internal/dnsagent/prom.go:28-93 | the scan over the text's lines is the fold of their effects |
| `PromMetrics.CountersAreSums` | packages/badger/internal/dnsagent/prom.go:40-93 | on any text each counter is the sum of the truncated values of the lines with its literal series names, for responses by rcode in any case |
| `PromMetrics.BucketsAreSums` | packages/badger/internal/dnsagent/prom.go:84-92 | each bucket is the sum over the lines with that bound, and is there exactly if such a line is |
| `PromMetrics.TruncMeaning` | packages/badger/internal/dnsagent/prom.go:53-92 | values are cut off towards zero |
| `PromMetrics.ExpositionCounted` | packages/badger/internal/dnsagent/prom.go:28-93 | the same for a printed exposition in terms of its entries |
| `PromMetrics.FoldedConcat` | packages/badger/internal/dnsagent/prom.go:28-93 | parsing distributes over concatenation of lists of lines |
| `PromMetrics.TextConcat` | packages/badger/internal/dnsagent/prom.go:28-93 | and over texts joined by a line break |
| `PromMetrics.FoldedAnyOrder` | packages/badger/internal/dnsagent/prom.go:28-93 | the order of the lines does not matter |
| `PromMetrics.MergeStaysCumulative` | packages/badger/internal/dnsagent/prom.go:84-92 | adding up cumulative series over the same bounds gives a cumulative one |
| `PromMetrics.MergeCumulativeExactlyWhen` | packages/badger/internal/dnsagent/prom.go:84-92 | any two histograms over two sets of bounds add up to a cumulative one if and only if the sets are compatible |
| `Percentiles.PercentileFromBuckets` | packages/badger/internal/dnsagent/prom.go:129-161 | the percentile at the target count over the buckets sorted by bound, or none |
| `Percentiles.ListingUnique` | packages/badger/internal/dnsagent/prom.go:133-138 | the sorted listing does not depend on the map's order |
| `Percentiles.PercentileInBucket` | packages/badger/internal/dnsagent/prom.go:139-160 | a result lies between the bounds of the first bucket that reaches the target, and the empty-span branch is unreachable, monotone counts or not |
| `Percentiles.PercentileOnLine` | packages/badger/internal/dnsagent/prom.go:139-157 | there it is on the straight line between the bucket's bounds, in milliseconds |
| `Percentiles.NoPercentileExactlyWhen` | packages/badger/internal/dnsagent/prom.go:145-161 | there is none if and only if no bucket reaches the target or the first that does is infinite |
| `Percentiles.PercentileMonotone` | packages/badger/internal/dnsagent/prom.go:129-161 | a percentile that exists implies every lower one, and is at least as large |
| `Percentiles.P50BelowP95` | packages/badger/internal/dnsagent/agent.go:200-209 | the posted p50 exists whenever p95 does and is no larger |
| `MetricsLoop.Run` | packages/badger/internal/dnsagent/agent.go:145-164 | posts one delta per two successive successful scrapes |
| `MetricsLoop.PostsAreThePairs` | packages/badger/internal/dnsagent/agent.go:145-199 | each pair of successive successful scrapes has its post, in order and field by field, and nothing else is posted |
| `MetricsLoop.StretchConserves` | packages/badger/internal/dnsagent/agent.go:145-164 | over a failure-free stretch the deltas add up to last minus first if and only if the counter never went backwards, and never to less |
| `MetricsLoop.DeltasNonNegative` | packages/badger/internal/dnsagent/agent.go:237-242 | no delta is negative, resets or not |
| `MetricsLoop.FailureSeparates` | packages/badger/internal/dnsagent/agent.go:145-164 | what is posted after a failed scrape does not depend on anything before it |
| `MetricsLoop.NeverMoreThanGrowth` | packages/badger/internal/dnsagent/agent.go:145-164 | whatever scrapes fail, the deltas of a non-decreasing counter stay within its growth |
| `Alerts.DedupeKeyInjective` | packages/magpie/main.go:307 | different rules, assets or metrics never share a dedupe key |
| `Alerts.EvaluatedAt` | packages/magpie/main.go:304-361 | each reading decides about its key as it was before the evaluation |
| `Alerts.FiresExactlyWhen` | packages/magpie/main.go:300-381 | operator by operator: afterwards an alert fires if and only if the value compares so with the threshold and it fired already or there is a site scope and no covering window, ends included |
| `Alerts.OperatorLaws` | packages/magpie/main.go:164-171 | the six operators are the order, its reverse, their reflexive forms, equality and its negation |
| `Alerts.RowsAfter` | packages/magpie/main.go:304-361 | all columns of a key's rows afterwards: a new alert with the reading's data, the firing one seen again or resolved, everything else as it was |
| `Alerts.ReportedExactly` | packages/magpie/main.go:257-366 | a rule reports exactly the ids of the alerts that it made fire and that it resolved |
| `Alerts.PassReportsExactly` | packages/magpie/main.go:173-232 | so does a whole pass |
| `Alerts.CommittedExactly` | packages/magpie/main.go:190-220 | which rules of a pass take effect: a known operator and no failure |
| `Alerts.RulesCommute` | packages/magpie/main.go:257-365 | two rules give the same table in either order |
| `Alerts.PassAnyOrder` | packages/magpie/main.go:173-232 | a pass gives the same table in any order of its rules |
| `Alerts.Engine.EvalReading` | packages/magpie/main.go:304-361 | the row and the id that one reading inserts, touches or resolves |
| `Alerts.Engine.EvalOne` | packages/magpie/main.go:257-366 | all of a rule's writes and the exact fired and resolved ids, or nothing |
| `Alerts.Engine.EvaluateRules` | packages/magpie/main.go:173-232 | unknown operators skipped, failing rules without a trace; notified are, fires first, exactly the alerts that fire or are resolved in the table and did not or were not before |
| `AlertRuns.StepInv` | packages/magpie/main.go:286-365 | every step of the interleaved engine and operators keeps one firing alert per key and every pending statement valid |
| `AlertRuns.AtMostOneFiringAlways` | packages/magpie/main.go:257-365 | in every reachable state at most one alert of a key fires |
| `AlertRuns.RowsOnlyGrow` | packages/magpie/main.go:316-345 | a row appears only for a violating reading with a site scope, outside maintenance and with nothing firing; none disappears |
| `AlertRuns.CommitIsAtomic` | packages/magpie/main.go:286-365 | without operators a commit does what evaluating the rule in one go at that moment would do |
| `AlertRuns.Serialisable` | packages/magpie/main.go:173-232 | every interleaving equals evaluating the committed rules one after the other |
| `AlertRuns.AnyInterleavingAnyOrder` | packages/magpie/main.go:173-232 | and, when each rule commits once, in any order |
| `AlertRuns.EventsAlternate` | packages/magpie/main.go:300-365 | a key's committed events never report a fire while it fires and, without operators, alternate fire and resolve; they determine whether it fires |
| `AlertRuns.AlternatesExactlyWhen` | packages/magpie/main.go:300-365 | in every run, operators or not, the notified events alternate fire and resolve if and only if no dismissed alert fires again straight after |
| `AlertRuns.OperatorBreaksAlternation` | packages/magpie/main.go:316-345 | a run in which an alert fires, is dismissed and fires again |
| `AlertRuns.ResolveOverwritesOperator` | packages/magpie/main.go:352-359 | a run in which the resolving update follows an operator's write and overwrites it |
| `Refresh.StepInv` | packages/finch/src/lib/http.ts:19-64 | every step of every interleaving keeps the single shared refresh and each request's one retry |
| `Refresh.OneRefreshOutstanding` | packages/finch/src/lib/http.ts:19-64 | at most one refresh is outstanding and its promise is the shared one |
| `Refresh.SentAtMostTwice` | packages/finch/src/lib/http.ts:46-64 | a request is sent at most twice and awaits at most one refresh, resent exactly when that gave a token; refresh and login requests once |
| `Refresh.SameResult` | packages/finch/src/lib/http.ts:19-64 | all requests joined to one refresh get the same result |
| `Refresh.StoredIsLastWritten` | packages/finch/src/lib/http.ts:10-37 | in every run the stored token is the last one that a login, logout or refresh wrote |
| `Refresh.SentWithLastWritten` | packages/finch/src/lib/http.ts:10-64 | a request is sent, and sent again, with the token stored last, or for want of one with its refresh's |
| `Refresh.RetryCarriesTheNewToken` | packages/finch/src/lib/http.ts:22-64 | after a refresh that gave a token its requests are sent again, and later ones sent, with that token unless another was stored since |
| `Refresh.StartsARefresh` | packages/finch/src/lib/http.ts:46-58 | a refresh starts exactly on the first 401 of a request that is neither refresh nor login while none is outstanding |
| `Refresh.EndsAsItShould` | packages/finch/src/lib/http.ts:46-64 | a request whose refresh failed ends with its own 401 |
| `Refresh.EndsWithItsLastResponse` | packages/finch/src/lib/http.ts:39-87 | a request ends with the outcome of its last attempt |
| `Refresh.ExemptMeaning` | packages/finch/src/lib/http.ts:47-53 | exempt are the paths that end in `/auth/refresh` or `/auth/login` |
| `Refresh.RunsAreShort` | packages/finch/src/lib/http.ts:19-64 | a run has at most six steps a request |
| `Refresh.NoDeadlock` | packages/finch/src/lib/http.ts:19-64 | while a request has not ended some step is possible, so every request ends |
| `Refresh.Client.Start` | packages/finch/src/lib/http.ts:10-14 | a request is sent with the stored token, if there is one |
| `Refresh.Client.OnResponse` | packages/finch/src/lib/http.ts:40-59 | the interceptor up to its await is the model's step |
| `Refresh.Client.OnRefreshReply` | packages/finch/src/lib/http.ts:22-37 | the refresh's answer is stored, or counts as none |
| `Refresh.Client.OnFinally` | packages/finch/src/lib/http.ts:55-57 | the shared promise is cleared |
| `Refresh.Client.OnResume` | packages/finch/src/lib/http.ts:58-64 | the retry with the new token, or the original error |
| `Csv.TrimMeaning` | packages/finch/src/lib/csv.ts:84-88 | trimming removes all space at both ends and nothing else |
| `Csv.TrimSplits` | packages/finch/src/lib/csv.ts:84-88 | every text is its trimmed form between space |
| `Csv.SpaceCodes` | packages/finch/src/lib/csv.ts:84-88 | which characters are trimmed, code by code |
| `Csv.DropTrailingMeaning` | packages/finch/src/lib/csv.ts:76-81 | exactly the trailing records of a single empty field are dropped |
| `Csv.ParsePrinted` | packages/finch/src/lib/csv.ts:15-81 | parsing any printed RFC 4180 document, with bare text around quotes and carriage returns in bare text as well, gives its records back, if and only if it has a mark or does not start with one |
| `Csv.RowColumns` | packages/finch/src/lib/csv.ts:85-91 | a column's value is the trimmed field there, empty in a short row; of equal names the last counts |
| `Csv.RowKeys` | packages/finch/src/lib/csv.ts:85-91 | a row object has exactly the header's names |
| `Csv.TableOfPrinted` | packages/finch/src/lib/csv.ts:15-93 | header and rows of a printed document are its trimmed fields by column |
| `Csv.ParseRecords` | packages/finch/src/lib/csv.ts:15-81 | the scanner loop computes the specified records on every text |
| `Csv.ParseCsv` | packages/finch/src/lib/csv.ts:15-93 | and the whole parser the specified table |
| `Latency.RingFull` | packages/loadgen/latency.go:22-28 | a full ring is its most recent 4096 durations, rotated to the write position |
| `Latency.RingHoldsReservoir` | packages/loadgen/latency.go:56-66 | the copied slots are the most recent durations plus exactly min(s+e,4096)-min(s,4096) zeros |
| `Latency.ReportOrdered` | packages/loadgen/latency.go:71-90 | p50 <= p95 <= p99 <= max, and max bounds every recent duration |
| `Latency.ReportMeaning` | packages/loadgen/latency.go:56-90 | the reported counts, and p50, p95, p99 and max as the reservoir's elements of ranks 1/2, 19/20, 99/100 and last |
| `Latency.PercentileHasRank` | packages/loadgen/latency.go:71-82 | at most i elements are smaller than a percentile and more than i no larger, i being p of the way to the last, rounded down |
| `Latency.ErrorsCountAsZeros` | packages/loadgen/latency.go:30-35 | errors leave the reservoir alone if and only if there are none or it is full of durations |
| `Latency.PercentileZeroIff` | packages/loadgen/latency.go:56-90 | with positive durations a percentile is zero exactly when its rank falls among the errors |
| `Latency.Tracker.RecordDuration` | packages/loadgen/latency.go:22-28 | the array holds the ring of one more duration |
| `Latency.Tracker.RecordError` | packages/loadgen/latency.go:30-35 | counts without moving the ring |
| `Latency.Tracker.RecordBytes` | packages/loadgen/latency.go:37-41 | adds to the byte count only |
| `Latency.Tracker.Report` | packages/loadgen/latency.go:56-90 | the percentiles are those of the sorted reservoir |

## Left out

- `Pipeline.NoLoss`: process crashes and restarts are steps, power loss is not, because the database runs with `synchronous(NORMAL)`; ids are unbounded integers.
- `Pipeline.ExactMultiplicity`: takes the batch ids to be fresh, which in the code rests on random UUIDs (`Pipeline.LoopIsARun` says on what of them); a write that is committed though reported as failed is a step of the model.
- `Forwarder.PostedBatchIsAcceptable`: heron's decoder also refuses an asset id that is no UUID or a timestamp that is no RFC 3339 time; buffered samples are not checked for that.
- `Heron.Server.HandleIngest`: authentication, JSON and body limits are inputs (authorized or not, a decoded batch or none); the two writes go to separate tables, so running them concurrently is modelled as one after the other.
- `SampleBuffer.Buffer.Drain`: JSON text is not modelled; a stored payload either decodes to the sample that was stored or to an empty one.
- `Protobuf.FindMeaning`: for messages shorter than 2^63 bytes.
- `DnsQuestion.QuestionRoundTrip`: lower-casing is bytewise for ASCII names and an uninterpreted function for others.
- `Bundle.Disk.ApplyBundle`: names with path separators, sub-directories, permissions and power loss; outside writers to the output directory.
- `BundleAgent.Agent.ServerLoop`: an ignored failure counts as going astray even if it hit no file that had to go, which `Bundle.ApplyConverges` tells apart; bundles in which one name is another plus ".tmp" are excluded, as `Bundle.CleanNamesSafeInAnyOrder` shows they have to be; status reports and reload signals.
- `PromMetrics.ParsePromText`: the text-to-float parser of values and `le` labels is a parameter; upper-casing is that of ASCII.
- `PromText.LineRoundTrip`: samples without the format's optional timestamp, and label lists with distinct names, as the format requires them.
- `Percentiles.PercentileFromBuckets`: bounds and counts are exact reals and integers; no rounding and no NaN bound.
- `MetricsLoop.Run`: the top names and the HTTP post are not part of it.
- `Alerts.Engine.EvalOne`: where several rows fire for a key the last is taken, which `AlertRuns.AtMostOneFiringAlways` makes immaterial; summaries and labels of an alert are not stored; a failed lookup aborts the transaction like any failed statement.
- `AlertRuns.EventsAlternate`: a statement takes effect at its transaction's commit, so an operator's write between statement and commit is allowed although the row lock would delay it.
- `Refresh.SentAtMostTwice`: assumes that `http.request` keeps the `_retried` flag; the reshaping of rejected errors is not modelled.
- `Refresh.RunsAreShort`: with `Refresh.NoDeadlock` it gives that every request ends, provided the server answers every call.
- `Csv.ParseRecords`: text is a sequence of UTF-16 code units; a column named `__proto__` is not modelled.
- `Latency.Tracker.Report`: the rank is the floor of an exact product, and byte counts do not overflow.
- Collector liveness (`sweepCollectors`): it runs outside a transaction and takes any lookup error for "no alert", so its guarantees would need lookups that do not fail.
- Heartbeats and runtime overrides, the prober and device drivers, the load sender and the Prometheus counters: settled by one branch each.
- Capability matching and address classification: short pure checks.
- SQL, HTTP, TLS, sockets, signals and `/proc` scanning: replaced by tables, sequences and outcomes.
- React pages and the otter-go backend are not part of this model.
