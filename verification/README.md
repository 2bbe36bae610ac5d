# Shadiff behaviour, modelled and verified in Dafny

Shadiff records HTTP traffic together with the database side effects it causes, replays the
recorded requests against another target, and compares the two. This project models the parts
of it whose correctness is decided in code, and proves what they promise. Every file is one
module; `dafny verify dfyconfig.toml` checks the whole project.

- **Semantic JSON comparison.** `JsonDiffer` is the differ as loops and in-place marking, proved
  equal to the specification in `JsonDiff`. `Matching`, `JsonEquivalence`, `JsonPatch` and `JsonTruth`
  prove about that specification that unordered comparison decides equality up to permutation of
  arrays, that its greedy pairing is a maximum matching, that the ordered report is a patch, and
  that every entry is true of the two values.
  (`doc/src/internal/diff/json.go.plan.md:58` doubts that the greedy pairing is optimal. For the
  relation the code uses, no differences, it is, because that relation is an equivalence.)
- **Side-effect delivery.** `Forwarder` (a hook's forwarding goroutine and WaitDrained) and
  `Recorder` (collector, request scopes, flush handshake, racing finishes) are state machines
  over atomic steps with history variables (`Runs` is the theory of runs); `Pipeline` composes any number of forwarders, the
  recorder and request handlers, and `PipelineWitness` exhibits one complete run of it. `Attribution`
  and `RecorderObject` are the recorder's sequential code, which `SequentialFinish` shows to be a
  run of the machine; `HookGroup` is the group flush.
- **From bytes to records.** `FlushHandshake` is a hook's flush over its connections as a state
  machine, `HookTraffic` adds the chunks, the parser and the effects offered one by one, and
  `CapturePath` composes any number of such hooks with the delivery path: what had been read when
  a handler's flush began is accounted for in its record. `SniffedRecords` says this of the
  one-shot parse of the bytes, and `CaptureWitness` is a run that meets all suppositions.
- **Wire parsers.** `Framing` is the theory of a buffer from which frames are cut as bytes
  arrive. `MysqlParser`, `PostgresParser`, `RedisParser`, and `Bson` with `MongoParser` are the
  parsers, as classes whose loops are proved against a frame cutter; `Utf8` and `RedisArgs` are how
  Redis names and arguments become text, `RedisStreams` proves what is promised of whole Redis
  streams, and `RedisRoundTrip`, `BsonRoundTrip` and `MongoRoundTrip` add the encoders of Redis
  requests (arrays and inline lines), BSON and OP_MSG. `Sniffer` is the relay loop that feeds a parser, and `SniffedTraffic` joins
  it with each of the four parsers. `Endian` and `AsciiText` hold integers in wire order and
  words in text.
- **Replay.** `ReplayWindows` attaches side effects to replayed requests; `WorkerPool` is the
  retry loop and the pool under any schedule; `BodyCapture` follows a request body from the
  client through capture, artifact and replay.
- **Verdict.** `SideEffectDiff` compares side effects; `DiffEngine` pairs originals with
  replays, applies rules in place, truncates, summarises and decides the failure policy;
  `RecordComparison` collects the differences of a pair in status, headers, body and side effects
  and says what the verdict means for the two; `ErrorVerdict` says what each entry tells of the
  records, and what passing on errors means for them, and `ReportText` how places in a body are
  written. `HeaderText` is how headers are compared,
  `PathPatterns` how rules find paths, `JsonTolerance` what a report means when some of it is
  tolerated, and `DefaultRules` joins these for the engine as `NewEngine` configures it without
  rules of the user's own. `Records` holds the records.

Reads, writes, file operations, timestamps, schedules, room in channels and cancellation are
inputs, and every statement is for all of them. Integers are those of a 64-bit platform. JSON
numbers, all of them 64-bit floats after parsing, are reals that are only compared for equality.

These expected properties do not hold of the code, and the project says exactly when they do.

- A malformed stream is parsed independently of chunking only if nothing before its last byte is
  rejected: for Postgres and Mongo on every stream (`SplittingSafeIffWellFramed`), for Redis on
  every stream without oversized commands (`SplittingSafeIffNotMalformed`). What precedes the
  malformed part is captured under every split (`OneShotIsPrefix`).
- The Redis parser panics on a bulk length whose end exceeds 64 bits and on a count that cannot
  be allocated (`PanicsIff`, with `LargestLengthPanics` and `LargestCountPanics` as inputs), under
  every split (`PanicIsCertain`); what is proved of Redis streams is proved where no call panics.
- A negative int32 does not survive the BSON reader (`Int32RoundTripsIffNotNegative`).
- Truncation can turn the outcome of `--fail-on error`: it depends on the differences kept as
  `ErrorVerdictIff` says, is unaffected exactly as `ErrorVerdictKeptIff` says, and
  `TruncationFlipsErrorVerdict` is a session that flips.
- A request body over the preview limit whose artifact was not saved is replayed as its preview
  (`BodyCapture.RoundTrip`).
- Headers whose values differ may count as equal (`UnequalHeadersMatch`): lists of values are
  told apart exactly by their pieces between spaces (`PrintedAlikeIff`), and every change shows
  exactly if the expected values are single, not empty and without spaces
  (`AgreeingIsEqualIffPlain`).
- `[*]` in a path pattern is documented (`internal/diff/rules.go:94`,
  `doc/implementation.plan.md:264`) to match array indices; it matches whatever has no dot
  (`BracketsMatchIff`).
- Unequal Redis arguments may be reported alike, exactly as `ReportedAlikeIff` says.
- Two places of a body may be written alike, if a field name holds a dot or a bracket
  (`PlainPlacesDiffer`, `OtherPlacesMayNotDiffer`).
- A Redis command over the buffer limit may be lost (`OversizedIsLost`, `StreamSafeIffFits`).

## Model

| member | source | states |
|---|---|---|
| `JsonDiffer.CompareValues` | internal/diff/json.go:51-99 | reports exactly the differences of the specification: one for differing types, else those of the fields, the elements or the two scalars |
| `JsonDiffer.CompareObjects` | internal/diff/json.go:102-150 | goes through the union of the keys in sorted order; missing and extra fields are reported, common ones compared |
| `JsonDiffer.CompareArrays` | internal/diff/json.go:153-181 | the length difference, then the elements of the common prefix by index, or the unordered comparison |
| `JsonDiffer.CompareArraysUnordered` | internal/diff/json.go:184-227 | the in-place marking of used elements computes the greedy pairing; what is left over on either side is reported |
| `JsonDiffer.FindUnused` | internal/diff/json.go:188-206 | the inner loop finds the first unused element that compares without difference, or none |
| `KeyOrder.SortStrings` | internal/diff/json.go:102-120 | the keys in strictly ascending order, each once |
| `KeyOrder.LessIff` | internal/diff/json.go:113-117 | the order of two keys is decided at the first character in which they differ, a prefix coming first |
| `JsonEquivalence.PermEqReflexive` | internal/diff/json.go:184-227 | equality up to recursive permutation of arrays is reflexive at every depth |
| `JsonEquivalence.PermEqSymmetric` | internal/diff/json.go:184-227 | it is symmetric |
| `JsonEquivalence.PermEqTransitive` | internal/diff/json.go:184-227 | it is transitive |
| `JsonEquivalence.UnorderedZeroIffPermEq` | internal/diff/json.go:51-227 | with order ignored, nothing is reported exactly when the values are equal up to recursive permutation of arrays |
| `JsonEquivalence.OrderedZeroIffEqual` | internal/diff/json.go:51-181 | with order kept, nothing is reported exactly when the values are equal |
| `JsonEquivalence.UnorderedCounts` | internal/diff/json.go:184-227 | the report has as many not-found and extra entries as elements the greedy pairing leaves over on each side |
| `JsonEquivalence.UnorderedReportIsMinimal` | internal/diff/json.go:184-227 | no pairing of equal elements whatever leaves fewer expected or fewer actual elements over: greedy is a maximum matching |
| `JsonEquivalence.UnorderedReportIgnoresOrder` | internal/diff/json.go:184-227 | reordering both arrays changes neither count |
| `JsonTruth.DiffsAreTrue` | internal/diff/json.go:51-227 | every entry is true of the two values, found by walking them along its path: the expected and actual value there, or that there is none on one side, or the two array lengths, expected first, and what is said to differ does |
| `JsonTruth.UnreportedIsPaired` | internal/diff/json.go:184-227 | with order ignored: the expected elements are, as a multiset, the not-found values and the left sides of pairs of equals, the actual ones the extra values and the right sides |
| `JsonTruth.ObjectReportIsOrdered` | internal/diff/json.go:113-147 | the entries of two objects come in the order of field names |
| `JsonTruth.ArrayReportIsOrdered` | internal/diff/json.go:153-181 | those of two arrays in the order of indices, behind the one about their lengths |
| `Matching.GreedyIsMaximum` | internal/diff/json.go:190-214 | for a relation that can be exchanged along (as an equivalence can), first-fit pairing is a maximum matching |
| `Matching.GreedyPerfectIffPermutation` | internal/diff/json.go:190-214 | it pairs everything exactly when a permutation does |
| `JsonPatch.OrderedReportIsPatch` | internal/diff/json.go:51-181 | applying the ordered report to the expected value gives the actual one exactly when corresponding arrays have equal length |
| `JsonPatch.PatchIsMerge` | internal/diff/json.go:51-181 | in general it gives the actual value with the array lengths of the expected one |
| `JsonPatch.MergeIsActualIffAligned` | internal/diff/json.go:51-181 | that merge is the actual value exactly when all corresponding arrays have equal length |
| `JsonPatch.AlignedReportIsPrefixFree` | internal/diff/json.go:51-181 | then no reported path is a prefix of another |
| `JsonPatch.NoErrorsIffExtends` | internal/diff/json.go:102-181 | no error is reported exactly when the actual value only adds fields to the expected one |
| `JsonPatch.NoErrorsIffExtendsUnordered` | internal/diff/json.go:102-227 | with order ignored: no error exactly when it only adds fields to objects outside arrays, and arrays are equal up to permutation |
| `JsonPatch.ArraysNoErrors` | internal/diff/json.go:153-227 | so arrays of other lengths, or with an element that is not found, are errors |
| `JsonPatch.ElementSeverities` | internal/diff/json.go:208-225 | a missing element is an error, an extra one a warning |
| `Forwarder.NothingLostOrReordered` | internal/capture/dbhook/hook.go:56-80 | in every interleaving what was enqueued is what was sent, then what cancellation gave up, then what is held, then what is queued; nothing is given up without cancellation |
| `Forwarder.WaitDrainedDelivers` | internal/capture/dbhook/hook.go:83-132 | once WaitDrained has returned nil without cancellation, all that was enqueued before the call is in the sink, in order |
| `Forwarder.ReadsAloneAreNotEnough` | internal/capture/dbhook/hook.go:60-64 | a reachable state in which both reads see nothing while an effect is undelivered |
| `Forwarder.CancelledWaitMayLose` | internal/capture/dbhook/hook.go:98-104 | a reachable nil return after cancellation with an effect undelivered |
| `Forwarder.InvKept` | internal/capture/dbhook/hook.go:56-132 | each single step of the forwarder or of a waiting call keeps the invariant behind these |
| `HookGroup.Flush` | internal/capture/dbhook/hook.go:153-166 | all hooks and all forwarders are flushed; the first error is returned; nil exactly when none failed (CapturePath.FlushOkIffNoError ties this to the delivery path) |
| `HookGroup.FirstErrorIsFirst` | internal/capture/dbhook/hook.go:153-166 | the returned error is the one no other error comes before |
| `Attribution.FindScopeForEffect` | internal/capture/recorder.go:211-232 | whatever order the map is walked in: none when no scope has started by the timestamp and not been closed before it; else such a scope, and every other such scope has started earlier, or at the same time with a smaller ID |
| `Attribution.ChosenStartedLast` | internal/capture/recorder.go:211-232 | the same of the specification that the state machine uses |
| `Attribution.BestIsUnique` | internal/capture/recorder.go:211-232 | that scope is unique |
| `Recorder.InvKept` | internal/capture/recorder.go:55-202 | every step of a caller, the collector or Stop keeps the recorder's invariant |
| `Recorder.EffectsAreConserved` | internal/capture/recorder.go:143-202 | every delivered effect is handled, held or in the channel; the handled ones are dropped, or in exactly one open scope or finished record, in channel order |
| `Recorder.OneRecordPerScope` | internal/capture/recorder.go:67-96 | racing finishes hand over at most one record for a scope |
| `Recorder.FlushPrecedesHandOver` | internal/capture/recorder.go:160-179 | what was queued before a finish's flush handshake has been handled before the scope's effects are read, unless the recorder was stopped |
| `Recorder.AttributionRespectsBounds` | internal/capture/recorder.go:211-232 | an attributed effect is not older than its scope, and not newer than closedAt if the scope was closed when it was assigned |
| `Recorder.RecordedScopeClaims` | internal/capture/recorder.go:181-232 | an effect handled while a scope was open and within its times goes to it, or to a scope that started later, or at the same time with a greater ID |
| `Recorder.RecordsKeepOrder` | internal/capture/recorder.go:181-202 | of two effects assigned to a scope ahead of its record the one handled first comes first in the record |
| `RecorderObject.Recorder.BeginRequestScope` | internal/capture/recorder.go:55-64 | a fresh ID and an open scope with no effects; other scopes unchanged |
| `RecorderObject.Recorder.AssignSideEffect` | internal/capture/recorder.go:181-202 | the effect is appended to the best scope, or to none; nothing else changes |
| `RecorderObject.Recorder.DrainSideEffects` | internal/capture/recorder.go:170-179 | the channel is emptied and its effects assigned in order |
| `RecorderObject.Recorder.FinishRequestScope` | internal/capture/recorder.go:67-96 | called without interference (SequentialFinish makes it a run of the concurrent recorder): the record holds the scope's effects, those queued included, and the scope is gone; an unknown scope is an error |
| `SequentialFinish.FinishIsARun` | internal/capture/recorder.go:67-96 | with the collector idle, the machine of interleaved steps has a run to the scopes, the queue and the record in which that method ends |
| `SequentialFinish.NotFoundIsARun` | internal/capture/recorder.go:73-78 | and one to the failure of a call that does not find its scope, which changes none of them |
| `RecorderObject.AssignAllAppends` | internal/capture/recorder.go:170-202 | assigning a sequence appends to each scope its own effects in order |
| `Pipeline.FlushedEffectsAreNotOrphaned` | internal/capture/proxy.go:126-170 | whole path: if the group flush returned nil and neither the recorder was stopped nor a forwarder cancelled, every effect in a hook channel before the flush has been handled before the record was made, and if that was within the scope and its times it is in the record, or went to a scope that started later, or at the same time with a greater ID |
| `Pipeline.HandledAtMostOnce` | internal/capture/dbhook/hook.go:56-80 | in every interleaving no effect is handled twice |
| `Pipeline.InvKept` | internal/capture/proxy.go:126-170 | every step of forwarders, recorder and request handlers keeps the invariant behind both |
| `PipelineWitness.EffectIsRecorded` | internal/capture/proxy.go:126-170 | a complete reachable run that meets all of those suppositions and records its effect |
| `HookTraffic.HookInvKept` | internal/capture/dbhook/tcp_proxy.go:125-225 | every step of a hook's connections keeps: fates are known for exactly the effects offered, and effects in the channel and effects offered with room stand for each other one to one |
| `CapturePath.InvKept` | internal/capture/proxy.go:126-170 | every step of connections, parsers, hook flushes, forwarders, recorder and handlers keeps the invariant of the whole machine |
| `CapturePath.FlushOkIffNoError` | internal/capture/dbhook/hook.go:153-166 | once flushed, all hooks and forwarders have returned, and the delivery path's success is that the first error of the group flush is nil |
| `CapturePath.NeverOffersWhenClosed` | internal/capture/dbhook/tcp_proxy.go:115-123 | no effect is offered to a hook's channel after it has been closed |
| `CapturePath.ReadBeforeFlushIsAccounted` | internal/capture/proxy.go:126-170 | in every interleaving, each effect of each chunk that a connection had read when a handler's group flush began was dropped for want of room, or is in the record, or lies outside the scope's times, or went to a scope that started later, or at the same time with a greater ID; supposing a nil flush, no stop or cancellation, and no failed write on that connection |
| `SniffedRecords.FoundIsAccounted` | internal/capture/dbhook/tcp_proxy.go:172-225 | so is every effect that the hook's parser finds in those chunks |
| `SniffedRecords.BytesBeforeFlushAreAccounted` | internal/capture/dbhook/tcp_proxy.go:172-225 | and these are the effects of the one-shot parse of the bytes, for every stream that the strict cutter accepts |
| `SniffedRecords.MySqlStatementsAreAccounted` | internal/capture/proxy.go:126-170 | so is each statement of MySQL packets that had been read, however they were fragmented |
| `SniffedRecords.PostgresStatementsAreAccounted` | internal/capture/proxy.go:126-170 | each statement of a Postgres startup message and messages |
| `SniffedRecords.RedisCommandsAreAccounted` | internal/capture/proxy.go:126-170 | each reported command of Redis commands that fit the buffer limit |
| `SniffedRecords.MongoCommandsAreAccounted` | internal/capture/proxy.go:126-170 | each command of Mongo messages |
| `CaptureWitness.ChunkIsRecorded` | internal/capture/proxy.go:126-170 | a complete run meeting all those suppositions in which the flush begins while a chunk is read and not yet fed, and its effect is in the record |
| `Framing.RunSplit` | internal/capture/dbhook/mysql.go:36-69 | parsing a stream in two parts: the second goes on from the first's remainder |
| `Framing.ChunkingIsIrrelevant` | internal/capture/dbhook/tcp_proxy.go:172-181 | for a frame cutter whose verdicts more bytes do not change, every way of cutting a stream into Feed calls gives its one-shot parse |
| `Framing.OneShotIsPrefix` | internal/capture/dbhook/redis.go:56-71 | on any stream, however malformed, every cutting captures first what precedes the first rejected frame |
| `Framing.SplitSafeIffNotRejectedEarly` | internal/capture/dbhook/postgres.go:36-98 | all cuttings agree with the one-shot parse exactly when no frame is rejected before the last byte |
| `Framing.OneFrameSplitSafeIffFits` | internal/capture/dbhook/redis.go:68-70 | all cuttings of a single frame agree exactly when it is at most one byte over the buffer limit |
| `Framing.DeathIsCertain` | internal/capture/dbhook/redis.go:47-72 | a rejection that ends everything is met by every way of cutting the stream, if nothing is rejected before it |
| `MysqlParser.Parser.Feed` | internal/capture/dbhook/mysql.go:36-69 | the buffer loop emits and leaves what the specification does |
| `MysqlParser.ChunkingIsIrrelevant` | internal/capture/dbhook/mysql.go:36-69 | framing independent of chunking over streams whose headers announce at most 2^24 - 3 bytes |
| `MysqlParser.FragmentedRoundTrip` | internal/capture/dbhook/mysql.go:41-62 | encoded packets, fragmented in any way, yield in order exactly what follows the first byte of those whose first byte is 3 or 22 |
| `MysqlParser.SplittingSafeIffBounded` | internal/capture/dbhook/mysql.go:65-67 | a single packet survives every split exactly when its payload has at most 2^24 - 3 bytes |
| `PostgresParser.Parser.Feed` | internal/capture/dbhook/postgres.go:36-98 | the loop with its startup state computes the specification, and its final discard is unreachable |
| `PostgresParser.ExtractNullTermString` | internal/capture/dbhook/postgres.go:100-107 | the bytes before the first NUL, or all of them |
| `PostgresParser.NullTermIndex` | internal/capture/dbhook/postgres.go:109-116 | the index of the first NUL, or -1 |
| `PostgresParser.NothingOverLimit` | internal/capture/dbhook/postgres.go:94-96 | the over-limit discard never changes anything |
| `PostgresParser.SplittingSafeIffWellFramed` | internal/capture/dbhook/postgres.go:40-72 | all splits agree exactly when no length before the last byte is out of range |
| `PostgresParser.MalformedDependsOnSplit` | internal/capture/dbhook/postgres.go:65-68 | a malformed message followed by one byte is parsed differently under different splits |
| `PostgresParser.OneShotIsPrefix` | internal/capture/dbhook/postgres.go:36-98 | on any stream every split captures first what the one-shot parse captures |
| `PostgresParser.FragmentedRoundTrip` | internal/capture/dbhook/postgres.go:36-98 | a startup message and any messages, fragmented in any way, yield in order the texts of messages of type 0x51, and of type 0x50 behind the name, that are not empty |
| `PostgresParser.OutOfRangeIsDiscarded` | internal/capture/dbhook/postgres.go:44-68 | a length below 4 (at startup 8) or above 2^24 discards all that is buffered |
| `PostgresParser.UnterminatedText` | internal/capture/dbhook/postgres.go:74-89 | a statement without its NUL is taken whole; a Parse message without the NUL behind its name holds none |
| `RedisParser.Parser.Feed` | internal/capture/dbhook/redis.go:47-72 | the buffer loop reports the commands, and leaves the bytes, that the specification does, or panics when it does; it terminates |
| `RedisParser.ParseRedisCommand` | internal/capture/dbhook/redis.go:74-82 | the results report the verdict on the front of the buffer, or the call panics when the verdict says so |
| `RedisParser.ParseRedisArrayCommand` | internal/capture/dbhook/redis.go:84-129 | array parsing reports that verdict: incomplete, malformed, skipped, complete with its parts, or a panic when the count cannot be allocated or an end overflows |
| `RedisParser.ParseBulkStrings` | internal/capture/dbhook/redis.go:95-129 | the loop over the items does, for the items that remain |
| `RedisParser.ParseBulkString` | internal/capture/dbhook/redis.go:98-125 | one item at a position: partial, broken, its size and bytes, or an end beyond 64 bits |
| `RedisParser.ConsumesWithinBuffer` | internal/capture/dbhook/redis.go:52-66 | every complete parse, malformed ones included, consumes between 1 and len(data) bytes, and an incomplete one none |
| `RedisParser.BuildRedisCommand` | internal/capture/dbhook/redis.go:150-171 | a command without parts, or whose name is blank or no UTF-8, is not reported; otherwise its name trimmed and in upper case, and its arguments as text |
| `Utf8.ValidIffEncoded` | internal/capture/dbhook/redis.go:151 | which they are exactly when they encode some Unicode characters |
| `Utf8.Examples` | internal/capture/dbhook/redis.go:151 | characters of one to four bytes are text; overlong, surrogate, too great, bare and cut off ones are not |
| `RedisArgs.Base64RoundTrip` | internal/capture/dbhook/redis.go:173-178 | the base64 of an argument that is no text gives its bytes back |
| `RedisArgs.ReportedAlikeIff` | internal/capture/dbhook/redis.go:173-178 | two arguments are reported alike exactly when they are equal, or one is no text and the other is what that one is reported as |
| `RedisArgs.UnequalReportedAlike` | internal/capture/dbhook/redis.go:173-178 | two unequal arguments that are reported alike |
| `RedisParser.ParseRedisInlineCommand` | internal/capture/dbhook/redis.go:131-148 | an inline command is the words of its line; a blank line is skipped (RedisRoundTrip.LineIsReported says what is reported) |
| `RedisStreams.ChunkingIsIrrelevant` | internal/capture/dbhook/redis.go:47-72 | chunk independence for well-formed streams whose commands fit the buffer limit |
| `RedisStreams.OneShotIsPrefix` | internal/capture/dbhook/redis.go:47-72 | on any stream, every split in which no call panics captures first what precedes the first malformed or oversized command |
| `RedisStreams.SplittingSafeIffNotMalformed` | internal/capture/dbhook/redis.go:101-121 | without oversized commands and without a panicking length, all splits agree exactly when nothing is malformed before the last byte |
| `RedisStreams.MalformedDependsOnSplit` | internal/capture/dbhook/redis.go:101-103 | a six-byte stream, malformed before its last byte, that two splits parse differently |
| `RedisStreams.PanicsIff` | internal/capture/dbhook/redis.go:90-118 | the front of a buffer panics exactly when it is an array header with a count that cannot be allocated, or a bulk header reached over complete items puts the end beyond 64 bits |
| `RedisStreams.LargestLengthPanics` | internal/capture/dbhook/redis.go:110-118 | the input that shows it for a length |
| `RedisStreams.LargestCountPanics` | internal/capture/dbhook/redis.go:90-96 | the input that shows it for a count |
| `RedisStreams.PanicIsCertain` | internal/capture/dbhook/redis.go:47-72 | no split escapes such a header if nothing before it is malformed or oversized |
| `RedisStreams.ModestNeverPanics` | internal/capture/dbhook/redis.go:90-118 | no split panics when every decimal number in the stream can be allocated |
| `RedisRoundTrip.FragmentedRoundTrip` | internal/capture/dbhook/redis.go:47-171 | arrays of bulk strings and inline lines in any order, each at most 1 MiB + 1 encoded, are reported one by one under every fragmentation: name trimmed and in upper case, and arguments; not those whose name is blank or no UTF-8, nor blank lines |
| `RedisRoundTrip.LineIsReported` | internal/capture/dbhook/redis.go:131-148 | a line of words with blanks between and around them is one command under every fragmentation: the first word in upper case, with the other words as arguments |
| `RedisRoundTrip.TextsAreReported` | internal/capture/dbhook/redis_parse_test.go:9-31 | a command of texts named in upper case is reported as it went in |
| `RedisRoundTrip.FragmentationSafeIffFits` | internal/capture/dbhook/redis.go:68-70 | one command survives every fragmentation exactly when it is at most one byte over 1 MiB encoded |
| `RedisRoundTrip.OversizedIsLost` | internal/capture/dbhook/redis.go:68-70 | behind commands that fit and before any bytes whatever, a command of more than 1 MiB + 2 is parsed in one piece and lost under a split, which changes nothing else |
| `RedisRoundTrip.StreamSafeIffFits` | internal/capture/dbhook/redis.go:68-70 | a stream of reported commands, none of exactly 1 MiB + 2, survives every fragmentation exactly when all of them fit |
| `RedisRoundTrip.BadCountIsSkipped` | internal/capture/dbhook/redis.go:90-93 | an array header whose count is no number, negative or zero is skipped |
| `RedisRoundTrip.BadItemDiscards` | internal/capture/dbhook/redis.go:101-103 | an item that is no bulk string discards all that is buffered |
| `RedisRoundTrip.BadLengthDiscards` | internal/capture/dbhook/redis.go:110-113 | so does a length that is no number |
| `RedisRoundTrip.BadEndDiscards` | internal/capture/dbhook/redis.go:119-121 | and an item without a line end where its length says |
| `Framing.FrameIsLost` | internal/capture/dbhook/redis.go:68-70 | the same for any cutter: a frame that is incomplete and over the limit but for a meaningless end is lost when that end comes by itself |
| `RedisStreams.AtoiOfItoa` | internal/capture/dbhook/redis_parse_test.go:19-31 | a length written in decimal is read back |
| `AsciiText.TrimmedEmptyIffNoFields` | internal/capture/dbhook/redis.go:137-142 | a line trims to nothing exactly when it has no word |
| `AsciiText.FieldsOfSpread` | internal/capture/dbhook/redis.go:142 | words spread out with any blanks between and around them are split into exactly these words |
| `Bson.SimpleBsonToMap` | internal/capture/dbhook/mongo.go:146-236 | on arbitrary bytes the reader stays in bounds, recurses on strictly shorter slices, and computes the specified map |
| `Bson.ReadValue` | internal/capture/dbhook/mongo.go:176-232 | one element's value, by type: reading stops, skips it, or binds it |
| `BsonRoundTrip.DecodeEncoded` | internal/capture/dbhook/mongo_parse_test.go:12-48 | decoding an encoded document of strings, documents, arrays, integers, booleans, nulls, doubles and ObjectIds gives its map |
| `BsonRoundTrip.LastBindingWins` | internal/capture/dbhook/mongo.go:176-232 | a key is bound by its last element of a bound type, and unbound when it has none: doubles and ObjectIds disturb nothing |
| `BsonRoundTrip.UnsupportedTypeEndsMap` | internal/capture/dbhook/mongo.go:230-232 | an element of any other type ends the map there |
| `BsonRoundTrip.CutDocument` | internal/capture/dbhook/mongo.go:160-228 | a document that breaks off inside an element, at whatever byte, gives the map of the elements before it |
| `BsonRoundTrip.OpenDocument` | internal/capture/dbhook/mongo.go:156-160 | one that lacks only its last byte gives the map of all of them |
| `BsonRoundTrip.Int32RoundTripsIffNotNegative` | internal/capture/dbhook/mongo.go:200-205 | an int32 comes back as written exactly when it is not negative |
| `MongoParser.ExtractMongoCommand` | internal/capture/dbhook/mongo.go:105-143 | the command under the first bound operation name, with its database, collection, filter, updates and documents |
| `MongoRoundTrip.ExtractedFromEncoded` | internal/capture/dbhook/mongo.go:105-143 | of an encoded document: the operation is the first of the eight names, written out, that any element binds; its last bound element gives the collection, that of $db the database, if these are text; those of filter, updates and documents give these fields, and null when there is none |
| `MongoParser.ParseOpMsg` | internal/capture/dbhook/mongo.go:63-102 | the commands of the kind-0 sections up to the first unreadable one |
| `MongoParser.Parser.Feed` | internal/capture/dbhook/mongo.go:35-60 | the buffer loop computes the specification, and its final discard is unreachable |
| `MongoRoundTrip.BodyRoundTrip` | internal/capture/dbhook/mongo.go:63-102 | any list of kind-0 and kind-1 sections yields the kind-0 commands in order |
| `MongoRoundTrip.UnreadableSectionEndsBody` | internal/capture/dbhook/mongo.go:68-99 | a section of another kind, or whose length is cut off, too small or too great, ends the body; the commands ahead of it are kept |
| `MongoRoundTrip.FragmentedRoundTrip` | internal/capture/dbhook/mongo.go:35-102 | encoded messages, fragmented in any way, yield exactly the commands of their body documents |
| `MongoRoundTrip.SplittingSafeIffWellFramed` | internal/capture/dbhook/mongo.go:39-54 | all splits agree exactly when no length before the last byte is out of range |
| `MongoRoundTrip.NothingOverLimit` | internal/capture/dbhook/mongo.go:56-58 | the over-limit discard never changes anything |
| `MongoRoundTrip.OneShotIsPrefix` | internal/capture/dbhook/mongo.go:35-60 | on any stream every split captures first what the one-shot parse captures |
| `MongoRoundTrip.MalformedDependsOnSplit` | internal/capture/dbhook/mongo.go:41-44 | seventeen zero bytes are parsed differently under different splits |
| `MongoRoundTrip.OutOfRangeIsDiscarded` | internal/capture/dbhook/mongo.go:40-44 | a length below 16 or above 2^24 discards all that is buffered |
| `Sniffer.Connection.Emit` | internal/capture/dbhook/tcp_proxy.go:217-225 | every effect is offered in order, and taken exactly when there is room |
| `Sniffer.Connection.Relay` | internal/capture/dbhook/tcp_proxy.go:176-181 | what is read is forwarded and fed, in that order, unless the write fails |
| `Sniffer.Connection.FlushConn` | internal/capture/dbhook/tcp_proxy.go:191-215 | performs the window's reads up to the first error and no more |
| `Sniffer.Connection.SniffClientToServer` | internal/capture/dbhook/tcp_proxy.go:163-189 | receives and feeds exactly the chunks of the reads performed, and acknowledges each flush reached after the reads of its window |
| `Sniffer.FlushReadsUpToFailure` | internal/capture/dbhook/tcp_proxy.go:191-215 | a flush performs the reads of its window up to and with the first that brings an error or whose write fails |
| `Sniffer.PerformedUntilLost` | internal/capture/dbhook/tcp_proxy.go:163-189 | the loop goes on after every flush and every timeout, and ends with the first other read error or failed write |
| `Sniffer.HandleConn` | internal/capture/dbhook/tcp_proxy.go:125-161 | with no failed write: forwarded bytes equal read bytes, everything read is fed at each acknowledgement, and emitted plus dropped effects are the one-shot parse of a well-framed stream |
| `Sniffer.OffersPartition` | internal/capture/dbhook/tcp_proxy.go:217-225 | every offered effect is emitted or dropped, once |
| `Sniffer.AcksCaughtUp` | internal/capture/dbhook/tcp_proxy.go:166-170 | with no failed write every flush is acknowledged with all that was received fed |
| `SniffedTraffic.MySqlConnection` | internal/capture/dbhook/mysql.go:28-34 | a whole connection that sends packets: the server gets the stream, and emitted plus dropped effects are exactly their statements, for every read pattern and flush |
| `SniffedTraffic.PostgresConnection` | internal/capture/dbhook/postgres.go:30-34 | the same for a startup message and any messages |
| `SniffedTraffic.RedisConnection` | internal/capture/dbhook/redis.go:30-36 | the same for commands that fit the buffer limit |
| `SniffedTraffic.MongoConnection` | internal/capture/dbhook/mongo.go:27-33 | the same for OP_MSG and other messages |
| `FlushHandshake.FlushFeedsEverythingRead` | internal/capture/dbhook/tcp_proxy.go:94-113 | in every interleaving, after a nil Flush every connection has fed all it had read when Flush was called, unless a write failed |
| `FlushHandshake.InvKept` | internal/capture/dbhook/tcp_proxy.go:94-225 | every step of connections and callers keeps the invariant behind it |
| `FlushHandshake.ReadNeedNotBeFed` | internal/capture/dbhook/tcp_proxy.go:175-181 | without the handshake a chunk may be read and not fed |
| `ReplayWindows.Engine.DrainSideEffects` | internal/replay/engine.go:190-203 | moves the channel behind the pending effects |
| `ReplayWindows.Engine.TakeSideEffectsWindow` | internal/replay/engine.go:142-168 | splits the pending effects into dropped, matched and kept, in order |
| `ReplayWindows.Engine.DropPendingSideEffects` | internal/replay/engine.go:170-181 | drops everything that is left |
| `ReplayWindows.Engine.ExecuteSequentialWithSideEffects` | internal/replay/engine.go:126-140 | over a whole run each result holds exactly the arrivals whose fate is its window, in arrival order, and the drops are the others |
| `ReplayWindows.FateIsFirstNotBefore` | internal/replay/engine.go:150-164 | an effect drained at window a goes to the least later window that has not finished before it, if that had started, and is dropped otherwise |
| `ReplayWindows.DisjointWindowsClaimTheirOwn` | internal/replay/engine.go:150-164 | with windows that do not overlap, an effect of window k goes to k |
| `ReplayWindows.EachArrivalIsSettledOnce` | internal/replay/engine.go:126-181 | every arrival is attached once, or dropped once, or left over, never two of these |
| `ReplayWindows.WithFateInTurn` | internal/replay/engine.go:142-168 | the effects of one fate are those of its arrivals, in the order of arrival |
| `WorkerPool.ReplayOne` | internal/replay/worker.go:91-193 | the result is of the given record; it fails exactly when the deciding attempt does not respond, and requests are sent up to that attempt |
| `WorkerPool.DecidingSucceedsIff` | internal/replay/worker.go:114-128 | a record is replayed without error exactly when one of the first 1 + retryCount attempts responds after failures to send only |
| `WorkerPool.DecidingIs` | internal/replay/worker.go:114-128 | the deciding attempt is the first that does not fail to send, or the last allowed |
| `WorkerPool.ExecuteSequential` | internal/replay/worker.go:53-62 | one worker: result i is the replay of record i |
| `WorkerPool.EachRecordReplayedOnce` | internal/replay/worker.go:64-88 | for any number of workers and any schedule each index is replayed exactly once, and result i is of record i |
| `WorkerPool.InvKept` | internal/replay/worker.go:64-88 | every step of the pool keeps the invariant behind it |
| `DiffEngine.IndexBySequence` | internal/diff/engine.go:86-90 | the index holds the last replay of each sequence number |
| `DiffEngine.LatestIsLast` | internal/diff/engine.go:86-90 | of replays with one sequence number it is the one behind which no other comes |
| `DiffEngine.LatestStoredIsLast` | internal/replay/engine.go:104-113 | and over several runs that of the last run that stored one |
| `DiffEngine.PoolRunReplays` | internal/replay/engine.go:104-113 | the results of a pool, in any schedule, are appended as a run that replays the records in order under their own sequence numbers |
| `DiffEngine.PairedWithLatestRun` | internal/replay/engine.go:104-113 | with distinct sequence numbers, each original is paired with its replay from the latest run that stored one, and with none if no run did |
| `DiffEngine.ComparesLatestRun` | internal/diff/engine.go:86-120 | the diff compares exactly these pairs |
| `BodyCapture.RequestBodyCapture.Capture` | internal/capture/proxy.go:340-353 | the preview stays the prefix of length min(limit, len) |
| `BodyCapture.PreviewIsPrefix` | internal/capture/proxy.go:340-353 | it is a prefix of length min(limit, len), and empty for a limit below zero |
| `BodyCapture.RequestBodyCapture.WriteChunk` | internal/capture/proxy.go:355-388 | exactly when the file operations needed work, the capture holds all written so far, in memory up to 1 MiB or in the file beyond, never both |
| `BodyCapture.RequestBodyCapture.CloseTempFile` | internal/capture/proxy.go:390-404 | the file's contents become readable, or the capture fails |
| `BodyCapture.CaptureRequestBodySnapshot` | internal/capture/proxy.go:271-304 | a capture exists exactly when the body is complete and the file operations needed work, and then holds exactly the body |
| `BodyCapture.AllIsDelivered` | internal/capture/proxy.go:280-297 | the body is all the data of its reads, that of the last included |
| `BodyCapture.CapturableIff` | internal/capture/proxy.go:355-404 | a body read to its end is captured exactly when each write that leaves more than 1 MiB works, the first of them can make and fill the file, and the file, if any, can be closed |
| `BodyCapture.SmallIsCapturable` | internal/capture/proxy.go:364-367 | a complete body of at most 1 MiB needs no file and is always captured |
| `BodyCapture.RequestBodyCapture.Reader` | internal/capture/proxy.go:318-323 | what was captured; only a temporary file may fail to open |
| `BodyCapture.ForwardAndRecord` | internal/capture/proxy.go:102-123 | an error exactly when a spilled body cannot be reopened; else the body is forwarded, and the artifact is saved exactly when the preview is not all, its source opens and saving works |
| `BodyCapture.RoundTrip` | internal/replay/worker.go:195-229 | for every body, chunking, limit and failure: forwarded as it was; replayed as it was, with its length, exactly when no artifact is needed or it was saved and opens; replayed as its preview when it was needed and not saved; not replayed when it does not open |
| `SideEffectDiff.CompareSideEffects` | internal/diff/sideeffects.go:40-62 | reports exactly the differences of the three comparisons and of the residual counts; nothing exactly when queries agree as tokens up to case, Mongo and Redis sequences agree, and residual counts agree |
| `SideEffectDiff.ReportedIffTrue` | internal/diff/sideeffects.go:40-62 | a difference is reported exactly when it is true of the two records: a count, the statements, aspects or arguments at one position, expected first, or the residual counts |
| `SideEffectDiff.NormalizeEqualIffSameStatement` | internal/diff/db.go:61-68 | two statements normalize alike exactly when they have the same number of blank-separated words, and these the same letters but for ASCII case, character by character |
| `SideEffectDiff.SpreadNormalizesAlike` | internal/diff/db.go:61-68 | words spread out in two ways normalize alike exactly when they have the same letters but for case |
| `AsciiText.FieldsOfJoin` | internal/diff/db.go:64 | splitting undoes joining of blank-free words |
| `AsciiText.JoinIsInjective` | internal/diff/db.go:64 | so joining is injective on them |
| `SideEffectDiff.CompareDbSideEffects` | internal/diff/db.go:12-58 | SQL: the count, then the statements pairwise |
| `SideEffectDiff.CompareMongoSideEffects` | internal/diff/mongo.go:11-78 | Mongo: the count, then collection, operation and database pairwise |
| `SideEffectDiff.CompareRedisSideEffects` | internal/diff/redis.go:12-71 | Redis: the count, then command, key and arguments pairwise |
| `SideEffectDiff.FilterByType` | internal/diff/db.go:71-84 | the statements of the SQL effects in order |
| `SideEffectDiff.CountResidualSideEffects` | internal/diff/sideeffects.go:64-76 | the number of effects no comparison handles |
| `SideEffectDiff.SqlsInTurn` | internal/diff/db.go:71-84 | an effect has a statement to compare exactly when it is one of MySQL or Postgres and holds one; effects in a row have theirs in a row |
| `SideEffectDiff.MongosInTurn` | internal/diff/mongo.go:80-88 | likewise for Mongo |
| `SideEffectDiff.RedisesInTurn` | internal/diff/redis.go:73-81 | and Redis |
| `SideEffectDiff.ResidualsInTurn` | internal/diff/sideeffects.go:64-76 | an effect is residual exactly when it is of no database, or of none of these four |
| `DiffEngine.Apply` | internal/diff/rules.go:58-79 | in place, each difference becomes what the rules make of it |
| `DiffEngine.MatchesPath` | internal/diff/rules.go:82-91 | whether some pattern of the rule matches the path |
| `DiffEngine.IgnoredIffCovered` | internal/diff/rules.go:58-79 | a difference is ignored exactly when it was or a rule covers it |
| `DiffEngine.OneRuleCovers` | internal/diff/rules.go:58-91 | a rule for ignoring covers what its pattern matches, one with a matcher what that matches too; an unregistered matcher and an unknown kind cover nothing |
| `DiffEngine.LastCoveringIsNamed` | internal/diff/rules.go:58-79 | a difference that is covered names the last rule that covers it |
| `RecordComparison.CompareHeaders` | internal/diff/engine.go:217-247 | in whatever order the headers are walked: an entry for each expected header, not ignored, that is missing or prints differently |
| `HeaderText.PrintedAlikeIff` | internal/diff/engine.go:234 | two lists of values print alike exactly when they have the same pieces between spaces, list by list |
| `HeaderText.EveryChangeShowsIffPlain` | internal/diff/engine.go:234 | every change of a header shows exactly when it is a single value that is not empty and holds no space; any other prints like some list it does not equal |
| `RecordComparison.SpaceFreeHeadersAgreeIffEqual` | internal/diff/engine.go:217-247 | for values without spaces no header is reported exactly when all expected ones that are not ignored have equal values |
| `RecordComparison.AgreeingIsEqualIffPlain` | internal/diff/engine.go:217-247 | for given expected headers, agreeing is being equal, whatever the replay sends, exactly when each that is not ignored is a single value, not empty, without a space |
| `RecordComparison.UnequalHeadersMatch` | internal/diff/engine.go:234 | two responses with unequal headers that are reported to match, under any rules |
| `RecordComparison.CompareBodies` | internal/diff/json.go:18-49 | nothing for two empty bodies; texts compared when the recorded one is not JSON; an error when only the replayed one is not; else the differ's report |
| `RecordComparison.CompareRecords` | internal/diff/engine.go:136-199 | a failed replay is one error; otherwise status, headers, body and side effects are collected, marked by the rules, judged and truncated |
| `ErrorVerdict.StatusEntryIsTrue` | internal/diff/engine.go:152-163 | the status is reported exactly when it differs, with both statuses, as an error |
| `ErrorVerdict.HeaderEntryIsTrue` | internal/diff/engine.go:217-247 | an entry about a header says its recorded and its replayed values, and is a warning |
| `ErrorVerdict.TextEntryIsTrue` | internal/diff/json.go:18-49 | bodies not both JSON are reported exactly when they differ, or only the replayed one is not JSON, with both texts, as an error |
| `ErrorVerdict.BodyEntryIsTrue` | internal/diff/json.go:51-227 | an entry about bodies of JSON says what the two values have at its path, or the two array lengths |
| `ErrorVerdict.SideEntryIsTrue` | internal/diff/sideeffects.go:40-62 | one about side effects names its place and says what the records have there, or the two counts, as an error |
| `ErrorVerdict.AspectEntryIsTrue` | internal/diff/mongo.go:35-75 | so does one about a single aspect, which is an error unless it is a Mongo database name |
| `ErrorVerdict.ReportIsInOrder` | internal/diff/engine.go:149-178 | the status comes ahead of headers, these ahead of the body, and that ahead of side effects |
| `ReportText.PathTextSteps` | internal/diff/json.go:102-181 | a place in a body is written as body and its steps, a dot and the name or the index in brackets |
| `ReportText.PlainPlacesDiffer` | internal/diff/json.go:102-181 | two places whose field names hold neither a dot nor an opening bracket are written alike exactly when they are the same |
| `ReportText.OtherPlacesMayNotDiffer` | internal/diff/json.go:102-181 | two others that are written alike |
| `RecordComparison.RawEmptyIffAgree` | internal/diff/engine.go:152-178 | no raw difference exactly when status and unignored expected headers agree, the bodies are equal (or equal up to recursive permutation of arrays), and the side effects agree |
| `RecordComparison.UncoveredMatchesIffAgree` | internal/diff/engine.go:136-199 | when no rule covers a difference, the pair matches exactly when the replay did not fail and the two agree in all that |
| `RecordComparison.MatchesIffAgreeOrCovered` | internal/diff/engine.go:136-199 | whatever the rules, it matches exactly when the replay did not fail and the two agree or every difference is covered |
| `RecordComparison.Run` | internal/diff/engine.go:66-133 | an error when records cannot be loaded or there are none; else a result for each original: missing, failed or compared with its latest replay |
| `RecordComparison.PassesIffReproducedOrExcused` | cmd/diff.go:206-220 | whatever the rules and maxDiffs, --fail-on diff passes exactly when every original has a successful replay that agrees with it or whose differences are all covered |
| `DiffEngine.Judge` | internal/diff/engine.go:181-199 | the pair matches exactly when every raw difference is covered, and exactly when every listed difference is ignored |
| `DiffEngine.LimitKeepsVerdict` | internal/diff/engine.go:201-214 | truncation keeps that equivalence |
| `DiffEngine.ListedDifferences` | internal/diff/engine.go:136-214 | a result lists the differences in order, changed only in being marked exactly when a rule covers them; of too many the first maxDiffs and one for information, ignored when all are; a failed replay is one error |
| `DiffEngine.MatchMeaning` | internal/diff/engine.go:98-120 | what Match means for every kind of result |
| `DiffEngine.FormatDiffSummary` | internal/diff/rules.go:217-242 | the counters over all results and differences |
| `DiffEngine.SummaryCounts` | internal/diff/rules.go:217-242 | MatchCount + DiffCount = TotalCount, and some differ exactly when some do not match |
| `DiffEngine.SummaryIsExact` | internal/diff/rules.go:217-242 | each counter is the size of a set: the results that match, those that do not, and the places of errors that are not ignored and of differences that are |
| `DiffEngine.LimitDoesNotChangeVerdict` | cmd/diff.go:206-220 | the outcome of --fail-on diff is the same for every maxDiffs |
| `DiffEngine.ErrorVerdictIff` | cmd/diff.go:206-220 | --fail-on error fails a session exactly when some original has no successful replay, or a counted error among its first maxDiffs differences |
| `DiffEngine.ErrorVerdictKeptIff` | cmd/diff.go:206-220 | truncation leaves a session's --fail-on error outcome alone exactly when no original's first error is cut off, or some original keeps an error |
| `ErrorVerdict.PairWithoutError` | internal/diff/engine.go:149-178 | a pair has no error among its differences exactly when the statuses are equal, the body is equal as text or only adds fields to the recorded one (order ignored: and arrays are equal up to permutation), and side effects agree but for Mongo database names; headers are free |
| `ErrorVerdict.SideWithoutError` | internal/diff/sideeffects.go:40-62 | the part about side effects: equal statements up to blanks and case, equal Mongo collections and operations, equal Redis commands, equal residual counts |
| `ErrorVerdict.PassesOnErrorsIff` | cmd/diff.go:206-220 | with nothing truncated, for any rules: --fail-on error passes exactly when every original has a successful replay each of whose errors is covered |
| `ErrorVerdict.PassesOnErrorsIffHeld` | cmd/diff.go:206-220 | and, when no rule covers a difference, exactly when every original has a successful replay that has kept all that |
| `RecordComparison.TruncationFlipsErrorVerdict` | internal/diff/engine.go:201-214 | under any rules that cover neither difference: a session of one record that fails with two or more differences kept and passes with one |
| `PathPatterns.RegexpOfPattern` | internal/diff/rules.go:93-104 | the expression of a pattern asks for its pieces one by one; the last of the three replacements never finds anything |
| `PathPatterns.FitsIffCut` | internal/diff/rules.go:82-104 | a path matches exactly when it can be cut into what the pieces stand for, in order |
| `PathPatterns.PlainPatternFitsItself` | internal/diff/rules.go:93-104 | a pattern without a star matches itself only |
| `PathPatterns.SuffixPatternIff` | internal/diff/rules.go:93-104 | ** and a text match what ends with the text, on one line before it |
| `PathPatterns.IndexPatternIff` | internal/diff/rules.go:93-104 | a text and [*] match the text with anything without a dot in brackets |
| `PathPatterns.BracketsMatchIff` | internal/diff/rules.go:94-104 | so not array indices only: between the brackets anything is matched but a dot |
| `JsonTolerance.ToleratedIffAlike` | internal/diff/json.go:51-227 | when certain differences of values as a whole are tolerated, nothing else is reported exactly when the two values are equal but for these, field by field and index by index; if order is ignored, arrays are equal up to permutation and nothing in them is tolerated |
| `DefaultRules.DefaultCoversIff` | internal/diff/rules.go:181-199 | the default rules cover a difference exactly when it is between two timestamps at a path with one of five endings, or at one of four header paths |
| `DefaultRules.DefaultsCover` | internal/diff/rules.go:181-199 | the same with the endings and paths written out |
| `DefaultRules.TimestampsStart` | internal/diff/rules.go:155-162 | a timestamp starts with digits of year, month and day, T or a blank, and hour and minute, in their places |
| `DefaultRules.UuidsAre` | internal/diff/rules.go:157-166 | a UUID is five groups of 8, 4, 4, 4 and 12 hexadecimal digits and nothing else |
| `DefaultRules.RequestIdsAreNeverReported` | internal/diff/rules.go:192-214 | no header is ever reported at one of these four paths: all are ignored before the rules apply |
| `DefaultRules.DefaultMatchIff` | internal/diff/engine.go:29-62 | without rules of the user's own a pair matches exactly when the replay did not fail, status and side effects agree, headers print alike, and the bodies are alike but for timestamps where the default rules expect them |
| `DefaultRules.DefaultPassesIff` | cmd/diff.go:206-220 | and --fail-on diff passes exactly when every original has such a replay |
| `DefaultRules.DefaultVerdictFlips` | internal/diff/engine.go:41-54 | truncation flips --fail-on error for the engine as NewEngine configures it: failing with the default limit, passing with one |

## Left out

- RedisStreams.SplittingSafeIffNotMalformed: says nothing of streams with an oversized command; for those made of encoded requests RedisRoundTrip.StreamSafeIffFits does.
- RedisRoundTrip.StreamSafeIffFits: leaves out commands of exactly 1 MiB + 2 bytes, of which only the line feed can come by itself, to be read as the start of what follows.
- RedisParser.Parser.Feed: redaction of arguments and key extraction, which are tables applied to one command at a time.
- RedisParser.BuildRedisCommand: blanks and upper case are those of ASCII.
- Rules of the user's own are any rules at all; of the default ones the tolerance of numbers, which no default rule uses, is without the rounding of floats.
- RedisParser.ParseRedisInlineCommand: blanks are the ASCII ones, where the source trims and splits on Unicode blanks too.
- Memory: an array count or a length that the code accepts may still be more than the machine has. `Sniffer` and the machines above it are for parsers that do not panic; a panic ends the process.
- CapturePath.ReadBeforeFlushIsAccounted: promises nothing for a connection that has lost a write to its server, which the source answers by dropping that chunk.
- Parsing and printing of JSON: what a body means as JSON is an arbitrary partial function of its text.
- The order in which Go walks a header map is an arbitrary listing of its keys, the same for one record within a run.
- Mixed Go number types in the differ: after parsing every JSON number is a float64.
- Message texts of differences, which are the cases of a datatype. The entries for a missing or failed replay and for truncation, to which no rule is ever applied, carry theirs in place of the empty path.
- Sockets, deadlines, the 64 KiB read buffer and the real length of the flush idle window: the reads performed are inputs.
- The server-to-client copy of a proxied connection, accepting connections and starting and stopping hooks: nothing is parsed there.
- Unicode blanks and letters: words are separated by ASCII blanks, and case is ASCII case.
- MySQL packets continued after 2^24 - 1 bytes, Postgres encryption negotiation and OP_MSG checksums: the code does not treat them specially.
- The timestamps that parsers put on effects, and which of two effects captured in the same call is older.
- The match rate, a float that decides nothing.
- The file store: an artifact is its bytes, a session's records are the successful appends in order.
- The preview of response bodies, which is that of request bodies again.
- HTTP headers and URLs of replayed requests, request identifiers, durations and the delay between requests.
- The three side-effect comparisons are one loop here (CompareInOrder), where the source repeats it.
- ParseBulkString, ReadElement, ReadValue and ReadSection are loop bodies of the source made methods of their own.
- Branches that cannot be taken: the over-limit packet length of MySQL, the final discards of Postgres and Mongo, the non-positive consumption of Redis and the second bounds check of the BSON loop are shown to be dead, or dropped.
