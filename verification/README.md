# Verified model of crabka's audit pipeline, queues and codecs

This project models the parts of crabka where correctness is hardest to see, and proves what they
promise over every input and every run. `dafny verify dfyconfig.toml` checks all of it.

**The audit pipeline.** A writer stamps each event with a sequence number and the head of a hash
chain, writes it to a sink that may fail at any attempt, spools to a framed file while the sink is
down, replays in order, and emits signed checkpoints by count, by timer and on shutdown. A verifier
walks the records and recomputes the chain.
- `AuditChain`, `AuditRecords`, `AuditCheckpoints`: the chain fold, headers, checkpoint values.
- `Frames`, `Repeated`, `SpoolFiles`, `AuditSpool`: the length-prefixed record codec and the spool file.
- `AuditVerify`: the verifier, and what an ok report means.
- `AuditWriters`: the writer as a class, proved against a step function `Act` and a run function `Run`.
- `AuditRuns`, `AuditEndToEnd`: theorems over whole runs.
- `AuditDelivery`: where every emission goes, when nothing is dropped, and how the sink catches up.
- `LogRead`: the budgeted read of a partition log, over segments and their sparse index.
- `AuditRestart`: what a restart finds, and theorems over many lives with crashes and drops.
- `AuditWitness`: a signed configuration that meets every hypothesis, and inputs at which a promise fails.

**The queue, implemented twice.** `QueueModel` is one abstract store keyed by group, topic and
offset. `QueueRuns` proves publishing, ownership and delivery over every run. `QueueRust` (flat state vector) and
`QueueGo` (a map inside each message, found by printed id) each refine it, and `QueueSimulation` runs
any script on both and shows the answers agree.

**Incremental decoders.** `Incremental` is the generic step-and-buffer decoder; `Connect` and
`PgWire` are instances whose result does not depend on how the stream is cut. Every byte stream is a
list of encoded messages and one of a few endings, which gives the Connect reader's answer on all of them.

**Smaller pieces.** `TopoSort`, `Bits`, `Bloom`, `Labels`, `Acl`, `Ratchet`.

## Reading the model

- A sink failure plan is a function from attempt number to success, so every theorem holds for every
  pattern of failures and recoveries. A failed write leaves the sink unchanged.
- SHA-256 is any function from bytes to 32 bytes. No injectivity is assumed; where the head must
  determine the history, the lemma returns the colliding inputs instead, and the one gap that a hash
  could hide is part of the exact condition (`AuditEndToEnd.BlindAt`, `AuditRestart.BlindRepeat`).
- Ed25519 signing and verification, and the JSON text of a checkpoint object, are parameters with the
  hypotheses `SignerWorks` and `JsonRoundTrips`. The second is asked only of objects of checkpoints
  that serde_json can hold. `AuditWitness.SignedPipelineApplies` shows that all hypotheses of the
  signed pipeline can be met together.
- A record is right (`RightRecord`) when its class and chain headers fit its position, and good
  (`GoodRecord`) when the verifier also accepts it there. Only goodness depends on trusted keys.
- The verifier aborts instead of reporting when the hexadecimal parser panics. The model gives no
  report then (`VerifyPartition` returns `None`), and `Aborts` marks the break that causes it.
- A sealed predicate quantifies over the one value it is about, so that the verifier opens it only
  where a lemma mentions the trigger term. `SpoolFiles.Holds` explains it; `AuditChain.Decoded`,
  `AuditEndToEnd.GoodLine`, `LogRead.Whole`, `QueueRust.Listing`, `QueueGo.Shows`, `QueueGo.Carrying`,
  `QueueGo.Scanned` and `MessageIds.IsNamed` are built alike.
- The writer panics when it must frame a record that does not fit 32 bits. `AuditWriters.Emittable` says
  when it does not, and the writer's methods ask for no more.
- The writer carries a history of emissions and of which of them were kept, used only in statements.
- Lengths and counters are unbounded integers, and bounded where the width matters: 32-bit lengths,
  64-bit sequence numbers, the 32-bit delivery counters (saturating in Rust, wrapping in Go), the
  hash arithmetic modulo 2^32 and 2^64.

Six promises hold only under a condition. One lemma gives the exact condition and another an input
that fails:
- `unanchored_records` is the number of records after the last checkpoint, except when that
  checkpoint precedes the first chained record, where it is one short (`AuditVerify.UnanchoredIsTail`,
  `AuditWitness.UnanchoredMissesOne`).
- A crash between replaying records and rewriting the spool sends them again; the drained sink then
  verifies exactly when none of the repeated records was chained (`AuditRestart.ReplayCrashIsVisible`,
  `AuditWitness.ReplayedTwiceBreaks`).
- A restart finds the chain exactly when the spool holds a chained record or the tail read returns the
  last one in the partition; otherwise it uses a sequence number again and the chain forks
  (`AuditRestart.RestartFindsChainIff`, `AuditRestart.StaleRestartForks`). The read goes forward under a
  byte budget. It misses records when the window is larger than the budget
  (`AuditWitness.ShortReadIsStale`), and also when a window within the budget stands behind older
  batches that the sparse index makes the read start at (`AuditWitness.IndexedReadIsStale`). It misses
  none exactly when both parts fit (`LogRead.ReadsAllIff`).
- A dropped chained record shows as a break exactly when a record kept after it in the same life stands
  visibly behind the gap (`AuditEndToEnd.VerifiesIffNoGap`, `AuditRestart.LivesVerifyIff`). What a life
  drops at its end is never reported, because the next life uses its sequence numbers again
  (`AuditWitness.DropAtEndIsSilent`).
- `from_value` is documented to return nothing on a malformed field, but panics exactly when a
  character of the signature or key text straddles a pair boundary behind valid pairs, and the verifier
  then aborts (`AuditCheckpoints.ParsePanicsIff`, `AuditVerify.AbortsIff`, `AuditWitness.AccentAborts`).
- A printed queue message id parses back exactly when the topic is non-empty and has no colon
  (`MessageIds.ParsePrinted`, `MessageIds.ColonTopicDoesNotParse`), although ids are distinct for all
  topics.

## Model

| member | source | states |
|---|---|---|
| AuditChain.ChainState.Resume | crates/audit/src/chain.rs:50-52 | the resumed chain stands at the given sequence number and head |
| AuditChain.ChainState.ExtendWith | crates/audit/src/chain.rs:60-66 | hands out the position before the record and moves to the fold of the record's value |
| AuditChain.PreimageInjective | crates/audit/src/chain.rs:18-24 | previous head, sequence number and value can be read off the hashed bytes |
| AuditChain.FoldCounts | crates/audit/src/chain.rs:60-66 | after folding a history the next sequence number counts its values |
| AuditChain.SameHeadGivesCollision | crates/audit/src/chain.rs:18-66 | two different non-empty histories from genesis with one head yield two different hashed inputs with one hash |
| AuditChain.EncodeHex | crates/audit/src/chain.rs:81-87 | the loop prints two lower-case digits per byte |
| AuditChain.DecodeHex32 | crates/audit/src/chain.rs:91-105 | accepts exactly 64 hexadecimal characters and yields their 32 bytes |
| AuditChain.FromHex32Hex | crates/audit/src/chain.rs:81-105 | a printed head parses back to itself |
| AuditRecords.StampReadsBack | crates/audit/src/sink.rs:30-64 | from a stamped record, first or last occurrence of each header gives back the stamped sequence number and head |
| AuditRecords.FiltersReadBack | crates/audit/src/sink.rs:39-64 | the headers of a stamped record read back as the class, principal and outcome of its event, and a lifecycle event has no principal and no outcome |
| AuditCheckpoints.SigningBytesInjective | crates/audit/src/signing.rs:99-116 | different checkpoint contents are never signed as the same bytes |
| AuditCheckpoints.HexVecHex | crates/audit/src/checkpoint.rs:115-123 | hexadecimal text of any length parses back to its bytes |
| AuditCheckpoints.CheckpointRoundTrip | crates/audit/src/checkpoint.rs:72-112 | the JSON object of a checkpoint reads back as that checkpoint |
| AuditCheckpoints.HexVecPanicsIff | crates/audit/src/checkpoint.rs:115-123 | parsing hexadecimal text panics exactly when its length is even and, behind valid pairs, a multi-byte character crosses a pair boundary |
| AuditCheckpoints.ParsePanicsIff | crates/audit/src/checkpoint.rs:97-112 | reading a checkpoint object panics exactly when the fields before are well-formed and the signature, or after a good signature the key, makes the parser panic |
| Repeated.EncodeLoop | crates/audit/src/spool.rs:296-299 | appending item by item gives the concatenated encoding |
| Repeated.DecodeLoop | crates/audit/src/spool.rs:315-321 | taking a counted number of items stops at the first that fails, and otherwise returns them in order |
| AuditSpool.DecodeEncodeRecord | crates/audit/src/spool.rs:290-325 | an encoded record decodes to itself whatever follows it |
| AuditSpool.EncodeDecodedRecord | crates/audit/src/spool.rs:290-325 | whatever decodes is encodable, and its encoding is the front of the bytes it came from |
| AuditSpool.NextReadsBack | crates/audit/src/spool.rs:281-288 | a frame reads back as its record and uses the whole frame |
| AuditSpool.AuditCodecIsLawful | crates/audit/src/spool.rs:281-344 | frames are self-delimiting, torn frames are refused, and later bytes never change an earlier frame |
| AuditSpool.ReadResumeHeaders | crates/audit/src/spool.rs:263-279 | the position after a chained record from its last chain headers, none for checkpoints or missing headers |
| AuditSpool.ResumePoint | crates/audit/src/spool.rs:249-256 | the position after the last record in the spool that has one |
| SpoolFiles.Spool.Open | crates/audit/src/spool.rs:68-101 | for any bytes, keeps exactly the decodable records and cuts off the rest; sizes and counts match the file |
| SpoolFiles.Spool.Scan | crates/audit/src/spool.rs:158-186 | returns the decodable records and the length they occupy |
| SpoolFiles.Spool.ReadAll | crates/audit/src/spool.rs:191-193 | returns the spool's contents, all of which can be written again |
| SpoolFiles.Spool.Append | crates/audit/src/spool.rs:132-144 | succeeds exactly within the cap and then adds one record at the end; otherwise changes nothing |
| SpoolFiles.WriteFrames | crates/audit/src/spool.rs:209-214 | the replacement file is the frames of the remaining records and its length is counted right |
| SpoolFiles.Spool.Rewrite | crates/audit/src/spool.rs:200-226 | the file holds exactly the remaining records |
| SpoolFiles.Spool.Truncate | crates/audit/src/spool.rs:233-240 | the file is empty |
| SpoolFiles.ScanConcat | crates/audit/src/spool.rs:158-186 | scanning a clean file followed by more bytes is its records followed by the scan of the rest |
| SpoolFiles.TornTailRecovery | crates/audit/src/spool.rs:68-186 | a clean file plus a proper prefix of one more frame scans to the clean file's records, and a further append reads back extended by one |
| SpoolFiles.RecoveredFit | crates/audit/src/spool.rs:158-226 | every record recovered from any bytes can be written back |
| SpoolFiles.OpenTwice | crates/audit/src/spool.rs:68-101 | reopening changes neither file, size, count nor contents |
| AuditVerify.WalkState.CheckCheckpoint | crates/audit/src/verify.rs:120-184 | reports the first failing checkpoint test in order, aborts exactly when the parser panics, or counts the checkpoint and moves the anchor |
| AuditVerify.WalkState.CheckChained | crates/audit/src/verify.rs:189-229 | reports the first failing chain test in order, or extends the chain |
| AuditVerify.WalkState.CheckRecord | crates/audit/src/verify.rs:268-276 | dispatches on the class header and reports, aborts or advances as the record deserves at its position |
| AuditVerify.WalkState.CheckBatch | crates/audit/src/verify.rs:268-284 | one batch followed by any later records: its break is the break of the whole list, and without one the walk goes on from the state it leaves |
| AuditVerify.VerifyPartition | crates/audit/src/verify.rs:249-303 | the nested batch loops give the report of the concatenated records, and none exactly when the walk aborts |
| AuditVerify.FaultlessIffConsistent | crates/audit/src/verify.rs:120-229 | a record passes exactly when it is consistent with the chain before it |
| AuditVerify.VerifyOkIff | crates/audit/src/verify.rs:120-303 | ok exactly when record i carries seq i and the folded head before it and every checkpoint is trusted, validly signed and matches head and count |
| AuditVerify.VerifyBreakAt | crates/audit/src/verify.rs:249-303 | a broken report names the first inconsistent record, its sequence number and the one test it fails with all earlier tests passed, and counts the chained records before it and the checkpoints up to it |
| AuditVerify.AbortsIff | crates/audit/src/verify.rs:120-303 | the verifier aborts exactly when the first record that is not consistent is a checkpoint whose text makes the parser panic |
| AuditVerify.UnanchoredIsTail | crates/audit/src/verify.rs:287-290 | the unanchored count is the unsigned tail if and only if the last checkpoint does not precede the first chained record |
| AuditVerify.CheckpointBindsHistory | crates/audit/src/verify.rs:120-184 | one accepted checkpoint in two ok logs means equal histories before it, or a returned hash collision or preimage of the zero head |
| AuditWriters.Sink.Write | crates/audit/src/log.rs:258-262 | each attempt follows the failure plan; a failed write leaves the sink unchanged |
| AuditWriters.WriteUntilFailure | crates/audit/src/log.rs:311-317 | replays exactly the records before the first failing attempt, in order |
| AuditWriters.AuditWriter.constructor | crates/audit/src/log.rs:136-156 | starts spooling exactly when the spool is not empty |
| AuditWriters.AuditWriter.Spooled | crates/audit/src/log.rs:266-285 | spools or counts a drop, with the depth statistics of the spool |
| AuditWriters.AuditWriter.WriteRecord | crates/audit/src/log.rs:253-263 | unless it must be framed and does not fit, one emission goes to the sink, to the spool or is dropped, as the step function says |
| AuditWriters.AuditWriter.WriteEvent | crates/audit/src/log.rs:217-224 | stamps the event with the current position and moves the chain |
| AuditWriters.AuditWriter.WriteCheckpoint | crates/audit/src/log.rs:231-242 | emits a signed checkpoint of the current head, or only resets the count without a signer |
| AuditWriters.AuditWriter.Replay | crates/audit/src/log.rs:295-335 | moves the leading successes from spool to sink, ends spooling exactly when drained |
| AuditWriters.AuditWriter.Perform | crates/audit/src/log.rs:178-206 | each arm of the loop that does not panic does what the step function says |
| AuditWriters.AuditWriter.RunLoop | crates/audit/src/log.rs:166-210 | any sequence of arms that does not panic, and the closing checkpoint, give the state of the run function |
| AuditWriters.StampFits | crates/audit/src/spool.rs:281-301 | a stamped record of a fitting event always fits its 32-bit frame |
| AuditWriters.AuditCodecFitsRecords | crates/audit/src/spool.rs:281-301 | with the spool's codec every record the writer makes below 2^64 sequence numbers fits its frame, if those checkpoint texts are short |
| AuditWriters.FittingRunsArePerformed | crates/audit/src/spool.rs:281-301 | if every record fits its frame, no run of fitting events panics |
| AuditRuns.RunDelivers | crates/audit/src/log.rs:136-335 | over every run, drops included: sink then spool is initial contents followed by an ordered selection of the emissions; emissions equal kept plus dropped; spool count equals initial plus spooled minus replayed |
| AuditRuns.NothingLost | crates/audit/src/log.rs:253-335 | with nothing dropped, sink then spool is exactly everything in emission order |
| AuditRuns.RunStamps | crates/audit/src/log.rs:217-242 | every emission of every run is right at its place in the chain |
| AuditRuns.UnsignedTailBounded | crates/audit/src/log.rs:178-242 | with a signer and count trigger n > 0, no prefix of any run's emissions has more than n chained records after its last checkpoint |
| AuditRuns.ClosedLogIsCovered | crates/audit/src/log.rs:206-210 | when the channel closes, no emitted record is left unsigned |
| AuditDelivery.ArmEmits | crates/audit/src/log.rs:178-242 | from the emission log alone: an event adds its record stamped with the fold of the log, and a checkpoint exactly when it is the n-th since the last; a tick adds one exactly when the log has an unsigned tail; replay adds nothing |
| AuditDelivery.ArmEmitsUnsigned | crates/audit/src/log.rs:178-242 | without a signer a run emits the stamped events and nothing else |
| AuditDelivery.EmissionIgnoresDelivery | crates/audit/src/log.rs:166-335 | two runs that hear the same events and checkpoint ticks emit the same log, checkpoints included, whatever their sinks, spools, failures and replays |
| AuditDelivery.SpoolStaysWithinCap | crates/audit/src/log.rs:266-335 | over every run the spool never grows beyond its cap, and its byte count covers the records it holds |
| AuditDelivery.RoomyRunDropsNothing | crates/audit/src/log.rs:253-285 | if the cap has room for everything a run emits on top of what the spool held, the run drops nothing, whatever fails |
| AuditDelivery.SpoolModeIsSticky | crates/audit/src/log.rs:245-256 | in spool mode nothing is offered to the sink until the next replay |
| AuditDelivery.RefusalIsSticky | crates/audit/src/log.rs:253-263 | one refused write starts spool mode, also when the refused record is dropped |
| AuditDelivery.ReplayMoves | crates/audit/src/log.rs:295-335 | replay moves exactly the records before the first refused attempt, in order, and ends spool mode exactly when none is left |
| AuditDelivery.HealthyRunIsDirect | crates/audit/src/log.rs:253-263 | with a sink that accepts and an empty spool every emission goes to the sink at once, in order and with one attempt; nothing is spooled or dropped |
| AuditDelivery.SinkCatchesUp | crates/audit/src/log.rs:166-335 | from any run after which the sink accepts, one replay tick delivers the spool, every later emission follows it in order and nothing more is spooled or dropped |
| AuditDelivery.EmittedTexts | crates/audit/src/log.rs:217-224 | the chained values of a run are the texts of its events, in order |
| AuditEndToEnd.StampIsGood | crates/audit/src/log.rs:217-224 | a stamped record passes the verifier at its position and resumes the chain after it |
| AuditEndToEnd.CheckpointIsGood | crates/audit/src/log.rs:231-242 | an emitted checkpoint passes the verifier at its position |
| AuditEndToEnd.WriterStampsRight | crates/audit/src/log.rs:217-242 | whoever signs, every record the writer makes has the right class and chain headers at its position |
| AuditEndToEnd.GoodLineVerifies | crates/audit/src/verify.rs:249-303 | a line of records right from genesis verifies ok with the exact counts |
| AuditEndToEnd.DeliveredSinkVerifies | crates/audit/src/log.rs:166-335 | at every step of every run from genesis without drops: sink then spool is the emission log, not spooling means an empty spool, and verifying the sink reports ok with exactly its chained records, checkpoints and unsigned tail |
| AuditEndToEnd.RunAndVerify | crates/audit/src/log.rs:136-335 | the composed program: writer run to the end, then verifier on the sink, gives the verifier's report of that run's sink, and reports ok with the exact count whenever the signer is trusted and nothing was dropped |
| AuditEndToEnd.RunAndVerifySigned | crates/audit/src/log.rs:136-335 | the same at the spool's own codec with a trusted signer: an ok report with the exact count whenever nothing was dropped |
| AuditDelivery.EveryEventIsVerified | crates/audit/src/log.rs:136-335 | after any failures without a drop, once the sink accepts again, one replay tick and the closing checkpoint: the sink is the emission log, holds the text of every event received in order, and verifies with all of them counted and, with a signer, none unsigned |
| AuditEndToEnd.VerifiesIffNoGap | crates/audit/src/verify.rs:120-229 | after any run and for every hash, the sink verifies exactly when no record in it stands after a dropped chained record, except a checkpoint after a single dropped first record whose hash is the genesis head |
| AuditEndToEnd.DropIsReported | crates/audit/src/log.rs:266-285 | a dropped chained record followed by a later chained one in the sink gives a break at or before that record, whatever the hash and whoever signs, and it is reported if the checkpoint texts read back |
| AuditEndToEnd.SinkNeverAborts | crates/audit/src/verify.rs:249-303 | over every run the verifier never aborts on the sink of a writer whose checkpoint texts read back |
| LogRead.ReadBatches | crates/log/src/segment.rs:532-573 | the decode loop of one segment returns the complete batches within the budget from the index position on, without those that end before the offset |
| LogRead.Read | crates/log/src/log.rs:1619-1667 | the loop over segments, with its early exits and its own treatment of the active segment, returns what reading segment after segment with the remaining budget returns |
| LogRead.ReadOrdered | crates/log/src/log.rs:1619-1667 | a read never swaps, repeats or invents records, though it may leave some out, also in the middle |
| LogRead.SegmentReadIff | crates/log/src/segment.rs:532-573 | the read of the segment that holds the offset returns all of it from there on exactly when everything from the index position on fits the budget |
| LogRead.ReadsAllIff | crates/log/src/log.rs:1619-1667 | a read returns everything from the offset to the end of the log if and only if the window fits the budget and, in its first segment, so does the part from the index position on |
| AuditRestart.ReadTail | crates/broker/src/audit_recovery.rs:31-50 | the position after the last chained record of the records that were read |
| AuditRestart.RestartFindsChainIff | crates/broker/src/broker.rs:1004-1020 | whichever records the tail read returned, with gaps or not: the restart stands after everything that survived if and only if the spool has a chained record or the last one of the sink was read, and otherwise at a sequence number already used |
| AuditRestart.RecoverFromLog | crates/broker/src/audit_recovery.rs:19-51 | recovery over the log gives the position after the last chained record that the configured read returns |
| AuditRestart.RestartWithinBudget | crates/broker/src/audit_recovery.rs:19-72 | the same for the read of the configured window and budget from any layout of segments, batches and index entries: enough that the window holds a chained record and that window and index lead-in fit the budget |
| AuditRestart.ResumePointIsChain | crates/audit/src/spool.rs:249-279 | over every run whose last emitted chained record is in the spool, the resume point is the writer's own next sequence number and head, even after drops and whoever signs |
| AuditRestart.EmissionIsDetermined | crates/audit/src/log.rs:166-242 | the chained records a run emits are the stamps of its events from its starting position, whatever the sink, spool, ticks and failures |
| AuditRestart.ResumedContinuation | crates/audit/src/spool.rs:249-279 | a writer resumed from the spool stamps exactly the chained records that the uninterrupted run would have stamped after that point, and ends at the same position |
| AuditRestart.LifeExtendsIff | crates/broker/src/broker.rs:1004-1020 | the first records kept by one more life, ended at any step, extend a good line exactly when none of them stands visibly after a record the life dropped |
| AuditRestart.LivesVerify | crates/broker/src/broker.rs:1004-1020 | after any number of restarts whose tail reads reach, and of crashes, also inside replay: if no life sends a chained record twice or drops one before its last kept record, the sink verifies with its exact count and sink then spool is one chain from genesis |
| AuditRestart.LivesVerifyIff | crates/broker/src/broker.rs:1004-1020 | over all such lives with any drops and any crashes inside replay, the sink verifies if and only if no record in it stands visibly after one that its own life dropped and none shows that a life sent a chained record twice |
| AuditRestart.StaleRestartForks | crates/broker/src/broker.rs:1004-1020 | a life whose restart did not reach, that emits a chained record and drops nothing, leaves a line that no longer verifies |
| AuditRestart.CrashDuringAppend | crates/audit/src/spool.rs:132-186 | a crash inside an append loses only that record: the spool reads back as before, and the restart resumes where the record would have stood exactly when the spool has a chained record or the tail read reaches |
| AuditRestart.ReplayCrashIsVisible | crates/audit/src/log.rs:311-331 | after a crash between replay and rewrite, the drained sink verifies if and only if no repeated record was chained |
| AuditRestart.RepeatIff | crates/audit/src/log.rs:311-331 | after such a crash each prefix of the resulting line is good exactly when the line without the repetition is, as far as the prefix reaches, and the prefix does not show a chained record sent twice |
| AuditWitness.SignedPipelineApplies | crates/audit/src/log.rs:136-156 | for every hash, cap, trigger and failure plan there is a signed configuration with the spool's own codec that meets every hypothesis of the pipeline |
| AuditWitness.UnanchoredMissesOne | crates/audit/src/verify.rs:287-290 | for every trusted signer and event, a log of a checkpoint of the empty chain and the event verifies ok with one unsigned record and a count of none |
| AuditWitness.ReplayedTwiceBreaks | crates/audit/src/log.rs:311-331 | the record of any event, sent twice, does not verify |
| AuditWitness.ShortReadIsStale | crates/broker/src/audit_recovery.rs:19-51 | any two events in batches of 300 bytes, a window of two and a budget of 400 bytes: the restart stands at an earlier sequence number than the chain |
| AuditWitness.IndexedReadIsStale | crates/log/src/segment.rs:543-573 | any three events in batches of 300 bytes, a window of two and a budget of 600 bytes: the window fits, the read starts at the older record, and the restart stands at an earlier sequence number than the chain |
| AuditWitness.DropAtEndIsSilent | crates/broker/src/broker.rs:1004-1020 | a life that drops its only event, with the spool off or full, followed by a life that writes another: the sink holds the second event alone and verifies |
| AuditWitness.AccentAborts | crates/audit/src/checkpoint.rs:97-123 | a checkpoint object whose signature text is four bytes with an accented letter across the pair boundary makes the parser panic, and a log that starts with it makes the verifier abort |
| QueueModel.OffsetsAreUnique | crates/app-sdk/src/messaging.rs:176-189 | no two messages of a topic share an offset |
| QueueModel.PublishKeepsDense | crates/app-sdk/src/messaging.rs:176-189 | publishing keeps the offsets of every topic dense |
| QueueRuns.AcquireTakesFirst | crates/app-sdk/src/stubs.rs:196-211 | acquire takes exactly the first available messages of the topic in publish order, none twice, as many as there are up to the maximum clamped to 1..500 |
| QueueRuns.AcquireAnswers | crates/app-sdk/src/stubs.rs:183-229 | each error of acquire exactly under its condition and without effect; otherwise the selected messages in publish order, each now owned by the session of the reply and shown with its count |
| QueueRuns.AckAllCell | crates/app-sdk/src/stubs.rs:251-281 | a batch settles a message exactly when its session owns it and an entry names it, by the first such entry |
| QueueRuns.AckVerdict | crates/app-sdk/src/stubs.rs:251-281 | an entry succeeds exactly when its session owned the message and no earlier entry settled it |
| QueueRuns.StepMovesCell | crates/app-sdk/src/stubs.rs:183-322 | a message changes only by delivery from available or by its owner's settlement; other groups' operations change nothing |
| QueueRuns.RunKeepsOwned | crates/app-sdk/src/stubs.rs:183-322 | in every reachable state an acquired message has one owning session of the same group and topic |
| QueueRuns.CountIsDeliveries | crates/app-sdk/src/stubs.rs:213-223 | over every run the delivery count is the number of deliveries |
| QueueRuns.SettledIsFinal | crates/app-sdk/src/stubs.rs:231-282 | accepted and rejected never change and are never delivered again, whatever follows |
| QueueRuns.OwnedUntilSettled | crates/app-sdk/src/stubs.rs:574-584 | an owned message is not redelivered in its group until its owner acknowledges |
| QueueRuns.OwnerDecides | crates/app-sdk/src/stubs.rs:231-282 | as long as nobody else gets it, an owned message stays owned or stands as its owner settled it |
| QueueRuns.RedeliveryNeedsRelease | crates/app-sdk/src/stubs.rs:183-282 | over every run, a message in a session's hands is delivered to its group again only after that session released it |
| QueueRuns.OwnerSettles | crates/app-sdk/src/stubs.rs:251-281 | the owner's first acknowledgement of a message is answered ok and settles it as its type says, with the count kept |
| QueueRuns.RunPublishes | crates/app-sdk/src/messaging.rs:158-195 | after every run the queue holds exactly the messages published to it, in order |
| QueueRuns.PublishAnswers | crates/app-sdk/src/messaging.rs:158-195 | over every run a publish is refused exactly for the empty and the missing topic, and otherwise answered with the number of messages published to its topic before it |
| QueueRuns.DeliveredWasPublished | crates/app-sdk/src/stubs.rs:183-229 | whatever a run delivers was published earlier in it with the same topic and payload, and that publish was answered its offset |
| QueueRuns.SessionsAreFixed | crates/app-sdk/src/stubs.rs:534-572 | a session keeps its number, topic, group and maximum for the rest of every run |
| QueueRust.SessionIdsDiffer | crates/app-sdk/src/stubs.rs:564-571 | generated session ids are distinct |
| QueueRust.Store.Publish | crates/app-sdk/src/messaging.rs:158-195 | refines publish, with both error cases |
| QueueRust.Store.MessageIsAvailable | crates/app-sdk/src/stubs.rs:574-584 | true exactly when the group's cell is available or was never seen |
| QueueRust.Store.SessionFor | crates/app-sdk/src/stubs.rs:534-572 | resolves or creates the session with the three error cases in order |
| QueueRust.Store.SelectMessages | crates/app-sdk/src/stubs.rs:204-211 | the read-only pass selects the messages the abstract queue selects |
| QueueRust.Store.DeliverOne | crates/app-sdk/src/stubs.rs:586-606 | one state entry per key, marked acquired, count saturating |
| QueueRust.Store.DeliverSelected | crates/app-sdk/src/stubs.rs:204-223 | selecting everything and then marking it delivers exactly the selection |
| QueueRust.Store.Acquire | crates/app-sdk/src/stubs.rs:183-229 | refines acquire: same state, same reply with Rust's ids and counts |
| QueueRust.Store.FindOwned | crates/app-sdk/src/stubs.rs:255-262 | finds a state exactly when the session owns the message |
| QueueRust.Store.Acknowledge | crates/app-sdk/src/stubs.rs:231-282 | refines acknowledge: same state and per-entry verdicts |
| QueueRust.Store.Renew | crates/app-sdk/src/stubs.rs:284-322 | refines renew and changes nothing |
| MessageIds.MessageIdInjective | sdks/go/queues.go:399-401 | different coordinates never print alike, for all topics |
| MessageIds.ParsePrinted | sdks/go/queues.go:333-347 | a printed id in range parses back if and only if the topic is non-empty and has no colon, and is refused otherwise |
| MessageIds.ColonTopicDoesNotParse | sdks/go/queues.go:333-347 | the printed id of topic "a:b" does not parse |
| QueueGo.WrapNext | sdks/go/queues.go:225-225 | incrementing the int32 count wraps at its maximum |
| QueueGo.SessionIdsDiffer | sdks/go/queues.go:192-193 | generated session ids are distinct |
| QueueGo.Store.Publish | sdks/go/mock.go:54-67 | refines publish, with the record validation before it |
| QueueGo.Store.QueueDelivery | sdks/go/mock.go:69-79 | the record created on first sight stands for a message the group has never seen |
| QueueGo.Store.AcquireMessage | sdks/go/queues.go:221-227 | marks one message acquired and returns it with its printed id and wrapped count |
| QueueGo.ScanStep | sdks/go/queues.go:207-217 | delivering while scanning selects the same messages as selecting first: each look finds its message untouched by the deliveries before |
| QueueGo.Store.ScanAndAcquire | sdks/go/queues.go:206-218 | the single interleaved pass delivers exactly the abstract selection |
| QueueGo.Store.SessionFor | sdks/go/queues.go:191-205 | resolves or creates the session with the three error cases in order |
| QueueGo.Store.Acquire | sdks/go/queues.go:183-219 | refines acquire: same state, same reply with Go's ids and counts |
| QueueGo.Store.FindAcquired | sdks/go/queues.go:265-275 | for any id text, finds a message exactly when the session owns the message the id names |
| QueueGo.Store.Acknowledge | sdks/go/queues.go:229-248 | refines acknowledge for any id texts: same state and per-entry verdicts |
| QueueGo.Store.Renew | sdks/go/queues.go:250-263 | refines renew for any id texts and changes nothing |
| QueueSimulation.CountsAgreeIff | sdks/go/queues.go:225-225 | the Rust and Go counts agree if and only if the true count is at most 2^31-1 or congruent to it modulo 2^32 |
| QueueSimulation.ViewsAgree | crates/app-sdk/src/stubs.rs:183-322 | two stores answering one operation from one abstract state give the same messages, counts below 2^31-1 and verdicts, up to spelling |
| QueueSimulation.RunBoth | sdks/go/queues.go:183-285 | over every script of publish, acquire, acknowledge and renew, both stores started empty answer alike and as the abstract queue |
| Incremental.DrainConcat | crates/app-sdk/src/connect_client.rs:292-317 | draining a buffer in two parts is draining it at once, for every step function whose decisions are stable |
| Connect.DecodeNextIsStable | crates/app-sdk/src/connect_client.rs:71-102 | bytes that arrive later never change a decoded or refused frame |
| Connect.DrainBuffer | crates/app-sdk/src/connect_client.rs:292-317 | the inner loop decodes every complete frame and stops at errors and end of stream |
| Connect.ReadStreamingResponse | crates/app-sdk/src/connect_client.rs:273-325 | the delivered items depend only on the received bytes, not on how the body cuts them, with body errors and partial frames reported |
| Connect.EncodedStreamReadsBack | crates/app-sdk/src/connect_client.rs:40-102 | encoded messages followed by any ending (nothing, a partial frame, a broken body, an end of stream with any trailer, a compressed or unknown frame) are delivered as exactly those messages in order and the one error, if any, of that ending |
| Connect.EveryStreamIsEncoded | crates/app-sdk/src/connect_client.rs:71-102 | every byte stream is encoded messages followed by an ending, so the reader's answer is given on all of them |
| PgWire.StartupParameters | tools/gres-wire-recorder.py:39-73 | the checks accept exactly the packets of acceptable fields and return all but the identity |
| PgWire.CheckPairs | tools/gres-wire-recorder.py:53-72 | the loop accepts exactly distinct, valid, allowlisted pairs that include user and database |
| PgWire.StartupAccepts | tools/gres-wire-recorder.py:39-73 | every acceptable list of fields, framed as a packet, is accepted |
| PgWire.StartupAcceptsOnly | tools/gres-wire-recorder.py:39-73 | every accepted packet is the framing of acceptable fields |
| PgWire.DecoderIsPayloadSafe | tools/gres-wire-recorder.py:95-126 | for every byte stream only allowlisted settings and the three allowlisted SET batches are held, never the identity |
| PgWire.ConversationReadsBack | tools/gres-wire-recorder.py:101-126 | after SSL requests, a startup packet with acceptable fields and messages that do not raise, the decoder holds exactly the settings those fields keep and the batches those messages record, in order |
| PgWire.ConversationRaises | tools/gres-wire-recorder.py:101-126 | the first query that raises ends the conversation with the batches before it |
| PgWire.VerdictMeans | tools/gres-wire-recorder.py:75-92 | a batch is recorded exactly for a zero-terminated UTF-8 query that sets an allowlisted setting to its value, as the canonical text; a query is passed over exactly when it is not a SET; everything else raises |
| PgWire.Decoder.FeedStartup | tools/gres-wire-recorder.py:103-115 | skips SSL requests, waits for or reads the startup packet |
| PgWire.Decoder.FeedMessages | tools/gres-wire-recorder.py:116-126 | consumes every complete message and records or raises on queries |
| PgWire.Decoder.Feed | tools/gres-wire-recorder.py:101-126 | a further chunk takes the decoder where all bytes at once would, or raises exactly when they would |
| PgWire.FeedChunks | tools/gres-wire-recorder.py:95-126 | however the stream is cut, the decoder ends as if fed it whole and holds only what may be recorded |
| TopoSort.OrderHasNoCycle | tools/bootstrap-publish.py:82-106 | a listing with dependencies first rules out every cycle |
| TopoSort.Sorter.Dfs | tools/bootstrap-publish.py:87-102 | visits the package and what it needs, or names a package on a cycle; terminates on the unvisited packages |
| TopoSort.TopologicalSort | tools/bootstrap-publish.py:82-106 | returns each package once after its in-set dependencies if and only if the graph without self-loops has no cycle |
| Bits.SetBit | crates/blockstore/src/bloom.rs:88-98 | or-ing one bit into a word sets that bit and no other, as the mask test sees it |
| Bloom.HashFnv1 | crates/blockstore/src/bloom.rs:8-18 | the loop computes 32-bit FNV-1 |
| Bloom.HashFnv1a | crates/blockstore/src/bloom.rs:20-30 | the loop computes 32-bit FNV-1a |
| Bloom.Probes | crates/blockstore/src/bloom.rs:81-86 | the k probe positions, all below the number of bits |
| Bloom.InsertInto | crates/blockstore/src/bloom.rs:88-93 | the packed words gain exactly the id's probe positions |
| Bloom.ShardMayContain | crates/blockstore/src/bloom.rs:95-98 | true exactly when every probe position is set |
| Bloom.Validate | crates/blockstore/src/bloom.rs:67-79 | accepts exactly the non-empty shard sets in which every shard has a position to probe and a word for every bit position |
| Bloom.ShardedTraceBloom.Insert | crates/blockstore/src/bloom.rs:160-163 | after any inserts the set positions are those at the start plus the probes of the inserted ids |
| Bloom.ShardedTraceBloom.MaybeContains | crates/blockstore/src/bloom.rs:166-169 | every inserted id is reported; another is reported exactly when all its probes are covered |
| Labels.InsertKeepsOrder | crates/blockstore/src/labels.rs:33-35 | inserting keeps the names in strict byte order |
| Labels.InsertMeans | crates/blockstore/src/labels.rs:33-35 | inserting gives the name its new value and leaves the others |
| Labels.LabelSet.FromPairs | crates/blockstore/src/labels.rs:20-31 | each name gets the value given last |
| Labels.OrderDoesNotMatter | crates/blockstore/src/labels.rs:69-88 | with distinct names, any insertion order gives the same set and the same hashed bytes |
| Labels.EncodeIsInjective | crates/blockstore/src/labels.rs:69-88 | different label sets never feed the same bytes to the hash |
| Labels.LabelSet.Fingerprint | crates/blockstore/src/labels.rs:69-88 | the nested loops compute 64-bit FNV-1a of the canonical encoding |
| Labels.MixIsBijective | crates/blockstore/src/labels.rs:83-84 | one FNV-1a step is injective in the hash and in the byte |
| Labels.OneByteChangesHash | crates/blockstore/src/labels.rs:69-88 | encodings of equal length that differ in one byte never share a fingerprint |
| Acl.MatchingAcls | crates/authz/src/cache.rs:32-46 | keeps exactly the entries of the type whose literal, wildcard or prefix pattern matches, in order and as often as they stand |
| Acl.Authorize | crates/authz/src/simple.rs:55-92 | the early-exit loop allows exactly super users and requests with a grant and no denial |
| Acl.OrderAndRepetitionDoNotMatter | crates/authz/src/simple.rs:55-92 | the decision depends only on which entries there are |
| Acl.GrantsAndDenialsAreMonotone | crates/authz/src/simple.rs:55-92 | more grants never take access away and more denials never give it |
| Acl.HasEffectivePermission | crates/admin-ui/src/permissions.rs:162-186 | true exactly when some counted entry allows and none denies |
| Acl.UiAgreesWithEvaluator | crates/admin-ui/src/permissions.rs:146-200 | for a host, the UI grants exactly what the evaluator allows on some resource of the type and denies explicitly on none |
| Acl.UnknownHostIsUnnamedHost | crates/admin-ui/src/permissions.rs:154-160 | without a host the UI decides as for any host that no entry names |
| Acl.DeriveCapabilities | crates/admin-ui/src/permissions.rs:83-144 | each capability bit is set exactly when the permissions it stands for are effective |
| Ratchet.Compare | scripts/gres-pg-regress-baseline.py:302-330 | each class lists exactly its tests in schedule order |
| Ratchet.SafeIffNoWorse | scripts/gres-pg-regress-baseline.py:456-460 | the unsafe classes are empty exactly when no failure is new, worse or different at the same count |
| Ratchet.BaselineFile.Check | scripts/gres-pg-regress-baseline.py:443-462 | exit code 0 exactly when the failures equal those of a valid baseline for the same schedule |
| Ratchet.BaselineFile.Update | scripts/gres-pg-regress-baseline.py:443-468 | replaces the baseline exactly when nothing is worse and something is better, otherwise raises and leaves it alone |
| Ratchet.UpdateShrinks | scripts/gres-pg-regress-baseline.py:453-468 | every accepted update strictly lowers the total of changed lines |
| Ratchet.HistoryOnlyImproves | scripts/gres-pg-regress-baseline.py:453-468 | over every history of updates no passing test fails again, no failure grows, and updates are at most the lines at the start |

## Left out

- Tokio channels, sleepers, tracing and the wall clock: events, ticks and times are inputs in any order.
- File system errors: spool operations succeed, and a crash leaves a prefix of one append.
- AuditWriters.AuditWriter.Spooled: the branch where the append fails with an I/O error, which also drops the record, is not modelled.
- AuditWriters.AuditWriter.Replay: the error returns of read, truncate and rewrite, which leave records both in sink and spool, are covered only through `AuditRestart.ReplayCrashIsVisible`.
- OCSF JSON building, JSON text, directory reading, segment and record-batch decoding: values are bytes, a checkpoint is its JSON object, the verifier's input is a list of batches of records.
- SHA-256 and Ed25519 themselves, which are parameters.
- 64-bit overflow of the sequence number, of `seq_high + 1` and of spool sizes: runs stay below 2^64 events.
- AuditEndToEnd.RunAndVerifySigned: takes a size bound on checkpoint texts (`ShortCheckpoints`) as a hypothesis, which is not derived from the JSON encoder.
- AuditRestart.RestartWithinBudget: the partition is whole from offset 0; a log start moved by retention, and read errors, make the read return nothing, which `AuditRestart.RestartFindsChainIff` covers.
- LogRead.ReadBatches: index entries name batches by number, and batches that do not decode are left out.
- The gateway clients, transport errors, lock durations and argument checks around the queue stores.
- QueueSimulation.ViewsAgree: counts above 2^31-1 differ between the stores; `QueueSimulation.CountsAgreeIff` says exactly when.
- Aliasing of Go delivery records: the records are values in a map inside each message, and an update replaces the map entry.
- A receiver that is dropped while the Connect reader is sending, and 32-bit `usize`.
- The two regular expressions of the wire recorder: any function from query text to a setting is allowed, and payload safety holds for all of them.
- Python's recursion limit in the topological sort, and the reading of package manifests.
- Floating-point sizing of bloom shards and their serialization: the bit count and probe count are inputs.
- Subscription filters, label queries, the document types of the baseline JSON, and the `seed` and `generate` commands.
