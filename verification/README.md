# ETS verification

A Dafny model of the parts of ETS whose correctness spans several operations, with proofs about
every input, every run and every crash point. `dafny verify dfyconfig.toml` checks the project.

- **Black Box recorder** (`BlackBox*.dfy`, `SortedKeys.dfy`). The recorder is a machine whose steps are
  single store calls; a crash may fall between any two. `BlackBoxRecorder.dfy` holds the store and the
  recorder as classes and proves each operation to be a run of machine steps.
- **Resumable Table suffix writer** (`Table*.dfy`, `EntryKeys.dfy`, `Suffix*.dfy`). Rows are
  dictionaries compared with Python's equality; a run may be cut off after any number of writes.
- **RFC 5425 framer** (`SyslogFraming.dfy`, `Decimals.dfy`), section 4.3 of RFC 5425.
- **Cycle checks and work queue** (`CycleDetection.dfy`, `DissertationQueue.dfy`, `QueueMeaning.dfy`,
  `Ordering.dfy`).
- **AI Witness ledger and queue** (`AIWitness.dfy`, `WitnessQueue.dfy`).
- **Bounded stream digest** (`ObjectDigest.dfy`).

Hashes, signatures, encryption, clocks, streams and nonces are parameters. Where a theorem needs a law
of one (a signature verifies under its own key, nothing else does, decryption inverts encryption, a hash has no
collisions, hashing in pieces is hashing the whole) the law is a named precondition. For the suffix
writer it speaks only of the finitely many documents built from the rows of the two tables at hand.

## What the proofs found

- A Black Box capture whose post window ran out, whose first observation is later in wall-clock time
  than its last, and whose recorder stopped before sealing, can never be opened again: the constructor
  insists on sealing it and the manifest refuses (`NeverOpensAgain`, reached from power-off in
  `StuckIsReachable`). Otherwise recovery at a seal time no stored segment bears succeeds, however often
  it was interrupted before (`InterruptedRecovery`), and seals the capture once (`RecoverySealsOnce`).
- The suffix writer says it tolerates only exact copies of source rows; its row comparison is Python's
  `==`, which identifies `True`, `1` and `1.0`, while its digests do not. A staged row that differs in
  this way is accepted, the copy finishes, and every later run refuses the finished table. A rerun is
  accepted exactly when no row found in the destination differs so (`RerunAfterFinish`, `TrueForOne`);
  a one-event table that finishes and is then refused is written out in `FinishedThenRefused`, and with
  concrete digests in `RefusalHappens`.
- Over any number of interrupted runs a copy whose mark was behind ends equal to the source exactly when
  the runs together get more writes than there are missing rows (`CopyIsEqualIff`).
- When both high-water marks already agree, the metadata row is never rewritten, so a run ends well
  exactly when the two metadata rows are equal (`EqualMarks`, `UninterruptedRun`).
- A framer feed that fails returns none of the messages it had completed, so how a broken stream is cut
  decides which messages are delivered (`CutDecidesLoss`); `NothingLostIff` says exactly when none is lost.
- A length over the message limit is forgotten with the error, so a framer that is fed on afterwards reads
  the message's own bytes as the next length; every other error leaves the digits in place (`NextByte`).
- The in-memory Black Box store keeps a segment sealed before any state exists and then raises; the
  SQLite store rolls back. The recorder never makes that call.

## Model

| member | source | states |
|---|---|---|
| BlackBoxVerifier.VerifySegment | ets/black_box/service.py:286-369 | the loop accepts exactly the segments whose frames form a numbered, hash-linked, signed chain ending in the manifest's head and whose manifest digest, identifier and signature match; what it accepts carries a verifying signature on every frame and on the manifest |
| BlackBoxVerifier.AcceptedIsAuthentic | ets/black_box/service.py:279-353 | if only what the key holder signed verifies, every frame payload and the manifest payload of an accepted segment were signed |
| BlackBoxVerifier.ForgedSignatureRefused | ets/black_box/service.py:309-315 | replacing a frame signature by one that does not verify makes the segment invalid |
| BlackBoxVerifier.ChainHeadFixesFrames | ets/black_box/service.py:264-369 | without collisions, two verified segments with one chain head agree frame by frame, up to signature bytes, as far back as both reach |
| BlackBoxVerifier.SegmentIdFixesSegment | ets/black_box/service.py:329-353 | without collisions, two verified segments with one identifier agree on all frames and every signed manifest field |
| BlackBoxMachine.ListedWindow | ets/black_box/store.py:92-96 | listing a live table that holds a suffix of the history gives that suffix in order |
| BlackBoxMachine.LiveFramesAccepted | ets/black_box/service.py:487-512 | the boot-time check accepts the live frames of any state the recorder can leave behind |
| BlackBoxMachine.CommitIsAllowed | ets/black_box/store.py:82-90 | the store's conflict checks never refuse a frame the recorder commits |
| BlackBoxMachine.SealOutcome | ets/black_box/service.py:423-475 | with a capture active the missing-frame and gap checks cannot fire; the only refusals are a window reversed in wall-clock time and a repeated identifier; what would be stored is a verified slice of the history |
| BlackBoxMachine.BootKeeps | ets/black_box/service.py:92-122 | opening the recorder, legally or not, keeps the store invariant |
| BlackBoxMachine.RecordKeeps | ets/black_box/service.py:136-193 | committing a frame keeps one signed chain, strict boot and monotonic order, and every sealed slice |
| BlackBoxMachine.FireKeeps | ets/black_box/service.py:206-233 | a trigger freezes a first sequence that is still live and not after the trigger |
| BlackBoxMachine.SealKeeps | ets/black_box/service.py:423-475 | sealing adds one verified slice under a new identifier and clears the capture together |
| BlackBoxMachine.PruneKeeps | ets/black_box/service.py:477-479 | pruning leaves a non-empty suffix that contains the rolling window |
| BlackBoxMachine.StepKeeps | ets/black_box/service.py:92-193 | every step, a crash included, keeps the invariant, only extends the history and never alters a sealed segment |
| BlackBoxMachine.EveryRunIsConsistent | ets/black_box/service.py:92-193 | from power-off, over any boots, operations and crashes: live frames are a suffix of everything recorded and non-empty once started, sequence and head describe its end, (boot counter, monotonic time) strictly increases with one boot id per counter, every segment is a verified slice |
| BlackBoxProvenance.BootOutcome | ets/black_box/service.py:92-117 | for every store: a boot out of bounds, under another device or key, with a lower counter, or with the same counter and another boot id changes nothing; any other writes its counter and id over an otherwise unchanged state, and the live frames and the capture decide |
| BlackBoxProvenance.BootsOnlyAdvance | ets/black_box/service.py:101-115 | over every run the stored boot counter never falls and a counter keeps its boot id |
| BlackBoxProvenance.LiveStateFromHead | ets/black_box/service.py:487-512 | the live check is exactly the one made backwards from the persisted head: numbers, hashes, key and signature of every frame |
| BlackBoxProvenance.AcceptedLiveFramesAgree | ets/black_box/service.py:487-512 | without collisions, two live tables accepted for one state agree as far back as both reach |
| BlackBoxProvenance.ObservationAcceptedIff | ets/black_box/service.py:136-187 | an idle recorder takes an observation exactly when it fits, is of its device and boot and is later than the last; the frame continues the history |
| BlackBoxProvenance.TriggerAcceptedIff | ets/black_box/service.py:206-233 | a capture starts exactly without one active, with something recorded and a request in bounds; it repeats the request and freezes the rolling window |
| BlackBoxProvenance.EverythingWasSubmitted | ets/black_box/service.py:136-242 | over every run: recorded observations are a subsequence of those offered, and every segment repeats a requested trigger, names the recorder's device and key, and was completed, recovered or force-sealed on request |
| BlackBoxProvenance.EveryManifestIsTrue | ets/black_box/models.py:277-305 | over every run: range, count, trigger position, times, head and identifier of every stored manifest are those of its slice of the history |
| BlackBoxProvenance.RangeMeaning | ets/black_box/models.py:277-289 | what the manifest's range check accepts |
| BlackBoxProvenance.AcceptedIsRecorded | ets/black_box/service.py:286-369 | if nothing verifies under the key but recorded frames and manifests, every accepted segment, wherever from, shows a slice of the recorded history |
| BlackBoxRecovery.RestartRestores | ets/black_box/service.py:101-122 | after a crash anywhere, a legal boot passes the live check, loses no live frame and changes only boot fields, then resumes or seals with reason Recovery |
| BlackBoxRecovery.NewClockNewId | ets/black_box/store.py:98-103 | a segment sealed at a time no stored segment bears cannot repeat an identifier |
| BlackBoxRecovery.RecoveryOutcome | ets/black_box/service.py:117-122 | recovering an exhausted capture stores exactly one Recovery segment of the frozen window if the window is ordered in wall-clock time and that segment is not already stored, and otherwise abandons the boot with no frame or segment changed |
| BlackBoxRecovery.RecoveryAtNewTime | ets/black_box/service.py:117-122 | without collisions, at a time no stored segment bears, wall-clock order of the window alone decides whether recovery seals |
| BlackBoxRecovery.RecoverySealsOnce | ets/black_box/service.py:471-475 | from a stopped exhausted capture, for every list of events: until something is sealed no frame, segment or capture changes; the next segment stored is the capture's Recovery segment; and while there are only boots, store calls and crashes between any two of them, it is the only one and no capture is left |
| BlackBoxRecovery.InterruptedRecovery | ets/black_box/service.py:101-122 | after any such interruptions, one legal boot left to finish ends with the capture sealed exactly once if it had been sealed or can be sealed now, and otherwise stores and loses nothing |
| BlackBoxRecovery.NeverOpensAgain | ets/black_box/models.py:285-286 | an exhausted capture reversed in wall-clock time admits no further frame, segment or open recorder under any events |
| BlackBoxRecovery.StuckIsReachable | ets/black_box/service.py:186-192 | two frames with the clock stepping back, a trigger and one crash reach that state from power-off |
| BlackBoxWindows.WindowsAreExact | ets/black_box/service.py:173-193 | without crashes inside operations, with windows in wall-clock order and new identifiers: idle live size is min(last, pre), remaining plus frames since the trigger is post, completed segments hold min(pre, trigger) + post frames |
| BlackBoxRecorder.BlackBoxStore.CommitFrame | ets/black_box/store.py:82-90 | frame and state are stored together or not at all, with the exact refusal condition |
| BlackBoxRecorder.BlackBoxStore.ListLiveFrames | ets/black_box/store.py:92-93 | live frames by increasing sequence |
| BlackBoxRecorder.BlackBoxStore.SealSegment | ets/black_box/store.py:98-103 | segment and state are stored together; a stored identifier changes nothing; without a state the segment is kept and the call fails |
| BlackBoxRecorder.BlackBoxRecorder.VerifyLiveState | ets/black_box/service.py:487-512 | the loop accepts exactly the live states described declaratively |
| BlackBoxRecorder.BlackBoxRecorder.Open | ets/black_box/service.py:55-122 | a foreign, rolled-back or reused boot is refused with its own error and changes nothing; otherwise the constructor is a boot step followed by its seal and prune steps; a consistent store stays consistent |
| BlackBoxRecorder.BlackBoxRecorder.SealActive | ets/black_box/service.py:423-475 | refuses with the first failing check and changes nothing, or is the seal and prune steps |
| BlackBoxRecorder.BlackBoxRecorder.Record | ets/black_box/service.py:136-193 | which observations are refused, with which error, and that nothing changes then; otherwise the machine steps, the frame staying committed when the following seal is refused |
| BlackBoxRecorder.BlackBoxRecorder.Trigger | ets/black_box/service.py:195-233 | result and new state for every input, as machine steps |
| BlackBoxRecorder.BlackBoxRecorder.ForceSealing | ets/black_box/service.py:235-242 | refused exactly for completion as a reason or without a capture; otherwise the seal and prune steps |
| TableEntities.ListingIsCanonical | scripts/azure_migration_gate4_restore.py:111-153 | a listing holds exactly the rows without service properties, once each, in key order |
| TableEntities.CanonicalIsUnique | scripts/azure_migration_gate4_restore.py:141-153 | two canonical lists whose rows are equal as Python compares are equal lists |
| TableMeaning.ListableIff | scripts/azure_migration_gate4_restore.py:111-153 | which stored rows a listing takes, said of keys and property values |
| TableMeaning.ListedIff | scripts/azure_migration_gate4_restore.py:111-139 | a listing holds each row without service properties and nothing else |
| TableMeaning.ListingInKeyOrder | scripts/azure_migration_gate4_restore.py:150-153 | in code-point order of partition and then row key |
| TableState.ContiguousCovers | scripts/azure_migration_prefix_preflight.py:182-184 | counts, distinct indexes and the range test together give a row for every index |
| TableState.ValidatedState | scripts/azure_migration_prefix_preflight.py:131-204 | accepts exactly the tables with one sound metadata row and well-keyed entries and index rows numbered 0 to next - 1, and returns their digests |
| TableMeaning.ValidTableIff | scripts/azure_migration_prefix_preflight.py:131-184 | the validation accepts exactly the tables with one metadata row announcing n, and for each index below n one entry and one index row with the prescribed fields, and no other row |
| TableMeaning.StateInRows | scripts/azure_migration_prefix_preflight.py:186-204 | the state reports n, the row count, the digest of the five identity fields and per index the digest of the eleven compared fields of its two rows |
| EntryKeys.EntryKeysFollowTheLog | scripts/azure_migration_prefix_preflight.py:163-164 | below ten to the twentieth the entry key denotes the log index and key order is log order |
| SuffixWriter.AnalyzeDestination | scripts/azure_migration_gate4_suffix_writer.py:80-173 | accepts exactly the destinations that repeat source rows under a mark not beyond the source's and whose committed rows are a valid digest prefix; returns the plan |
| TableMeaning.AcceptableIff | scripts/azure_migration_gate4_suffix_writer.py:80-153 | what the analysis accepts, said of the rows of both tables |
| SuffixProtocol.MissingRows | scripts/azure_migration_gate4_suffix_writer.py:155-162 | the plan lists exactly the absent source rows at or above the mark, once each, by index, entries first |
| SuffixProtocol.MissingInLogOrder | scripts/azure_migration_gate4_suffix_writer.py:155-162 | exactly the source rows at or above the mark whose key is free, by log index and the entry before its index row |
| SuffixProtocol.MissingIsFresh | scripts/azure_migration_gate4_suffix_writer.py:176-198 | no insert can collide with a stored key, so the fail-if-exists write succeeds |
| SuffixProtocol.InsertMany | scripts/azure_migration_gate4_suffix_writer.py:275-280 | stopping after any number of inserts leaves an acceptable destination with the same mark and committed rows and exactly the remaining rows missing |
| SuffixProtocol.CommittedCovers | scripts/azure_migration_gate4_suffix_writer.py:140-153 | every source row under the destination's mark is present |
| SuffixProtocol.SameIsValid | scripts/azure_migration_gate4_suffix_writer.py:295-300 | a table equal to a valid one, with integer indexes and sound metadata, is valid |
| SuffixRuns.ApplyResumableSuffix | scripts/azure_migration_gate4_suffix_writer.py:262-308 | stored rows, rows inserted, whether the mark moved and the outcome, for every write budget; a disagreeing manifest or a refused listing stops the run before any write |
| SuffixRuns.InsertsAreFresh | scripts/azure_migration_gate4_suffix_writer.py:276-277 | within a run no insert meets a key already stored or inserted |
| SuffixRuns.MetadataKeysAgree | scripts/azure_migration_gate4_suffix_writer.py:287-293 | unless the two metadata identities collide, the metadata write replaces the destination's own metadata row |
| SuffixTheorems.AdvanceCompletes | scripts/azure_migration_gate4_suffix_writer.py:286-299 | moving the mark with nothing missing makes the destination equal to the source |
| SuffixTheorems.EqualMarks | scripts/azure_migration_gate4_suffix_writer.py:286-299 | with equal marks the final comparison holds exactly when the metadata rows are equal |
| SuffixTheorems.RunOutcome | scripts/azure_migration_gate4_suffix_writer.py:262-299 | one run, cut off anywhere: what it inserted, that the mark moves only after all inserts, that it resumes otherwise, and that moving the mark completes the copy |
| SuffixTheorems.UninterruptedRun | scripts/azure_migration_gate4_suffix_writer.py:262-308 | a run that is not cut off finishes exactly when the mark had to move or the metadata rows are equal |
| SuffixConvergence.EveryOutcome | scripts/azure_migration_gate4_suffix_writer.py:262-308 | for every destination, manifest and budget: refused without a write exactly when manifest or analysis disagree, otherwise finished, interrupted or rejected by marks, metadata and budget |
| SuffixTheorems.CompletedRunWritesNothing | scripts/azure_migration_gate4_suffix_writer.py:262-299 | a run on any table equal to the source writes nothing and finishes, or is refused, exactly as the analysis answers |
| SuffixTheorems.AlikeMeansSameDigests | scripts/azure_migration_gate4_suffix_writer.py:147-153 | past row equality and committed validation, the pair-digest check cannot fail if committed rows encode as their originals |
| SuffixTheorems.SameDigestsMeanAlike | scripts/azure_migration_gate4_suffix_writer.py:147-153 | if no two row pairs of the two tables collide, it can hold only then |
| SuffixTheorems.ExactRowsEncodeAlike | scripts/azure_migration_prefix_preflight.py:103-114 | equal rows without booleans or floats in the compared fields encode alike |
| SuffixConvergence.RerunAcceptedIff | scripts/azure_migration_gate4_suffix_writer.py:140-153 | a completed copy is accepted again exactly when every row encodes as its original |
| SuffixConvergence.TrueForOne | scripts/azure_migration_gate4_suffix_writer.py:128-131 | a row with True where the source has 1 passes the row comparison and encodes differently |
| SuffixConvergence.RerunAfterFinish | scripts/azure_migration_gate4_suffix_writer.py:262-299 | after any run that finishes, marks equal at the start or not, a further run writes nothing and is accepted exactly when all rows found at the start encoded as their originals |
| SuffixWitness.AcceptedButNotAlike | scripts/azure_migration_gate4_suffix_writer.py:128-131 | a valid source and a destination with one staged row that the analysis accepts although the row encodes differently |
| SuffixWitness.FinishedThenRefused | scripts/azure_migration_gate4_suffix_writer.py:262-299 | for all digests that differ on the two entry/index pairs involved: a run with two writes finishes and the next, whatever its budget, is refused |
| SuffixWitness.RefusalHappens | scripts/azure_migration_gate4_suffix_writer.py:262-299 | the same for concrete digests, without any assumption |
| SuffixConvergence.StagedPlusMissing | scripts/azure_migration_gate4_suffix_writer.py:164-173 | staged plus missing rows are two per index between the marks |
| SuffixConvergence.PrefixState | scripts/azure_migration_gate4_prefix_plan.py:32-62 | accepts exactly the valid digest prefixes of the source and reports the rows beyond the mark |
| SuffixConvergence.PlannerAgrees | scripts/azure_migration_gate4_prefix_plan.py:32-62 | with nothing staged the planner accepts what the writer accepts, with the same count |
| SuffixConvergence.RunsConverge | scripts/azure_migration_gate4_suffix_writer.py:262-299 | over any number of runs cut off anywhere: the mark has moved exactly when it was behind and the runs together got more writes than rows were missing; until then only min(writes, missing) rows were added, none twice, and the table stays acceptable with committed rows unaltered; afterwards the copy is complete with each missing row inserted once and the mark moved once |
| SuffixConvergence.CopyIsEqualIff | scripts/azure_migration_gate4_suffix_writer.py:286-299 | the stored rows end equal to the source exactly when the mark was behind and the writes exceed the missing rows, or the marks agreed and the metadata rows are equal |
| SyslogFraming.ResolveLimits | ets/capture/syslog_framing.py:20-32 | which constructor bounds are accepted |
| SyslogFraming.FeedTwiceIsFeedOnce | ets/capture/syslog_framing.py:47-89 | two feeds succeed exactly when one feed of the concatenation does, with the same frames and state |
| SyslogFraming.ChunkedFeeds | ets/capture/syslog_framing.py:47-89 | successive feeds end in the state and error of the whole stream; they return the frames completed before the failing chunk, and those completed in it are what is missing |
| SyslogFraming.NothingLostIff | ets/capture/syslog_framing.py:47-89 | the frames returned are a prefix of the stream's, and all of them exactly when no feed fails or the failing one completed none |
| SyslogFraming.CutDecidesLoss | ets/capture/syslog_framing.py:47-89 | a message and a stray byte: fed apart the message is returned, fed together it is lost |
| SyslogFraming.RoundTrip | ets/capture/syslog_framing.py:47-107 | in-bound messages, encoded and fed in any chunks, come back unchanged and the stream may finish |
| SyslogFraming.NextByte | ets/capture/syslog_framing.py:55-107 | after any messages and digits, the effect of every byte: which error it causes and what is retained |
| SyslogFraming.AcceptedIffEncoding | ets/capture/syslog_framing.py:47-107 | a stream is accepted to its end exactly when it encodes in-bound messages, which are the frames returned |
| SyslogFraming.EncodingIsInjective | ets/capture/syslog_framing.py:97-107 | distinct message lists have distinct encodings |
| SyslogFraming.RunConserves | ets/capture/syslog_framing.py:55-87 | pending bytes plus input are the encoding of the frames plus the new pending bytes |
| SyslogFraming.StreamAccounting | ets/capture/syslog_framing.py:41-89 | byte counts balance, at most max(prefix limit, message limit - 1) bytes are retained, and the buffer-limit and invalid-state errors never occur |
| SyslogFraming.OctetCountingFramer.TakeMessageBytes | ets/capture/syslog_framing.py:71-87 | taking message bytes in bulk is taking them one at a time |
| SyslogFraming.OctetCountingFramer.Feed | ets/capture/syslog_framing.py:47-89 | result and retained state equal the byte-at-a-time machine's, errors included |
| SyslogFraming.OctetCountingFramer.Finish | ets/capture/syslog_framing.py:91-95 | succeeds exactly with nothing pending |
| CycleDetection.FindCycle | tools/check_core_boundaries.py:58-84 | None exactly when the graph has no cycle, otherwise a closed path of its edges, for every visiting order |
| CycleDetection.ValidateAcyclic | scripts/dissertation_queue.py:172-188 | accepts exactly the acyclic dependency graphs |
| CycleDetection.SinkExists | scripts/dissertation_queue.py:172-188 | in an acyclic graph every nonempty set has a member leading to no other |
| DissertationQueue.ValidateQueue | scripts/dissertation_queue.py:50-169 | accepts exactly the queues with the required header, sound sprints and tasks, known non-repeated dependencies on no later sprint, and no dependency cycle |
| QueueMeaning.ValidQueueIff | scripts/dissertation_queue.py:50-188 | the same, said of sprints and tasks: header values, distinct identifiers and slots, each task's own conditions, dependencies on known tasks of no later sprint, no circle of dependencies |
| DissertationQueue.ReadyTasks | scripts/dissertation_queue.py:191-216 | exactly the ready tasks that may run, each once, by priority number, then sprint order, then task order; or an error exactly for invalid queues |
| DissertationQueue.SelectionPayload | scripts/dissertation_queue.py:249-269 | the ready task that goes before all others that may run, else the planned one, else the blocked identifiers; or an error exactly for invalid queues |
| DissertationQueue.SelectionIsBest | scripts/dissertation_queue.py:249-269 | the selected task may run and has the smallest priority number, then sprint order, then task order; promotion only without a ready task; no task only without any |
| DissertationQueue.BestIsUnique | scripts/dissertation_queue.py:208-216 | only one task can be selected |
| DissertationQueue.BlockedIdsExact | scripts/dissertation_queue.py:264-269 | the identifiers reported when nothing is selectable are exactly those of the blocked and human-review tasks |
| DissertationQueue.BlockedIdsInOrder | scripts/dissertation_queue.py:264-269 | they are named in queue order |
| DissertationQueue.NeverStuck | scripts/dissertation_queue.py:249-269 | when all incomplete tasks are open to automation, no_ready_task is reported exactly when everything is completed |
| DissertationQueue.SetStatusKeepsValid | scripts/dissertation_queue.py:141-154 | promoting or completing an eligible task keeps the queue valid |
| DissertationQueue.PassesCompleteEverything | scripts/dissertation_queue.py:191-269 | repeated passes complete each incomplete task once, in exactly that many completions, never before its dependencies |
| AIWitness.VerifyChain | ets/ai_witness/service.py:164-188 | accepts exactly the non-empty, single-session, contiguous, digest-linked, verified chains without repeated event ids; every accepted record's signature verifies |
| AIWitness.AcceptedIff | ets/ai_witness/service.py:99-140 | after any submissions an event is accepted exactly when it fits into 48 KiB, names this witness, is numbered by its session's length and repeats no event id of its session; it is then recorded last, linked to its session |
| AIWitness.WellNumberedIsAccepted | ets/ai_witness/service.py:99-140 | a well-numbered interleaving of sessions is accepted whole and in order |
| AIWitness.EverySessionVerifies | ets/ai_witness/service.py:99-140 | for any interleaving of submissions, each session's accepted records verify |
| AIWitness.VerifiedIsRecorded | ets/ai_witness/service.py:142-188 | if nothing verifies under the key but what the ledger recorded, a verified chain is the beginning of one of its sessions |
| AIWitness.SameHeadSameEvents | ets/ai_witness/service.py:142-188 | without collisions, verified chains with one head digest carry the same events, links, keys and schemas |
| AIWitness.AcceptedDigestsDiffer | ets/ai_witness/service.py:105-139 | without collisions, accepted records have pairwise different digests |
| AIWitness.AIWitnessLedger.RecordEvent | ets/ai_witness/service.py:99-140 | acceptance and error for every event in terms of the records accepted before, and the new log; a rejected event changes nothing |
| WitnessQueue.QueueIsFifo | ets/ai_witness/durable_queue.py:60-112 | over any enqueues and head drains, acknowledged then waiting records are the accepted order |
| WitnessQueue.PipelineCarriesTheLog | ets/ai_witness/durable_queue.py:60-81 | no ledger record is refused as a duplicate, so drained then waiting records are the ledger's log |
| WitnessQueue.DeliveredSessionsVerify | ets/ai_witness/durable_queue.py:83-106 | what has been drained of a session is a prefix of its chain and verifies when non-empty |
| WitnessQueue.EncryptedWitnessQueue.Put | ets/ai_witness/durable_queue.py:60-81 | appends under a larger row id, or refuses exactly a digest already queued |
| WitnessQueue.EncryptedWitnessQueue.Peek | ets/ai_witness/durable_queue.py:83-98 | for limits 1 to 1000, on any table, the first min(limit, depth) rows decrypted to records of their own digests, or an integrity error exactly if one does not; on an intact table the records as enqueued |
| WitnessQueue.RelabelledRowRefused | ets/ai_witness/durable_queue.py:214-233 | under authenticated encryption a ciphertext moved to another digest does not decrypt |
| WitnessQueue.EncryptedWitnessQueue.Acknowledge | ets/ai_witness/durable_queue.py:100-106 | removes exactly the row with the digest and says whether there was one |
| ObjectDigest.DigestStream | ets/capture/object_digest.py:55-103 | for every reader: the loop ends, asks for at least one byte each time and takes at most one byte past the tighter limit; for every reader that delivers the content in any pieces and all arguments in range: success exactly for fitting, matching length with the whole-stream hash, and the exact error otherwise; arguments out of range are refused unread |

## Left out

- The `ets.core` Merkle tree, proofs, log and redaction, and the API routes over them.
- Cryptographic algorithms, canonical JSON and key derivation: parameters with named laws.
- Black Box restarts under a different private key, and the production-backend requirement.
- Black Box and AI Witness field validators for lengths, hexadecimal digits and time zones, except where a recorder decision depends on them; projections of segments and records into evidence events.
- Store failures other than stopping between calls; SQLite's own crash recovery is taken as the atomicity of each call, and its rollback of a seal without a state is not modelled.
- `verify_segment` returns a message; the model returns which check failed.
- Python's limit of 4300 digits when converting a length prefix, reachable only with a prefix limit above it.
- DissertationQueue.ValidateQueue: missing fields and values of the wrong JSON type in sprints and tasks are ruled out by the model's types, not refused by it.
- Python's recursion limit: both depth-first checks raise RecursionError on dependency chains near a thousand long, where "accepts exactly" no longer describes them.
- The person or automation that applies selections: a pass is modelled as completing the selected task or promoting the promotable one, which needs both statuses to be allowed.
- The queue's schema, key check and encryption details beyond decryption inverting encryption.
- Table property values NaN and negative zero, and the text form in which the command-line tool sends values: a write stores the row given.
- Azure, subprocess, environment and workspace handling in the migration scripts, and the Gate 5 to Gate 9B evidence checks; scripts/azure_migration_gate6_final_reconcile.py:118-157 repeats the modelled loop.
- `ets/lantern.py`, authorization, appliance, OTLP, syslog header and filesystem capture: branch tables and validators that would only add easy members.
