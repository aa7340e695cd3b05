# BoltDB: replication, slot migration, cluster and codecs

A model of the four cores of BoltDB and proofs about it. `dafny verify dfyconfig.toml` checks the whole project.

- **Log-key replication feed.** A master logs timestamped commands and pushes them over a connection from a cursor held under a lock; a replica checks continuity, applies, loses its connection and resumes with PSYNC or a snapshot. `FeedProtocol` is the state machine of both sides and the network. `FeedSafety` proves what every run keeps, `FeedSmooth` what a run without send errors guarantees beyond that, `FeedWitness` shows runs that break a promise, `FeedRuntime` holds the objects that take the steps, and `FeedCodec` and `RespCodec` the bytes between them.
- **Crash-safe slot migration.** `Migration` is the journalled two-phase protocol with failures, a crash and client writes possible after every step, `MigrationSafety` the theorems over all runs, `MigrationFence` the client gates on both sides, and `MigrationRuntime` the source's procedures and their recovery, proved to walk the machine.
- **Cluster slot table and gossip.** `ClusterNode`, `ClusterTable` and `ClusterGossip` are the objects as the code has them, with node objects shared between the node table and the slot table; `ClusterMerge` says what a payload may change, node by node; `SlotRanges` is their range bookkeeping, `ClusterPersistence` saving and loading, `ClusterNetwork` any number of members exchanging messages, and `ClusterWitness` histories in which a failure is agreed without a majority.
- **Codecs.** `RdbCodec`, `RdbFile`, `RdbEncoder`, `RdbDecoder`, `RdbLoader` and `RdbStore` take a snapshot from one store to another; `SlotHash` and `Polynomials` take a key to its slot.

A store that only matters as a replica's content is represented by the sequence of data commands that produced it, so equality of stores means nothing lost, doubled or reordered. Timestamps, epochs and lengths are unbounded integers except where a width decides something: lengths and expiry in the RDB format, 64-bit numbers in a stream, the 16-bit checksum. What the network, the disk or the clock decides is a parameter: the fate of a send or a save, the order a map is iterated in, whether a node is late.

## What the proofs found

Some promises hold only under a condition. The members named say when they hold, and most give a run or an input that breaks them.

- The slave's gap check is off while its watermark is 0, so a skipped first frame is lost: `FeedSafety.AcceptAtZeroExact`, `FeedWitness.SkipAtZeroLosesACommand`.
- A FULLRESYNC reply moves the watermark before the snapshot is loaded; if the connection drops in between, the next PSYNC continues over missing data: `FeedSafety.InterruptedResyncExact`, `FeedWitness.InterruptedResyncDiverges`.
- A logged command whose argument holds CR LF is cut there, because the log parser ignores the declared length: `FeedCodec.LogValueExact`, `FeedCodec.CrlfArgumentIsCut`. A replica fed with one differs from its master although nothing failed; it agrees exactly when every data command logged since its snapshot survives that parser: `FeedSafety.ReplicaIsFaithful`, `FeedWitness.CrlfReachesTheReplica`.
- The log keeps no hole exactly while every attempt leaves a key, a failed one its tombstone; a tombstone that cannot be written, or a commit without a log value, opens one: `FeedRuntime.CommitLog.CommitTS`.
- RESTORE does not overwrite, so a key left on the target by an earlier attempt wins over the source's newer value: `MigrationSafety.ValuesExact`, `MigrationSafety.StaleTargetKeyWins`.
- The write fence is not met by the commands of a transaction and lets RESTORE through from anyone, and the flag it hangs on can be cleared from outside in the middle of a migration. What such a write puts on the source after the key was read has not been sent when phase 2 deletes it, and what it puts on the target replaces the copy; every other key moves with its value: `MigrationSafety.DeletesOnlyCopies`, `MigrationSafety.ValuesExact`, `MigrationSafety.SlippedWriteIsLost`, `MigrationSafety.NewKeyIsLost`, `MigrationSafety.TargetWriteWins`, `MigrationSafety.UnfencedWriteIsLost`.
- The MIGRATING flag is cleared before the slot is assigned. After a crash between the two the source accepts writes that recovery deletes: `MigrationSafety.LateWriteIsLost`, `MigrationSafety.WriteBeforeAssignIsLost`. No code in the repository calls RecoverSlotMigrations, so a node that restarts keeps the unfinished journal and serves the slot.
- Recovering a copy-only migration from COPIED hands the slot over although the migration itself would not: `MigrationRuntime.SlotMigrator.RetryCommit`.
- A node told to replicate itself drops the ranges of slots it still owns: `ClusterTable.Cluster.Replicate`.
- Another node's entry that merely lists a slot ends this node's migration of it, and ranges are never trimmed when a slot moves on: `ClusterGossip.ForeignRangeEndsMigration`.
- Applying the same slot claims twice changes nothing if no claimant is recorded more than one below the epoch it claims; for every claimant that is, there are an owner and a rival with which a slot moves again: `ClusterGossip.SettleIsIdempotent`, `ClusterGossip.StaleRecordFlips`.
- The threshold for FAIL counts every reporter, this node and nodes no longer known included, so a promotion need not have a majority behind it; it has one if the reporters are all known and none is this node, and of those that just reach the threshold no others have one: `ClusterGossip.ThresholdIsMajority`, `ClusterGossip.MajorityExact`, `ClusterWitness.SelfReportPromotes`, `ClusterWitness.ForgottenReporterCounts`.
- A second takeover from a node overwrites the record of the first, whose slots are then never returned: `ClusterTable.Cluster.TakeOverAndReturn`.
- A slot whose owner has left the node table comes back from a restart as this node's own: `ClusterPersistence.Restart`.
- An expiry of 2^31 seconds or more is read as its low 32 bits, and as no expiry when those reach 2^31; one that has passed when its entry is loaded makes the key permanent: `RdbFile.ExpiryExact`, `RdbStore.SnapshotReproduced`. An empty collection leaves no key behind: `RdbStore.EntryStoredExactly`.
- An empty hash tag is hashed as the empty string, where the section "Hash tags" of the Redis Cluster specification hashes the whole key; every other key is hashed as that section says: `SlotHash.HashPartExact`.

## Model

| member | source | states |
|---|---|---|
| `Decimal.ParseFormat` | internal/replication/feed_wire.go:28-60 | every timestamp that fits 64 bits is read back from its decimal text |
| `RespCodec.WriteArray` | internal/proto/resp.go:388-408 | an array is written as its header and then each element, nil, empty or binary |
| `RespCodec.ReadRESP` | internal/proto/resp.go:189-297 | the reading loop accepts, refuses or hands over to the inline parser exactly as the decoding function says, and leaves the same bytes unread |
| `RespCodec.ReadArray` | internal/proto/resp.go:218-257 | the element loop, with its length limits and its nil elements, against the recursive reading of the same bytes |
| `RespCodec.ElemRoundTrip` | internal/proto/resp.go:388-408 | one element, whatever bytes it holds, is read back with nothing of what follows it |
| `RespCodec.ArrayRoundTrip` | internal/proto/resp.go:189-257 | a written array followed by anything is read back and the reader stops right after it |
| `RespCodec.PipelineRoundTrip` | internal/proto/resp.go:189-257 | any pipelined stream of written arrays within the limits comes back as the same sequence with nothing left over |
| `RespCodec.StatusRead` | internal/proto/resp.go:258-271 | a status or error line is one argument without its prefix; the bare prefix is refused |
| `RespCodec.LoneBulkRead` | internal/proto/resp.go:272-289 | a bulk string outside an array, nil, empty or binary, is one argument, and the reader stops right after it |
| `RespCodec.InlineRead` | internal/proto/resp.go:290-297 | a line with none of the four prefixes goes to the inline parser as it stands |
| `RespCodec.TextElement` | internal/proto/resp.go:249-252 | a status or number inside an array is taken as its text |
| `RespCodec.OverLimitRefused` | internal/proto/resp.go:215-242 | a count or length over its limit is refused before anything else is read, inside an array and outside |
| `RespCodec.CutOffRefused` | internal/proto/resp.go:243-247 | a bulk string whose payload or terminator is cut off is refused |
| `RespCodec.NegativeRefused` | internal/proto/resp.go:211-239 | a negative count is refused, and a negative length other than -1 |
| `RespCodec.BadLineRefused` | internal/proto/resp.go:510-518 | a stream that ends inside a line is refused, and a line longer than the limit |
| `RespCodec.MalformedRefused` | internal/proto/resp.go:196-255 | an empty line, the bare array prefix, a length that is no number and an array element of another kind are refused, each with its own error |
| `FeedCodec.SkipToCR` | internal/replication/feed_source.go:39-43 | the scan past a length line stops at its first CR |
| `FeedCodec.SkipToLineEnd` | internal/replication/feed_source.go:44-49 | an argument's end is the first CR LF pair; the declared length is not used |
| `FeedCodec.SkipDigits` | internal/replication/feed_source.go:21-29 | the array count is the value of the leading digits |
| `FeedCodec.ScanArgsLoop` | internal/replication/feed_source.go:34-50 | the inner loop collects exactly the arguments the recursive scan does, and fails exactly where that does: at a slice past the end of the buffer |
| `FeedCodec.ParseCommandEvents` | internal/replication/feed_source.go:14-56 | the index loop splits a buffer into exactly the commands the recursive parse does |
| `FeedCodec.EventsRoundTrip` | internal/replication/feed_source.go:14-56 | any concatenation of serialised commands without CR LF inside an argument splits back into the same sequence |
| `FeedCodec.CommandRoundTripExact` | internal/replication/feed_source.go:14-78 | a serialised command is parsed back if and only if none of its arguments holds a CR LF pair |
| `FeedCodec.LogValueExact` | internal/replication/feed_source.go:61-78 | the log parser gives a serialised command back if and only if it is loggable and none of its arguments holds a CR LF pair |
| `FeedCodec.LogValueStaysInside` | internal/replication/feed_source.go:34-50 | on the serialised form of any command, whatever bytes it holds, no slice runs past the end of the buffer |
| `FeedCodec.NoopStays` | internal/replication/feed_source.go:61-78 | whatever else is logged with a tombstone, it is read as a tombstone or not at all |
| `FeedCodec.CrlfArgumentIsCut` | internal/replication/feed_source.go:44-49 | of any command whose last argument is the first to hold CR LF the log parser makes, without an error, the same command with that argument ending before the pair; an argument that goes on with a star is excepted, as it may start another command |
| `FeedCodec.FrameParses` | internal/replication/feed_wire.go:28-60 | a frame built from a timestamp and a command is parsed back to both |
| `FeedCodec.FrameExact` | internal/replication/feed_wire.go:47-60 | an array is taken for a frame if and only if it is the tag, a decimal timestamp of 64 bits and at least the command's name; the frame is that timestamp and everything after it |
| `FeedCodec.CommandSurvives` | internal/replication/feed_source.go:14-78 | a loggable command without CR LF survives serialising, log parsing, framing, RESP reading and frame parsing, whatever follows it |
| `FeedCodec.OffsetMovesByFrameSize` | internal/replication/reconnect.go:586-619 | the length the replica recomputes for a frame is the number of bytes it consumed |
| `FeedProtocol.Range` | internal/store/repl_log.go:124-147 | a range read gives the log's own keys and commands inside its bounds |
| `FeedProtocol.RangeExact` | internal/store/repl_log.go:124-147 | a range read gives every key of the log inside its bounds, no other, once each and in ascending order, with the command logged there |
| `FeedProtocol.LastKey` | internal/store/repl_log.go:96-109 | the newest key still in the log, or 0 |
| `FeedProtocol.FirstKey` | internal/store/repl_log.go:79-92 | the oldest key still in the log, or 0 |
| `FeedSafety.AdvanceSettled` | internal/store/ts_source.go:54-66 | the completion watermark never passes an attempt in flight |
| `FeedSafety.RangeGenuine` | internal/replication/feed_source.go:102-124 | the frames of a batch up to the watermark hold what the log parser makes of commands that can no longer change, one for each key and in order |
| `FeedSafety.CommitInv` | internal/store/ts_source.go:110-140 | a commit above the watermark changes nothing a replica relies on |
| `FeedSafety.ConnectInv` | internal/replication/psync.go:34-82 | both answers to PSYNC establish the replica's position: CONTINUE in the same history, FULLRESYNC with the snapshot it promises |
| `FeedSafety.PushStartInv` | internal/replication/feed_source.go:143-156 | reading a batch under the cursor lock keeps every frame in flight genuine and ordered |
| `FeedSafety.PushSendInv` | internal/replication/feed_source.go:157-172 | a send, delivered or not, and the cursor move after the last one keep the connection's invariant |
| `FeedSafety.ReceiveInv` | internal/replication/reconnect.go:571-621 | applying, skipping or refusing a frame keeps the replica's store and watermark in step |
| `FeedSafety.StepInv` | internal/replication/reconnect.go:255-308 | every step of master, replica or network keeps the invariant: commits, trims, restarts, new masters, reconnects, pushes, lost sends, frames, disconnects |
| `FeedSafety.RunInv` | internal/replication/reconnect.go:182-308 | the invariant holds after every run, and without a hazard the replica is never damaged |
| `FeedSafety.DeliveredExact` | internal/replication/feed_source.go:61-124 | over any log, snapshot and feed together are the log replayed if and only if every data command in between survives the log parser |
| `FeedSafety.ReplicaIsFaithful` | internal/replication/reconnect.go:571-621 | in every run an undamaged replica of the current master with a positive watermark and no RDB pending holds its last snapshot followed by what the feed delivered up to that watermark; those are exactly the data commands logged, once each and in order, if and only if every one logged since the snapshot is loggable and has no CR LF in an argument; and a run without a hazard never damages the replica |
| `FeedSafety.CoveredFrameRefused` | internal/replication/reconnect.go:391-396 | a frame sent again after a failed batch is refused: the connection drops and nothing is applied twice |
| `FeedSafety.AcceptAtZeroExact` | internal/replication/reconnect.go:391-396 | with the gap check off at watermark 0, accepting a frame, a tombstone included, is right if and only if no data command lies between the snapshot and it and its own command survived the log parser |
| `FeedWitness.SkipAtZeroLosesACommand` | internal/replication/reconnect.go:600-610 | a run in which the very first frame is skipped and the next one is accepted over the hole |
| `FeedSafety.InterruptedResyncExact` | internal/replication/reconnect.go:359-372 | a full resync, the first one, a later one or one from a new master, cut off before its RDB is loaded keeps the old store under the new watermark; if that store is the log up to some point, the replica is right if and only if no data command was logged after it |
| `FeedWitness.InterruptedResyncDiverges` | internal/replication/reconnect.go:286-299 | a run that ends with a watermark over missing data, and a master that answers CONTINUE to it |
| `FeedWitness.CrlfReachesTheReplica` | internal/replication/feed_source.go:115-123 | a run without any failure in which a command with CR LF in an argument arrives shortened, and the replica differs from the master |
| `FeedSmooth.RangeDense` | internal/replication/feed_source.go:92-124 | over a log without holes every batch is consecutive and starts at the cursor |
| `FeedSmooth.SmoothStep` | internal/replication/feed_source.go:143-173 | every step without a send error, a skip or a trim past the cursor keeps the feed dense |
| `FeedSmooth.SmoothFeed` | internal/replication/feed_source.go:143-173 | in such runs, for any interleaving of pushers, a connection carries exactly the consecutive timestamps from its activation cursor, and neither continuity check fires |
| `FeedSmooth.ContinueResumes` | internal/replication/psync.go:34-65 | a CONTINUE for ts activates the feed at ts + 1 and nothing from ts on has been trimmed |
| `FeedProtocol.ContinueExactly` | internal/replication/psync.go:34-65 | CONTINUE is answered if and only if the replication id is this master's, the timestamp is not 0, and the log still has a key at or below it and one at or above it |
| `FeedRuntime.TsSource.constructor` | internal/store/ts_source.go:32-42 | a new source starts at timestamp 1 with nothing in flight |
| `FeedRuntime.TsSource.Begin` | internal/store/ts_source.go:44-51 | timestamps are handed out once each, in order |
| `FeedRuntime.TsSource.End` | internal/store/ts_source.go:54-66 | the loop moves the watermark over exactly the finished prefix |
| `FeedRuntime.CommitLog.constructor` | internal/store/ts_source.go:32-42 | an empty log has no holes |
| `FeedRuntime.CommitLog.CommitTS` | internal/store/ts_source.go:110-140 | one timestamp is used up; the attempt succeeds if and only if its body, its log write and its commit do; the log then holds the value at that timestamp, after a failure a tombstone there if one can be written, and nothing else changes; the log stays without holes if and only if the attempt leaves a key; and the watermark moves over the finished prefix |
| `FeedRuntime.VerifyContinuity` | internal/replication/feed_source.go:92-100 | the loop accepts a batch if and only if its timestamps are consecutive |
| `FeedRuntime.ParseReplLogValue` | internal/replication/feed_source.go:61-78 | the procedure accepts exactly one command with an argument, or a lone FLUSHDB, FLUSHALL or NOOP, and agrees with the parse that the proofs about CR LF are about |
| `FeedRuntime.FrameBatch` | internal/replication/feed_source.go:115-123 | the loop frames every key of a batch with what its value parses to, and gives nothing as soon as one does not parse |
| `FeedRuntime.GapExact` | internal/replication/feed_source.go:92-100 | the continuity check accepts what was read if and only if no key is missing in the log between two that are there |
| `FeedRuntime.ReadableExact` | internal/replication/feed_source.go:115-123 | framing fails if and only if some key in the range holds a value that does not parse |
| `FeedRuntime.PushCatchesUp` | internal/replication/feed_source.go:102-173 | over a log that is whole and readable from the cursor to the watermark, with every send working, a push sends one frame for each timestamp and moves the cursor past the watermark |
| `FeedRuntime.SlaveConnection.constructor` | internal/replication/slave.go:46-65 | a new connection is neither ready nor fed |
| `FeedRuntime.SlaveConnection.SendCommand` | internal/replication/slave.go:139-162 | a connection that is not ready refuses; otherwise the frame goes out or is lost as the network decides |
| `FeedRuntime.SlaveConnection.SendBatch` | internal/replication/feed_source.go:157-165 | the send loop is the protocol's send steps; it succeeds if and only if the connection is ready and every send works, and otherwise has sent a prefix up to the send that failed |
| `FeedRuntime.SlaveConnection.FeedSlave` | internal/replication/feed_source.go:102-173 | one push is the protocol's start and send steps; it succeeds if and only if no key is missing between two others from the cursor to the watermark, every value parses and every send works; it then has sent one frame for each key, in order, and the cursor stands behind the last; on any failure the cursor stays, and on a gap or an unreadable value nothing is sent |
| `FeedRuntime.SlaveConnection.CatchUpAndEnable` | internal/replication/replication.go:307-317 | activation right after the resume point followed by one push over the whole log from there, with the outcome of FeedSlave; ready and fed from then on |
| `FeedRuntime.SlaveReconnector.constructor` | internal/replication/reconnect.go:126-134 | a new reconnector remembers nothing |
| `FeedRuntime.SlaveReconnector.PsyncRequest` | internal/replication/reconnect.go:330-351 | without a remembered id the replica asks for a full resync |
| `FeedRuntime.SlaveReconnector.PsyncAnswer` | internal/replication/reconnect.go:353-384 | the answer any master of the protocol gives leaves the replica in exactly the state of the protocol's connect step; every other line changes nothing |
| `FeedRuntime.SlaveReconnector.OnFrame` | internal/replication/reconnect.go:571-621 | a frame is taken if and only if it is one, is the next after a positive watermark and its command can be applied or is a tombstone; a data command is then appended to the store and the watermark moves to its timestamp, a tombstone moves only the watermark, one that finds no key moves nothing, and the offset grows by the frame's size; a refused frame changes nothing |
| `MigrationFence.Connection.CheckRedirect` | internal/server/handler_core.go:236-295 | the verdict is exactly as GateExact says for the flag as it was; the flag is used up by the next key-routed command, whatever the outcome |
| `MigrationFence.GateExact` | internal/server/handler_core.go:236-295 | MOVED, with the owner's address, if and only if the slot is owned elsewhere; ASK, with the target's address, if and only if it is on its way out and the key is not known to be here; the two fences if and only if a write other than RESTORE meets a key still here or an importing slot entered by ASKING; everything else runs |
| `MigrationFence.WriteExecutesExactly` | internal/server/handler_core.go:236-295 | a fenced write executes if and only if the slot is unowned, or owned here and not on its way to an address, and the client is not let in by ASKING to an importing slot |
| `MigrationFence.NoWriteDuringMigration` | internal/server/handler_core.go:236-295 | with the slot MIGRATING on the source and IMPORTING on the target no routed write but RESTORE runs on either side, while reads of present keys and RESTORE still do |
| `MigrationFence.MultiKeyGate` | internal/server/handler_core.go:301-329 | a multi-key command proceeds if and only if no key is redirected; otherwise the first redirect decides, and an ASK among several keys is CROSSSLOT |
| `Migration.CopyKeyInv` | internal/cluster/migration_journal.go:397-415 | copying a key, passing over one that is gone or aborting keeps the target equal to what was sent, what was found there and what clients did to it since |
| `Migration.CopyExact` | internal/cluster/migration_journal.go:397-415 | a copied key appears on the target only if it was not there, with the source's value, and no other key changes; an error leaves of the target exactly the survivors of the clean-up, the last key included if it had arrived, and IMPORTING only if STABLE was not received; the source is untouched |
| `Migration.ExpireInv` | internal/cluster/migration_journal.go:399-404 | a key that expires between the listing and its dump, or later, breaks nothing |
| `Migration.WriteInv` | internal/server/queued_commands.go:15-85 | a write or deletion by a client on either side, routed, by RESTORE or past every gate, keeps the invariant: both stores stay what the trace of the migration says |
| `Migration.StableInv` | internal/cluster/bus.go:515-541 | a MIGRATING flag cleared from outside in the middle of a migration keeps the invariant |
| `Migration.DeleteKeyInv` | internal/cluster/migration_journal.go:451-456 | deleting a source key in phase 2 keeps the invariant, so that every key the slot began with is still accounted for |
| `Migration.AssignInv` | internal/cluster/migration_journal.go:459-468 | the handover, with an unknown target or a failed save, keeps owner, journal and stores consistent |
| `Migration.RecoverInv` | internal/cluster/migration_journal.go:499-591 | recovery takes up where the journal's phase says |
| `Migration.CrashInv` | internal/cluster/migration_journal.go:318-494 | a crash at any point, back to the saved configuration, keeps the invariant |
| `Migration.StepInv` | internal/cluster/migration_journal.go:318-627 | every step of a migration, its failures, its recovery, a client inside or past the fences, a flag cleared from outside or a crash keeps the invariant |
| `Migration.RunInv` | internal/cluster/migration_journal.go:318-627 | the invariant holds in every reachable state |
| `MigrationSafety.KeysAreKept` | internal/cluster/migration_journal.go:318-627 | in every reachable state each key the slot began with, unless it expired or a client deleted it on the source, is held by the slot's owner, or a commit is still owed by the journal and the target holds it; the target lacks it if and only if a client deleted it there after it was sent |
| `MigrationSafety.ValuesExact` | internal/cluster/migration_journal.go:128-173 | once the slot has changed hands or the change is owed, every key that has not left the source has been sent, and the target's content is exactly a client's last word since the key was sent, else what was found there, else what was sent; the value sent stands there if and only if no client has changed it since and no other value was found; a key no client has touched since the listing was sent with the value it had then, and has it if and only if the target did not already hold another |
| `MigrationSafety.StaleTargetKeyWins` | internal/cluster/migration_journal.go:136-171 | a run in which a key left on the target replaces the newer value of the source |
| `MigrationSafety.SlippedWriteIsLost` | internal/server/transaction_commands.go:147-149 | a run in which a transaction, or a client's RESTORE, overwrites a copied key under the fence and phase 2 deletes what it wrote |
| `MigrationSafety.NewKeyIsLost` | internal/server/transaction_commands.go:147-149 | a run in which a transaction creates a key under the fence that neither side holds in the end |
| `MigrationSafety.TargetWriteWins` | internal/server/handler_core.go:250-264 | a run in which a transaction, or a client's RESTORE let in by ASKING, replaces the copied value on the target |
| `MigrationSafety.UnfencedWriteIsLost` | internal/cluster/bus.go:528-539 | a run in which the flag is cleared from outside, a routed write is admitted, and phase 2 deletes what it wrote |
| `MigrationSafety.CopyKeepsSource` | internal/cluster/migration_journal.go:423-437 | no step of a copy-only migration, its recovery included, takes a key from the source; only expiry and clients do |
| `MigrationSafety.DeletesOnlyCopies` | internal/cluster/migration_journal.go:446-457 | phase 2 deletes the very value the target was sent if and only if no client has written another one on the source since the migration read the key; under the fence only RESTORE and writes that meet no gate can, and a key they have not written is deleted with the value it was listed with while the target holds it |
| `MigrationSafety.WritesAreGated` | internal/server/handler_core.go:236-295 | the states in which the machine lets a client's routed write or RESTORE run on the source are exactly those in which the source's gate executes it |
| `MigrationSafety.TargetWritesAreGated` | internal/server/handler_core.go:236-295 | the same on the target, for a routed write and for a RESTORE after ASKING |
| `MigrationSafety.FenceSurvivesExactly` | internal/cluster/cluster.go:610-618 | a crash keeps the fence up if and only if the MIGRATING flag had been saved, and otherwise lets the next write in |
| `MigrationSafety.RecoveryStep` | internal/cluster/migration_journal.go:499-627 | every step of recovery, and every crash or failure inside it, leads to the same final placement |
| `MigrationSafety.RecoveryIdempotent` | internal/cluster/migration_journal.go:499-627 | however often recovery is interrupted and started again, it ends with the stores and owner of one uninterrupted recovery |
| `MigrationSafety.LateWriteIsLost` | internal/cluster/migration_journal.go:595-616 | a write the source admits while a commit is owed, a routed one if and only if the flag is down and one past the gates always, does not survive recovery |
| `MigrationSafety.WriteBeforeAssignIsLost` | internal/cluster/migration_journal.go:459-460 | a run with a crash between clearing the flag and assigning the slot, in which a client's write disappears |
| `MigrationRuntime.SlotMigrator.constructor` | internal/cluster/migration_journal.go:318-342 | a slot before any migration |
| `MigrationRuntime.SlotMigrator.Restart` | internal/cluster/persistence.go:134-160 | a crash goes back to the saved flag and owner |
| `MigrationRuntime.SlotMigrator.CollectSlotKeys` | internal/cluster/migration_journal.go:270-279 | the listing holds every key of the slot exactly once |
| `MigrationRuntime.SlotMigrator.BeginCopy` | internal/cluster/migration_journal.go:318-392 | the procedure refuses if and only if the slot is not MIGRATING here, an unfinished journal exists or the target is unknown, and otherwise records INIT and COPYING with the keys listed |
| `MigrationRuntime.SlotMigrator.CopyOneKey` | internal/cluster/migration_journal.go:397-415 | a vanished key is passed over and changes nothing; a copied one appears on the target only if it was not there; the step succeeds if and only if nothing crashes and the key is gone or everything works on an importing target; an error leaves exactly the survivors of the clean-up |
| `MigrationRuntime.SlotMigrator.AbortCopy` | internal/cluster/migration_journal.go:256-261 | the target keeps exactly the survivors of the clean-up with the values they had, or the one just sent, IMPORTING only if STABLE was not received, and the source is untouched |
| `MigrationRuntime.SlotMigrator.CopyKeys` | internal/cluster/migration_journal.go:396-415 | the copy loop copies everything if and only if every operation works on an importing target, and otherwise stops at the first that does not, with only copies added to the target |
| `MigrationRuntime.SlotMigrator.CopyPhase` | internal/cluster/migration_journal.go:318-420 | phase 1 completes if and only if it is not refused and every operation in it works; an error at a key leaves the target with at most the survivors of the clean-up, and nothing of it when the clean-up works |
| `MigrationRuntime.SlotMigrator.DeleteKeys` | internal/cluster/migration_journal.go:446-457 | the delete loop empties the source of the slot if and only if every deletion works, and never touches the target |
| `MigrationRuntime.SlotMigrator.AssignSlot` | internal/cluster/migration_journal.go:460-468 | the handover succeeds if and only if the target is known and the configuration can be saved; the flag is down and the owner changed in memory even when the save fails, and the stores stay |
| `MigrationRuntime.SlotMigrator.SwitchOwner` | internal/cluster/migration_journal.go:459-473 | flag cleared and slot assigned, or an error or crash in between |
| `MigrationRuntime.SlotMigrator.CommitPhase` | internal/cluster/migration_journal.go:440-482 | phase 2 succeeds if and only if the journal and the handover can be saved, every deletion works, the target is known and nothing crashes; the source is then empty, the target unchanged and owning the slot |
| `MigrationRuntime.SlotMigrator.FinishCopy` | internal/cluster/migration_journal.go:423-437 | a copy ends with DONE and the flag cleared if and only if DONE can be saved and nothing crashes, the stores untouched |
| `MigrationRuntime.SlotMigrator.MigrateSlotCrashSafe` | internal/cluster/migration_journal.go:318-494 | whatever fails or crashes the node stays on a run of the machine; it refuses exactly as its guards say and then changes nothing; it completes if and only if every operation it depends on works, and then every key of the source is on the target, an earlier one there winning, and the source kept everything or nothing; a failure leaves the source whole, or the target with all of it; an error while copying leaves only the survivors of the clean-up on the target |
| `MigrationRuntime.SlotMigrator.RollBack` | internal/cluster/migration_journal.go:540-556 | recovery of phase 1 clears the flag and drops the journal, the source untouched; the target loses everything if the clean-up works, nothing if it is not reached, all but the survivors if it breaks off; it succeeds if and only if nothing crashes and the journal can be dropped |
| `MigrationRuntime.SlotMigrator.RetryCommit` | internal/cluster/migration_journal.go:595-627 | recovery of phase 2 succeeds if and only if every deletion works, the target is known, the handover is saved and the journal dropped; the source is then empty unless the migration only copies, and the slot is handed over in both cases |
| `MigrationRuntime.SlotMigrator.RecoverEarly` | internal/cluster/migration_journal.go:540-556 | a journal at INIT or COPYING ends with the source as it was and owning the slot, no flag, no journal, and the target as RollBack leaves it |
| `MigrationRuntime.SlotMigrator.RecoverLate` | internal/cluster/migration_journal.go:558-582 | a journal at COPIED or COMMIT ends with the target unchanged and owning the slot, and the source empty unless the migration only copies |
| `MigrationRuntime.SlotMigrator.RecoverSlotMigration` | internal/cluster/migration_journal.go:499-591 | recovery completes if and only if there is a journal and every operation its phase depends on works; it then leaves no journal and exactly the placement the journal promised, phase by phase |
| `SlotRanges.AddRangeExact` | internal/cluster/node.go:60-76 | a range list gains exactly the given slots, whatever overlaps |
| `SlotRanges.RemoveFromRanges` | internal/cluster/cluster.go:312-329 | exactly one slot goes, from every range that holds it, overlapping or not |
| `SlotRanges.SortSlots` | internal/cluster/cluster.go:488-490 | the sorted list is a permutation of the given one |
| `SlotRanges.MergeConsecutiveSlots` | internal/cluster/cluster.go:484-508 | the ranges cover exactly the given slots for any input, and are sorted, disjoint and never adjacent when no slot repeats |
| `SlotRanges.MergeSorted` | internal/cluster/cluster.go:492-507 | the merging loop on sorted slots |
| `ClusterNode.Node.constructor` | internal/cluster/node.go:44-57 | a new node owns and migrates nothing |
| `ClusterNode.Node.AddSlotRange` | internal/cluster/node.go:60-76 | the node's ranges gain exactly the given slots |
| `ClusterNode.Node.HasSlot` | internal/cluster/node.go:79-88 | the loop answers whether some range holds the slot |
| `ClusterNode.Node.MergeGossipState` | internal/cluster/node.go:170-179 | epoch and pong time only move forward |
| `ClusterNode.Node.HasFailFlag` | internal/cluster/node.go:331-345 | either failure flag counts |
| `ClusterNode.Node.MarkPFail` | internal/cluster/node.go:182-189 | a node without a failure flag gets PFAIL, another keeps its flags |
| `ClusterNode.Node.ClearFailFlag` | internal/cluster/node.go:285-299 | both failure flags go, the others stay in order, and the answer says whether there was one |
| `ClusterNode.KeepExact` | internal/cluster/node.go:285-299 | the flags kept are exactly those that were there and pass the filter |
| `ClusterNode.Node.PromotePFailToFail` | internal/cluster/node.go:304-321 | promotion happens if and only if FAIL is not set yet, and leaves FAIL, no PFAIL and the other flags |
| `ClusterTable.Cluster.constructor` | internal/cluster/cluster.go:39-91 | a first start owns every slot, with a range for them |
| `ClusterTable.Cluster.PutSlot` | internal/cluster/cluster.go:257-258 | one slot changes hands in the table and in the new owner's ranges, and the table stays covered |
| `ClusterTable.Cluster.TakeSlots` | internal/cluster/cluster.go:157-165 | the loop takes over exactly the slots held under an id, lists each once, and keeps the table covered |
| `ClusterTable.Cluster.RemoveNode` | internal/cluster/cluster.go:138-152 | the node leaves the table and its slots become this node's own |
| `ClusterTable.Cluster.Forget` | internal/cluster/commands.go:476-499 | the same for any node but this one |
| `ClusterTable.Cluster.UsurpFailedNodeSlots` | internal/cluster/cluster.go:157-169 | the recorded ranges cover exactly the slots taken, and no other record changes |
| `ClusterTable.Cluster.RebuildMyselfSlotRanges` | internal/cluster/cluster.go:232-240 | the node's ranges become exactly the slots held under its id, sorted and separated |
| `ClusterTable.Cluster.StampNext` | internal/cluster/cluster.go:219-220 | the next configuration epoch is above every epoch in the view |
| `ClusterTable.Cluster.ReturnRanges` | internal/cluster/cluster.go:205-215 | exactly the listed slots still held here are given back; slots moved elsewhere are not touched |
| `ClusterTable.Cluster.ReturnUsurped` | internal/cluster/cluster.go:199-228 | the record goes, the slots still held are returned, and any change takes an epoch above every other and rebuilds the node's own ranges |
| `ClusterTable.Cluster.RecoverFailedNode` | internal/cluster/cluster.go:184-228 | flags and reports go, of this node only; returned slots are exactly the recorded ones still held here, and only then the node is stamped, above every epoch in the view, with this node's ranges equal to what it still owns; a change is reported if and only if there was a failure flag or a slot to return |
| `ClusterTable.GiveBackAt` | internal/cluster/cluster.go:205-215 | slot by slot, a return moves those listed and still held here, and no other |
| `ClusterTable.TakeoverUndoneExactly` | internal/cluster/cluster.go:157-228 | takeover then return leaves every slot of the failed node with the object now in the node table and moves no other, so it restores the table if and only if that object held them all |
| `ClusterTable.Cluster.TakeOverAndReturn` | internal/cluster/cluster.go:157-228 | the two procedures one after the other do exactly that, and leave no record; a takeover that finds a slot overwrites an outstanding record, so the slots of that one are not returned, and one that finds none leaves it to be returned |
| `ClusterTable.Cluster.AssignSlot` | internal/cluster/cluster.go:243-268 | one slot moves, stamped above every epoch in the view, and its migration marks go |
| `ClusterTable.Cluster.AssignSlotRange` | internal/cluster/cluster.go:271-294 | exactly the slots of the range move, stamped above every epoch in the view |
| `ClusterTable.Cluster.RemoveSlot` | internal/cluster/cluster.go:297-332 | the slot becomes free, and this node's ranges lose exactly that slot if they were its owner's |
| `ClusterTable.Cluster.Replicate` | internal/cluster/commands.go:502-532 | this node's slots go to its master, it becomes a slave of it and keeps no range; the table stays covered if and only if the master is another node or there was nothing to hand over |
| `ClusterTable.Cluster.FlushSlots` | internal/cluster/commands.go:619-631 | exactly this node's slots become free |
| `ClusterTable.Cluster.Reset` | internal/cluster/commands.go:699-746 | the other nodes go, a soft reset keeps exactly this node's slots and ranges, a hard one none, the node is a master again and the epoch moves on |
| `ClusterTable.Cluster.AddNode` | internal/cluster/cluster.go:128-135 | a node met by address enters at epoch 0 |
| `ClusterTable.Cluster.Introduce` | internal/cluster/commands.go:432-447 | the answer to MEET puts the real node in the place of its placeholder, keeping one that is already known, and moves no slot |
| `ClusterTable.Cluster.SetSlotImporting` | internal/cluster/cluster.go:599-607 | the slot is marked with the source's address if the source is known, and the view stays valid |
| `ClusterTable.Cluster.SetSlotMigrating` | internal/cluster/cluster.go:610-618 | the slot is marked with the target's address if the target is known, and the view stays valid |
| `ClusterTable.Cluster.UpdateNodeEpoch` | internal/cluster/cluster.go:533-542 | the view's epoch follows a node's |
| `ClusterGossip.SettleIsMaximal` | internal/cluster/bus.go:482-513 | when every known claimant is recorded at the epoch it claims, one pass leaves a slot with its old owner or a claimant of maximal epoch among them all |
| `ClusterGossip.SettleIsIdempotent` | internal/cluster/bus.go:482-513 | when no known claimant is recorded more than one below the epoch it claims, applying the claims again changes no owner |
| `ClusterGossip.StaleRecordFlips` | internal/cluster/bus.go:482-513 | for every claimant recorded more than one below its claim there are an owner and a rival that is not, with which the second application changes the owner again |
| `ClusterGossip.TopClaimWins` | internal/cluster/bus.go:482-513 | a known claimant whose claim is above the owner's and every rival's record, and whose own record no rival's claim exceeds, gets the slot wherever its entry stands |
| `ClusterGossip.OwnerStays` | internal/cluster/bus.go:482-513 | an owner recorded at or above every claim on its slot keeps it |
| `ClusterGossip.ClusterBus.ArbitrateSlot` | internal/cluster/bus.go:484-511 | a slot changes hands if and only if the claimant is known and the slot is free or its owner recorded at a lower epoch |
| `ClusterGossip.ClusterBus.ArbitrateRange` | internal/cluster/bus.go:483-512 | the same on exactly the slots of a range |
| `ClusterGossip.ClusterBus.ArbitrateEntry` | internal/cluster/bus.go:482-513 | the same on exactly the slots of an entry, once each however its ranges overlap |
| `ClusterGossip.ClusterBus.Arbitrate` | internal/cluster/bus.go:481-514 | every slot ends with the outcome of the claims on it, taken in the payload's order |
| `ClusterGossip.ClusterBus.FindNodeByAddr` | internal/cluster/bus.go:751-758 | the loop finds a node with the address if and only if there is one |
| `ClusterGossip.ClusterBus.LearnNode` | internal/cluster/bus.go:441-476 | a known node is brought up to the latest epoch and pong time told, an unknown one added as described unless its address is taken; a fresh report clears the failure flags and returns exactly the slots withheld; nothing else changes and the view stays valid |
| `ClusterGossip.ClusterBus.LearnNodes` | internal/cluster/bus.go:441-476 | over a whole section: every listed node is known afterwards, or its address was taken; no known node is lost, and its epoch and pong time are the latest told, a new epoch if its slots are returned; a node freshly heard of has no failure flag and the slots withheld from it back; of the others nothing changes |
| `ClusterMerge.LearnedBoth` | internal/cluster/bus.go:441-476 | learning one stretch of the section after another is learning both together, in nodes, numbers, flags, reports, takeover records and slots |
| `ClusterGossip.ClusterBus.RefreshNode` | internal/cluster/bus.go:446-464 | after a fresh report the node has no failure flag and the slots withheld from it that are still held here are its own again; otherwise no slot moves |
| `ClusterGossip.ClusterBus.CountOthers` | internal/cluster/bus.go:560-565 | the count is of the known nodes other than this one |
| `ClusterGossip.ThresholdIsMajority` | internal/cluster/bus.go:560-576 | reporters that are all known and other than this node make a majority by reaching the threshold; of those that just reach it, no others do |
| `ClusterGossip.MajorityExact` | internal/cluster/bus.go:560-576 | with this node more than half of the known nodes stand behind a failure if and only if the reporters that are still known and other than this node reach the threshold by themselves |
| `ClusterGossip.ClusterBus.ReportFailure` | internal/cluster/bus.go:543-597 | a node is promoted to FAIL, and its slots taken over, if and only if it is known, not this one nor the reporter, carries a failure mark here that is not FAIL, and the distinct reporters so far reach the threshold; they are a majority with this node when all are known and none is this node; otherwise only the report is recorded |
| `ClusterGossip.ClusterBus.Tally` | internal/cluster/bus.go:551-576 | the reporter joins the set of those seen so far, never the node itself, and the threshold is half of the other known nodes rounded up |
| `ClusterGossip.ClusterBus.ReportFailures` | internal/cluster/bus.go:543-597 | over a whole list of reports: for each that counts the reporter is recorded, or the node promoted to FAIL, which happens if and only if it is marked here and its reporters reach the threshold; exactly the slots of the promoted become this node's, and nothing else changes |
| `ClusterMerge.ReportedOneMore` | internal/cluster/bus.go:543-597 | taking one more report after a set of them is taking the larger set, in flags, reports and slots |
| `ClusterWitness.SelfReportPromotes` | internal/cluster/bus.go:551-576 | three nodes: a member whose own report comes back to it promotes another with no one else behind it |
| `ClusterWitness.ForgottenReporterCounts` | internal/cluster/bus.go:551-576 | a reporter that is then forgotten still counts, and three of six nodes promote another without a majority |
| `ClusterGossip.ClusterBus.Promote` | internal/cluster/bus.go:577-595 | promotion and takeover happen if and only if a failure flag but not FAIL was set here |
| `ClusterGossip.MarksCompose` | internal/cluster/bus.go:515-541 | two rounds of claims clear the migration marks one round with all of them clears |
| `ClusterGossip.ClaimedExact` | internal/cluster/bus.go:515-541 | a slot counts as claimed if and only if some entry of the payload, this node's or another's as asked, lists it |
| `ClusterGossip.MarksExact` | internal/cluster/bus.go:515-541 | which migration marks are left, slot by slot, in terms of the entries that list the slot |
| `ClusterGossip.ClusterBus.ClearMigrations` | internal/cluster/bus.go:515-541 | a MIGRATING mark survives if and only if no other node's entry lists the slot, an IMPORTING mark if and only if no entry of this node does, and either clears both |
| `ClusterGossip.ForeignRangeEndsMigration` | internal/cluster/bus.go:528-539 | any other node's entry that lists a slot ends this node's migration of it, whoever owns the slot in the table |
| `ClusterGossip.ClusterBus.BuildGossipPayload` | internal/cluster/bus.go:351-423 | the payload carries the view's epoch, true entries for every node with ranges, true descriptions of other nodes only, of all of them or as many as fit, exactly the nodes marked failed, and no epoch above its own |
| `ClusterGossip.ClusterBus.Reconcile` | internal/cluster/bus.go:478-541 | arbitration and mark clearing together |
| `ClusterGossip.ClusterBus.SettleClaims` | internal/cluster/bus.go:478-541 | every slot ends with the outcome of the claims on it by the nodes' records, of the nodes only ranges change, and the migration marks are cleared as MarksExact says |
| `ClusterMerge.MergedBy` | internal/cluster/bus.go:427-599 | what is learned of the nodes and what is reported of them, put together node by node |
| `ClusterGossip.ClusterBus.ApplyGossipPayloadFrom` | internal/cluster/bus.go:427-599 | a bounded payload keeps the view valid, its epoch at or above the payload's; every listed node is known afterwards, or its address was taken, with the latest epoch and pong time told; a node freshly heard of has no failure flag and the slots withheld from it back; one reported gets FAIL if and only if it is marked here and its reporters reach the threshold, and otherwise the reporter recorded; every other node keeps its flags; then each slot goes to the outcome of the claims on it, or to this node if that owner has just failed; the migration marks outlive the payload exactly as its claims say; and a change of a slot is reported |
| `ClusterGossip.ClusterBus.CheckFailures` | internal/cluster/gossip.go:188-245 | exactly the late nodes among those looked at are marked, exactly the stale ones removed, exactly their slots become this node's, and the table stays covered |
| `ClusterPersistence.MergeSlotOwners` | internal/cluster/persistence.go:113-130 | in any iteration order the entries give a slot to an id if and only if the id owns it |
| `ClusterPersistence.GroupByOwner` | internal/cluster/persistence.go:114-119 | every owner's list holds exactly its slots, once each |
| `ClusterPersistence.SaveUsurped` | internal/cluster/persistence.go:69-78 | every takeover list is saved whole and in order, node by node in any order |
| `ClusterPersistence.SavePairs` | internal/cluster/persistence.go:80-92 | a migration map is read back from its pairs, in any order |
| `ClusterPersistence.SaveConfig` | internal/cluster/persistence.go:48-105 | the saved state records the view: epoch, nodes, owners, takeovers and migrations, and no node ahead of the epoch |
| `ClusterPersistence.LoadNodes` | internal/cluster/persistence.go:198-212 | every saved node returns with its address, flags, master and epoch, this node keeping its object |
| `ClusterPersistence.LoadSlots` | internal/cluster/persistence.go:214-224 | a slot no entry spans is free, any other has the owner a spanning entry stands for |
| `ClusterPersistence.LoadUsurped` | internal/cluster/persistence.go:234-237 | the takeover lists are rebuilt from their entries |
| `ClusterPersistence.LoadPairs` | internal/cluster/persistence.go:226-232 | the migration maps are rebuilt from their pairs |
| `ClusterPersistence.LoadState` | internal/cluster/persistence.go:198-238 | a new process takes over everything a sound configuration holds, and its table is covered |
| `ClusterPersistence.Restart` | internal/cluster/persistence.go:48-238 | saving and loading restores the epoch, the nodes with their addresses, both migration maps and the takeover list, and a slot's owner if and only if the owner is in the node table or is this node |
| `ClusterNetwork.Operate` | internal/cluster/commands.go:256-821 | the operator commands on nodes, slots, migration marks and epochs, every failure check and every sign of life have their effect and keep a view valid |
| `ClusterNetwork.Network.Deliver` | internal/cluster/bus.go:213-276 | a message sent at any time, delivered any number of times, keeps every member valid |
| `ClusterNetwork.Network.Send` | internal/cluster/bus.go:316-325 | what a valid member sends carries its epoch, is bounded by it, and joins what is on the way |
| `ClusterNetwork.Network.Restart` | internal/cluster/cluster.go:39-91 | a member that comes back from a configuration saved at any earlier time is valid and has the epoch saved; the others stay as they are |
| `ClusterNetwork.Network.Run` | internal/cluster/bus.go:213-599 | over any script of operations, messages in any order with loss and repetition, saves and restarts, for any number of members: no node's epoch above its view's, no entry's above its message's, every slot covered by its owner's ranges |
| `Polynomials.RemainderUnique` | internal/cluster/slot.go:9-22 | division by x^16 + x^12 + x^5 + 1 has one quotient and one remainder below degree 16 |
| `SlotHash.TurnDivides` | internal/cluster/slot.go:14-19 | one turn of the bit loop is a division step |
| `SlotHash.NextByte` | internal/cluster/slot.go:12-20 | the byte and its eight turns carry the remainder on to the longer message |
| `SlotHash.EightTurns` | internal/cluster/slot.go:13-20 | the inner loop multiplies the register by x^8 modulo the generator |
| `SlotHash.Crc16` | internal/cluster/slot.go:9-22 | the register ends as the remainder of message times x^16, for every byte string |
| `SlotHash.RemainderIsUnique` | internal/cluster/slot.go:9-22 | only one word is that remainder |
| `SlotHash.ChecksumLinear` | internal/cluster/slot.go:9-22 | the checksum of two equally long strings xored is the xor of their checksums |
| `SlotHash.Slot` | internal/cluster/slot.go:24-35 | the slot is the checksum of the hashed part, below 16384 |
| `SlotHash.TagIsHashed` | internal/cluster/slot.go:26-34 | the hashed part is what stands between the first opening brace and the next closing one, even when that is empty |
| `SlotHash.HashPartExact` | internal/cluster/slot.go:26-34 | for every key the hashed part is the one the Redis Cluster specification names if and only if the key's first opening brace is not directly followed by a closing one |
| `SlotHash.SameTagSameSlot` | internal/cluster/slot.go:24-35 | keys with the same hashed part share one slot |
| `RdbCodec.LengthExact` | internal/replication/rdb_loader.go:56-83 | a length is read back if and only if it fits 32 bits, and what follows is untouched in any case |
| `RdbCodec.StringBack` | internal/replication/rdb_loader.go:86-95 | a string shorter than 2^32 is read back with what follows intact |
| `RdbCodec.Int64Back` | internal/replication/rdb_loader.go:430-450 | a signed 64-bit number is read back |
| `RdbCodec.AllBack` | internal/replication/rdb_loader.go:264-270 | a sequence written element by element is read back element by element |
| `RdbCodec.SeqBack` | internal/replication/rdb_loader.go:258-270 | a counted sequence is read back |
| `RdbCodec.StreamEntryTaken` | internal/replication/rdb_loader.go:375-398 | a stream entry with its fields is read back |
| `RdbCodec.GroupTaken` | internal/replication/rdb_loader.go:402-464 | a consumer group with its consumers and pending entries is read back |
| `RdbDecoder.RDBDecoder.TakeLength` | internal/replication/rdb_loader.go:56-83 | a length is taken off the buffer, or the buffer is too short |
| `RdbDecoder.RDBDecoder.TakeString` | internal/replication/rdb_loader.go:86-95 | a string is taken off the buffer |
| `RdbDecoder.RDBDecoder.TakeExpire` | internal/replication/rdb_loader.go:110-137 | an expiry is taken off the buffer, and a byte that starts none is put back |
| `RdbDecoder.RDBDecoder.TakeStrings` | internal/replication/rdb_loader.go:258-270 | the loop takes as many strings as announced |
| `RdbDecoder.RDBDecoder.TakePairs` | internal/replication/rdb_loader.go:302-320 | the loop takes as many fields as announced |
| `RdbDecoder.RDBDecoder.TakeGroups` | internal/replication/rdb_loader.go:402-466 | the loop takes as many groups as announced |
| `RdbDecoder.RDBDecoder.TakeStream` | internal/replication/rdb_loader.go:358-466 | a stream is taken off the buffer, with groups for type 15 and without for type 5 |
| `RdbDecoder.RDBDecoder.TakeValue` | internal/replication/rdb_loader.go:240-466 | the type byte decides what is taken |
| `RdbDecoder.RDBDecoder.TakeItem` | internal/replication/rdb_loader.go:196-241 | one turn of the loop takes expiry, type, key and value, or the selector |
| `RdbFile.ExpiryExact` | internal/replication/rdb_loader.go:110-137 | every expiry is read with what follows intact; it survives if and only if it is below 2^31, otherwise its low 32 bits are read, and as none when they reach 2^31 |
| `RdbFile.StreamBack` | internal/replication/rdb_loader.go:358-466 | a stream with its groups is read back, its leading count and ids passed over |
| `RdbFile.ValueBack` | internal/replication/rdb_loader.go:240-464 | every string, list, set, hash and stream is read back under its type byte |
| `RdbFile.EntryBack` | internal/replication/rdb_loader.go:196-241 | an entry comes back with type, key and value, whatever follows it, and with its expiry as ExpiryExact says |
| `RdbFile.SelectorRead` | internal/replication/rdb_loader.go:558-560 | the database selector is one item of its own, its number read as an empty key |
| `RdbFile.ItemShrinks` | internal/replication/rdb_loader.go:188-230 | every turn of the loading loop consumes something |
| `RdbFile.FileRoundTrip` | internal/replication/rdb_loader.go:169-616 | loading an encoded snapshot finds the selector and the entries written, in order, with every key and value, and accepts its checksum |
| `RdbFile.WrongChecksumRefused` | internal/replication/rdb_loader.go:573-612 | an encoded snapshot followed by anything but its own checksum, or less than one, is refused |
| `RdbFile.NoSnapshotRefused` | internal/replication/rdb_loader.go:35-54 | data without the magic string and a version is refused |
| `RdbFile.MillisRead` | internal/replication/rdb_loader.go:117-123 | a millisecond expiry, which the encoder never writes, is read as a signed 64-bit number |
| `RdbFile.OldStreamRead` | internal/replication/rdb_loader.go:358-398 | a stream in the old form, without groups, is read |
| `RdbFile.ReadAsWritten` | internal/replication/rdb_loader.go:110-137 | the entries found are exactly those written if and only if no expiry reaches 2^31 |
| `RdbEncoder.RDBEncoder.WriteLength` | internal/replication/rdb.go:408-422 | the three length forms are appended |
| `RdbEncoder.RDBEncoder.WriteString` | internal/replication/rdb.go:396-399 | a string is appended with its length |
| `RdbEncoder.RDBEncoder.WriteStringKeyValue` | internal/replication/rdb.go:142-153 | a string entry is appended |
| `RdbEncoder.RDBEncoder.WriteListKeyValue` | internal/replication/rdb.go:156-170 | a list entry is appended, item by item |
| `RdbEncoder.RDBEncoder.WriteHashKeyValue` | internal/replication/rdb.go:173-188 | a hash entry is appended, field by field |
| `RdbEncoder.RDBEncoder.WriteSetKeyValue` | internal/replication/rdb.go:191-205 | a set entry is appended, member by member |
| `RdbEncoder.RDBEncoder.WriteStreamKeyValue` | internal/replication/rdb.go:291-355 | a stream entry is appended with its ids, entries and groups |
| `RdbEncoder.GenerateRDB` | internal/replication/rdb.go:455-601 | the encoder's buffer ends as the file of the entries listed |
| `RdbLoader.RdbLoading.FlushStrings` | internal/replication/rdb_loader.go:175-184 | the pending strings are written in order and none is left |
| `RdbLoader.RdbLoading.Store` | internal/replication/rdb_loader.go:230-256 | made and pending writes together grow by exactly the item's writes, whether it is batched or not |
| `RdbLoader.RdbLoading.LoadItem` | internal/replication/rdb_loader.go:187-564 | one turn of the loop takes one item off the buffer or reports an error |
| `RdbLoader.LoadRDB` | internal/replication/rdb_loader.go:169-616 | the batched loader succeeds on exactly the snapshots a one-at-a-time loader accepts and makes the same writes in the same order, an expiry that has passed by the turn's clock being dropped |
| `RdbStore.EntryStoredExactly` | internal/replication/rdb_loader.go:238-470 | a new key appears with its whole value and expiry if and only if its value has any element |
| `RdbStore.EntriesReproduced` | internal/replication/rdb_loader.go:186-564 | loading entries one after the other builds the database they stand for, without the expiries that have passed |
| `RdbStore.SnapshotReproduced` | internal/replication/rdb_loader.go:140-616 | encoding, loading and applying a snapshot brings back every key and value, and the whole store, expiries included, if and only if every expiry is below 2^31 and still to come when its entry is loaded |

## Left out

- Sockets, TLS, buffering, timeouts, backoff and goroutine lifecycles: sends, reads and saves are steps that may fail.
- BadgerDB and the command implementations of internal/store: log reads, Dump, Restore, Del and key iteration are taken as specified.
- Stall detection and the other wall-clock heuristics: they only force a reconnect, which is a step of the model.
- The byte-level gob and JSON encodings of gossip, journal and configuration: the state they carry is modelled.
- The parser of inline RESP commands: the reader's outcome says which line it is handed.
- Sorted sets, geo, JSON, time series and HyperLogLog values in the RDB format: the first is lossy text, the others repeat shapes that are proved; a snapshot holding one is refused by the model's loader. The old stream type 5 is read but never written.
- The remaining time the loader computes from an expiry, and its rounding to milliseconds: an expiry still to come is kept as the absolute time in the file. CRC-64 is any function with 8-byte results.
- Log trimming of timestamps whose commits are still in flight, and FLUSHDB racing a commit, are not modelled: only keys of finished commits are trimmed.
- A 64-bit overflow of epochs or timestamps, and case folding outside ASCII.
- A gossip claim that moves the slot itself in the middle of its migration, and a second migration of it to another node: the slot's owner changes only by the migration.
- Replication acknowledgements, the byte offset of the old backlog, WAIT and INFO.
- The deprecated MigrateSlot, the sentinel, the monitor, backups, the command handlers and the tools: argument handling, reporting and heuristics.
- ClusterGossip.ClusterBus.ApplyGossipPayloadFrom: takes only payloads whose entries are at or below their own epoch and whose ranges lie inside the slot table, which is what BuildGossipPayload is proved to send; the code indexes the table with whatever arrives.
- ClusterNetwork.Operate: a node is not told to replicate itself, see Replicate.
- FeedCodec.ScanArgsLoop: a slice that ends past the buffer's length counts as a failure, where Go bounds it by the capacity and may yield an empty argument; LogValueStaysInside proves that no value the log writes gets there.
- RdbDecoder.RDBDecoder.TakeValue: the sorted-set, geo, JSON, time-series and HyperLogLog types are refused, as said above.
- RdbLoader.LoadRDB: on a damaged snapshot only the failure is stated; the code may by then have written part of it.
- RdbStore.SnapshotReproduced: a stream's entries are appended in file order, as their ascending ids make the store do.
- MigrationRuntime.SlotMigrator.MigrateSlotCrashSafe: one slot at a time; saving the journal is atomic; clients act between the steps of the machine, whose theorems cover them, but not between the statements of the methods.
- FeedRuntime.SlaveConnection.FeedSlave: the part under the cursor lock; the flag is read before the lock is taken, and a push on a connection that is then disabled is not modelled.
