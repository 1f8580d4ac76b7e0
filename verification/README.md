# cassem: a verified model of the config centre's hard core

cassem is a configuration centre on top of a Raft-replicated tree KV store. This
project models four of its components in Dafny and proves what they promise over
all inputs, all runs and all interleavings:

1. the replicated store: committed entries pass from the raft loop to the apply
   loop, which changes a tree of buckets, acknowledges waiting requests and emits
   change events; snapshots and log replay run onto a store that is already
   persistent (`RaftNode`, `Replication`, `Recovery`, `Convergence`, `Commands`,
   `Storage`, `BoltRepo`, `KeySchema`, `RequestLog`, `Proposals`, `Acks`, `Requests`,
   `Changes`, `Entities`, `Visibility`, `Ranges`, `Progress`);
2. versioned elements, history compaction, the resumable retention scan, paged
   ranges and the search on top of them (`Elements`, `Interrupted`,
   `ElementHistory`, `Compaction`, `ElementCompaction`, `RetentionGC`, `ScanOrder`,
   `Paging`, `Search`);
3. the agent's cache: an LRU-K and the three-level pool beside it (`LruK`,
   `AgentCache`);
4. watch and delivery: the agent's instance pool and watch streams, the admin's
   batching loop, and the cluster-wide instance index (`Watch`, `Batching`,
   `InstanceIndex`, `IndexRuns`).

`dafny verify dfyconfig.toml` checks the whole project.

## How things are represented

A bucket tree is a finite map from paths to nodes whose proper prefixes are
buckets. A bolt transaction is one assignment of that map. Protobuf encoding is the
identity, md5 is a free constructor, text is a sequence of code points (UTF-8 keeps
their order). Clocks, failures of calls, the choices of a scheduler and what raft
delivers are parameters. An interleaving is a sequence of steps, where what the
source does under one lock, or between two channel operations, is one step. A linked
list is a sequence whose elements are known by key. Machine integers are unbounded
except where width matters: the uint64 slice arithmetic of `entriesToApply`, the
int32 TTL arithmetic, the int64 cutoff, the parsing of int32 versions and the uint
resizing of the LRU history are written out.

## What the code does not promise

Each of these is a lemma with the failing inputs, next to the theorem that says when
the promise holds.

- The snapshot trigger waits for the apply loop only when its own batch carried
  data. A snapshot taken after an empty batch can miss a committed write, and a
  restart from it loses the write (`Recovery.RacySnapshotLosesWrite`). A run recovers
  at every point if and only if no such trigger comes before pending effects
  (`Recovery.AlwaysRecoversIff`, `Recovery.TriggeredSnapshotExactIff`).
- A log that runs once need not run on the store it left. It does if and only if no
  command meets there a path of the other kind that the log has not touched before
  (`Convergence.RestartConvergesIff`, `Convergence.ClashBreaksRestart`). Commands that
  use schema keys in their roles never clash, unless an identifier holds a slash
  (`KeySchema.SchemaKeysNeverClash`, `KeySchema.SlashInKeyClashes`).
- Requests do not always use keys in their roles: setting a directory that exists, as
  `CreateEnvironment` does for an existing environment, proposes to unset it as a leaf.
  The storage rejects that, the apply loop ends, and every replay of the log ends at
  the same entry (`RequestLog.CreateEnvironmentTwice`, `RequestLog.ResetHalts`). A log
  of requests keeps its roles if and only if none of them does this
  (`RequestLog.RequestLogIff`).
- `SetKV` checks for an existing record before it proposes and not again at apply, so
  two writes without overwrite can both succeed (`Proposals.NonOverwriteRace`).
- Request ids are a per-process counter: which command acknowledges a request is
  decided by the number alone (`Requests.AcknowledgedByIff`).
- The removal of an expired record does not name the record: applied late it takes a
  rewritten one (`Visibility.WriteVisibleIff`, `Visibility.LateRemovalTakesNewRecord`),
  and hides an instance that has just renewed (`IndexRuns.LateReapHidesInstance`,
  `IndexRuns.IndexIsComplete`).
- `SetKV` counts the age of a live record twice, so a record with a TTL loses its
  creation time from half of its TTL on (`Entities.CreatedAtLostAtHalfTtl`).
- Operations on elements are several writes. Exactly a create or an update stopped
  after its first write, and a delete stopped before its log is gone, break the
  version invariant (`Elements.StoppedKeepsInvIff`). The orphan of such an update
  blocks updates until the element is deleted or a compaction drops it
  (`Interrupted.OrphanBlocksUpdates`, `Interrupted.CompactionHeals`); the half-created
  element changes only by being deleted (`Interrupted.HalfCreatedIsStuck`).
- Rollback does not ask whether its target was published
  (`Interrupted.RollbackServesItsTarget`, `Interrupted.AlwaysPublishedIff`).
- `Purge` gives no room back (`LruK.LRU.Purge`).
- Two triples with one joined cache key make a query serve an outdated element, and
  nothing else does (`AgentCache.ServesLatestIff`).
- A second `register` that asks for new keys leaves the instance listed after it is
  unregistered, and nothing else does (`Watch.NeverLeaksIffTidy`). `Watch` registers each watched app and
  env separately, so a request with two of them does this as soon as the second brings
  a new key.
- The comment on the batching loop speaks of up to 100 items; the counter ends every
  batch at 10. Closing the channel drops the pending batch
  (`Batching.EveryItemInOneBatch`, `Batching.CloseDropsPending`).

## Model

| member | source | states |
|---|---|---|
| `RaftNode.Node.EntriesToApply` | internal/app/kv/raftimpl/node.go:165-177 | the slice computed modulo 2^64 is exactly the entries after appliedIndex; fatal exactly on a gap |
| `RaftNode.Node.PublishEntries` | internal/app/kv/raftimpl/node.go:181-230 | hands over exactly the data entries, moves appliedIndex to the last index, stops on removal of this node |
| `RaftNode.Node.PublishSnapshot` | internal/app/kv/raftimpl/node.go:385-401 | an empty snapshot is nothing, an old one a panic, a newer one is announced to the apply loop and moves both indices |
| `RaftNode.Node.MaybeTriggerSnapshot` | internal/app/kv/raftimpl/node.go:405-444 | a snapshot of the store as it is after the wait is taken at appliedIndex exactly past the threshold and unless the node stops while waiting; the log is compacted to 10000 entries before it, or to 1 |
| `RaftNode.NewerIsSuffix` | internal/app/kv/raftimpl/node.go:165-177 | the entries newer than appliedIndex are a suffix of a contiguous batch |
| `Replication.NewerOfSlice` | internal/app/kv/raftimpl/node.go:165-177 | the part of a log slice that entriesToApply keeps is the part the step machine publishes |
| `Replication.PayloadsOfSlice` | internal/app/kv/raftimpl/node.go:181-230 | publishEntries collects exactly the data indices of the slice |
| `Replication.ExactlyOnceInOrder` | internal/app/kv/raftimpl/node.go:165-230 | over every interleaving each data entry is handed to apply exactly once and in order or is covered by a snapshot; appliedIndex never decreases |
| `Progress.PublishExactly` | internal/app/kv/raftimpl/node.go:165-230 | the publish step from outside: it stops if and only if the slice has a gap before it or a new entry removes this node; otherwise appliedIndex becomes the end of the slice if that is newer, and exactly the indices of the new data entries are handed over |
| `Progress.PublishOnNode` | internal/app/kv/raftimpl/node.go:165-230 | publishEntries on a node at the same index stops, moves and hands over exactly as the publish step |
| `Progress.InstallOnNode` | internal/app/kv/raftimpl/node.go:385-401 | publishSnapshot on a node at the same indices panics, loads and moves exactly as the install step |
| `Progress.TriggerOnNode` | internal/app/kv/raftimpl/node.go:405-444 | maybeTriggerSnapshot on a node at the same indices takes the same snapshot as the trigger step |
| `Replication.StoreFollowsLog` | internal/app/kv/raftimpl/raft_impl.go:143-240 | over every quiet interleaving the store is the fold of what was applied and each snapshot the fold up to its index |
| `Progress.WholeLogIsReached` | internal/app/kv/raftimpl/node.go:446-520 | progress: for a schema log without self-removal, from every recovering and live state some steps reach the end of the log with the fold of the whole log in the store |
| `Progress.EveryRunCanFinish` | internal/app/kv/raftimpl/node.go:446-520 | the same after every run that recovers |
| `Progress.SnapshotIsReached` | internal/app/kv/raftimpl/node.go:385-401 | from every state at rest an installed snapshot that is newer is loaded into the store |
| `Progress.CrashKeepsStore` | internal/app/kv/raftimpl/node.go:275-293 | over every run a node comes back at its newest snapshot, without one at index 0 with the store it had written, and never before a snapshot it once had |
| `Recovery.RacySnapshotLosesWrite` | internal/app/kv/raftimpl/node.go:411-417 | for every write, an interleaving after which it is committed and lost for good |
| `Recovery.FoldIsReplay` | internal/app/kv/raftimpl/raft_impl.go:156-229 | for a schema log the fold never halts and is the replay of its commands |
| `Recovery.RecoversIffPendingSettled` | internal/app/kv/raftimpl/node.go:411-417 | with a batch at work: the store recovers from appliedIndex if and only if the commands still to be applied have their last effects in it already |
| `Recovery.RecoversIffLoadSettled` | internal/app/kv/raftimpl/node.go:385-401 | about to load: if and only if the snapshot to be loaded brings nothing new |
| `Recovery.TriggeredSnapshotExactIff` | internal/app/kv/raftimpl/node.go:405-444 | in every state in which a snapshot is taken it is the fold up to its index if and only if what the apply loop still has to apply or load changes nothing |
| `Recovery.TriggerKeepsRecoveringIff` | internal/app/kv/raftimpl/node.go:405-444 | a trigger keeps what recovery needs if and only if it is not racy or what the apply loop still has to do changes nothing |
| `Recovery.AlwaysRecoversIff` | internal/app/kv/raftimpl/node.go:275-293 | over all runs with crashes, every state can recover if and only if no snapshot is triggered racily before pending effects that are not there yet |
| `Recovery.EveryRunRecovers` | internal/app/kv/raftimpl/raft_impl.go:143-240 | over every such run the apply loop never fails and the store catches up with the fold of the log |
| `Recovery.RestartRecovers` | internal/app/kv/raftimpl/node.go:275-293 | starting over at index 0 on whatever the store holds reaches the reference |
| `Storage.FindDirsMeaning` | internal/app/kv/storage/bbolt_impl.go:80-128 | the walk without creating succeeds exactly when every prefix is a bucket |
| `Storage.EnsureDirsMeaning` | internal/app/kv/storage/bbolt_impl.go:80-128 | the creating walk makes exactly the missing buckets, and fails exactly at an empty segment or a leaf in the way |
| `Storage.SplitterIsFullPath` | internal/app/kv/storage/repository.go:35-48 | the split key is the path without and with its last segment |
| `BoltRepo.Repository.LocateBucket` | internal/app/kv/storage/bbolt_impl.go:80-128 | the loop computes the creating or the finding walk, with its errors |
| `BoltRepo.Repository.GetKV` | internal/app/kv/storage/bbolt_impl.go:130-167 | returns what is stored at the path, or the error of the walk |
| `BoltRepo.Repository.SetKV` | internal/app/kv/storage/bbolt_impl.go:169-197 | commits the whole new tree or nothing |
| `BoltRepo.Repository.UnsetKV` | internal/app/kv/storage/bbolt_impl.go:199-222 | removes one leaf or a whole subtree, and nothing when nothing is there |
| `BoltRepo.Repository.CursorLoop` | internal/app/kv/storage/bbolt_impl.go:261-280 | the loop collects the live entries up to the limit and the expired keys it passes |
| `BoltRepo.Repository.Range` | internal/app/kv/storage/bbolt_impl.go:224-295 | returns one page of the directory's listing |
| `Ranges.RangeReadsKey` | internal/app/kv/storage/bbolt_impl.go:224-246 | for every well-formed store Range reads the directory at the path of its key, a key of one segment being a top-level bucket, and nothing if there is none |
| `Ranges.RangeEnumerates` | internal/app/kv/storage/bbolt_impl.go:224-295 | the pages a caller follows hold, once each and in byte order, exactly the entries under the key that are not expired; all but the last are full |
| `Ranges.PagesExist` | internal/app/kv/storage/bbolt_impl.go:224-295 | following the continuation always ends |
| `Ranges.RangeReportsExpired` | internal/app/kv/storage/bbolt_impl.go:261-280 | the keys reported as expired are exactly those of the expired records under the key |
| `Ranges.ParentIsRangeable` | internal/app/kv/storage/repository.go:35-48 | the path of the parent key is the key without its last segment, and it can be ranged over if and only if its own last segment is not blank |
| `Commands.MutateIsPointwise` | internal/app/kv/raftimpl/raft_impl.go:200-229 | every accepted command is one pointwise update of the tree, implicit parents and subtree deletes included, and keeps it well formed |
| `Commands.AcceptedIffFits` | internal/app/kv/raftimpl/raft_impl.go:200-229 | a command with a valid key is accepted exactly when nothing of the other kind is in its way |
| `Convergence.ReplayIsLastEffect` | internal/app/kv/raftimpl/raft_impl.go:200-229 | replaying any part of a schema log never fails and ends, path by path, in the last effect |
| `Convergence.ReplayConverges` | internal/app/kv/raftimpl/node.go:275-293 | replaying the whole log onto anything made of it gives the tree of applying it once from empty |
| `Convergence.CrashesConverge` | internal/app/kv/raftimpl/node.go:446-453 | the same after any number of interrupted replays |
| `Convergence.AcceptedOnIff` | internal/app/kv/raftimpl/raft_impl.go:200-229 | a log accepted from empty is accepted on a store if and only if no command meets a path of the other kind there that the log has not touched before |
| `Convergence.RestartConvergesIff` | internal/app/kv/raftimpl/node.go:275-293 | replaying a log onto the store of any of its prefixes succeeds if and only if no command meets such a path, and then gives the tree of applying it once |
| `Convergence.ClashBreaksRestart` | internal/app/kv/storage/bbolt_impl.go:169-221 | a log that sets a leaf first and leaves a directory there cannot be replayed onto its own result |
| `Convergence.LeafThenDirectoryRuns` | internal/app/kv/storage/bbolt_impl.go:169-221 | such logs exist for every path |
| `KeySchema.PrintSplits` | internal/concept/key_generator.go:29-152 | for slash-free segments every printed key splits back into its path |
| `KeySchema.SystemSplits` | internal/coord/coordinator_token.go:74-77 | so do the keys of policy, users, tokens, retention state and cluster members |
| `KeySchema.RoleDecidedByPath` | internal/concept/key_generator.go:29-152 | whether a schema path is a directory is decided by the path, and so for its prefixes |
| `KeySchema.SchemaKeyIsValid` | internal/concept/key_generator.go:29-152 | the storage accepts every schema key |
| `KeySchema.SchemaKeysNeverClash` | internal/concept/key_generator.go:29-152 | logs of commands that use slash-free schema keys in their roles never use a path as directory and as leaf |
| `RequestLog.RolesKeptIff` | internal/app/kv/raftimpl/raft_impl.go:380-513 | for every schema key, store and clock the commands of a request keep their roles if and only if it does not set a directory that exists and is taken for expired |
| `RequestLog.DirectoryExpiredIff` | internal/app/kv/storage/entity.go:37-49 | exactly when a directory that was read back is taken for expired |
| `RequestLog.RequestLogIff` | internal/app/kv/raftimpl/raft_impl.go:380-513 | over every run of requests, each prepared on the store after any part of the log, the log uses every path in one role if and only if no request resets a directory |
| `RequestLog.SetAsks` | internal/app/kv/raftimpl/raft_impl.go:380-420 | what a SetKV proposes: nothing exactly when a live record forbids it, else the removal of an expired record and one write of the given key and value that lives for the given TTL |
| `RequestLog.UnsetAsks` | internal/app/kv/raftimpl/raft_impl.go:422-432 | an UnsetKV proposes one removal of its key in its role |
| `RequestLog.ReadsAsk` | internal/app/kv/raftimpl/raft_impl.go:434-513 | a GetKV proposes the removal of its record exactly when it is expired, and so does a Range of each record it meets |
| `RequestLog.RequestVisibleIff` | internal/app/kv/raftimpl/raft_impl.go:380-513 | what a SetKV asked for with TTL T at u is visible at t exactly when t - u < T, always for TTL 0, unless a later removal was applied |
| `RequestLog.RequestStreamIsComplete` | internal/app/kv/raftimpl/raft_impl.go:200-269 | over every run of requests the change stream reproduces the leaf values of the store |
| `KeySchema.SlashInKeyClashes` | internal/concept/key_generator.go:35-67 | an element key with a slash prints a directory where another element has a leaf |
| `Changes.Applier.ApplyMutateLogEntry` | internal/app/kv/raftimpl/raft_impl.go:200-240 | the store and the stream move together or neither does |
| `Changes.ChangeFollows` | internal/app/kv/raftimpl/raft_impl.go:242-253 | following the announced change, or none when suppressed, gives the leaf values after the command |
| `Changes.AnnouncedIff` | internal/app/kv/raftimpl/raft_impl.go:242-253 | a SET is announced if and only if it does not replace a record of the same fingerprint; an UNSET always; and the change carries the replaced record as its last value |
| `Changes.EmitShape` | internal/app/kv/raftimpl/raft_impl.go:255-269 | each KV change is followed by exactly one directory change for its parent path |
| `Changes.StreamIsComplete` | internal/app/kv/raftimpl/raft_impl.go:200-269 | following the whole stream reproduces the leaf values of the store over every run |
| `Acks.AcksAreSafe` | internal/app/kv/raftimpl/raft_impl.go:290-346 | over every interleaving each channel is sent to and closed at most once, no sender blocks, nil comes from an applied entry with that id |
| `Acks.AppliedWereCarriedOut` | internal/app/kv/raftimpl/raft_impl.go:143-169 | only the last entry applied can have been rejected, and then the loop has ended |
| `Acks.AppliedIsAnswered` | internal/app/kv/raftimpl/raft_impl.go:306-321 | over every run a request pending when its entry is applied is owed the outcome of that entry, an error if it was rejected, and receives it |
| `Acks.ShutdownIsAnswered` | internal/app/kv/raftimpl/raft_impl.go:323-333 | over every run a request pending at shutdown is owed the shutdown error and receives it |
| `Acks.NoRequestIsForgotten` | internal/app/kv/raftimpl/raft_impl.go:290-346 | over every interleaving the answer of a request whose caller did not give up is still to come, owed, in its channel or received |
| `Acks.GivenUpIsNeverAnswered` | internal/app/kv/raftimpl/raft_impl.go:290-304 | after giving up on a pending request nothing is ever sent to it |
| `Requests.ExecuteFollowsProtocol` | internal/app/kv/raftimpl/raft_impl.go:200-240 | running commands on the store is the protocol over their ids and outcomes, and the store is the fold of what was applied |
| `Requests.NilMeansCarriedOut` | internal/app/kv/raftimpl/raft_impl.go:290-374 | nil always means an entry with the id was applied and the storage carried out it and everything before |
| `Requests.NilMeansOwnApplied` | internal/app/kv/raftimpl/raft_impl.go:290-374 | with a unique id and the command committed, nil means that very command was applied and the storage accepted it there |
| `Requests.AcknowledgedByIff` | internal/app/kv/raftimpl/raft_impl.go:290-321 | for every log, entry i can acknowledge a request for any command if and only if it carries the same id and the log is carried out up to it |
| `Requests.ForeignCommandAcknowledges` | internal/app/kv/raftimpl/raft_impl.go:290-321 | the run in which it does, for every such entry and command |
| `Proposals.NonOverwriteRace` | internal/app/kv/raftimpl/raft_impl.go:401-419 | two requests without overwrite that pass the check on one store are both applied and the later replaces the earlier; it is refused if and only if prepared after the earlier was applied and while that record is alive |
| `RequestLog.ResetHalts` | internal/app/kv/raftimpl/raft_impl.go:184-229 | the proposed removal is rejected, so the fold is halted from that entry on in every replay and the log is none that recovery covers |
| `RequestLog.CreateEnvironmentTwice` | internal/coord/coordinator_kv_w.go:123-134 | for every app and env, creating an existing environment breaks the log and halts the fold at the second entry |
| `Entities.VisibleIff` | internal/app/kv/storage/entity.go:19-49 | for every time: a record is alive exactly when its age modulo 2^32 is below the TTL or above the TTL plus 2^31 |
| `Entities.VisibleWhileYoung` | internal/app/kv/storage/entity.go:19-49 | so within 2^31 seconds a record with TTL T written at u is alive at t exactly when t - u < T |
| `Entities.ExpiredStaysExpired` | internal/app/kv/storage/entity.go:37-49 | an expired record stays expired |
| `Entities.ExpiredComesBack` | internal/app/kv/storage/entity.go:37-49 | the int32 age wraps after 2^32 seconds |
| `Entities.OverwriteKeepsCreatedAt` | internal/app/kv/raftimpl/raft_impl.go:391-409 | overwriting a never-expiring record keeps its creation time |
| `Entities.ProposedIs` | internal/app/kv/raftimpl/raft_impl.go:398-409 | every record SetKV proposes has the given key and value, the fingerprint of the value and the present time, and is alive exactly for its TTL, always for TTL 0 |
| `Entities.CreatedAtLostAtHalfTtl` | internal/app/kv/raftimpl/raft_impl.go:398-409 | a record with a TTL keeps its creation time if and only if less than half of the TTL has passed |
| `Visibility.GetFindsLeaf` | internal/app/kv/storage/bbolt_impl.go:130-167 | GetKV finds exactly the leaf at the key's path |
| `Visibility.GetFindsDirectory` | internal/app/kv/storage/bbolt_impl.go:130-167 | and a read of a directory succeeds exactly where there is one |
| `Visibility.InvalidKeyIsInert` | internal/app/kv/storage/bbolt_impl.go:80-128 | a key without parent, with a blank last or an empty inner segment reads nothing, writes nothing and removes nothing |
| `Visibility.RangeFindsLeaf` | internal/app/kv/storage/bbolt_impl.go:224-295 | the pages of Range over the parent key list a leaf exactly when it is there and not expired |
| `Visibility.VisibleIffLastWriteAlive` | internal/app/kv/raftimpl/raft_impl.go:434-453 | over every schema log GetKV shows a key exactly when its last effect is a record that is alive, with the TTL it has left |
| `Visibility.RangeAgreesWithGet` | internal/app/kv/raftimpl/raft_impl.go:434-513 | over every schema log the pages of Range over the parent key list exactly what GetKV shows |
| `Visibility.WrittenVisibleIff` | internal/app/kv/raftimpl/raft_impl.go:434-513 | a written record is visible exactly while it is not expired and no later removal was applied |
| `Visibility.WriteVisibleIff` | internal/app/kv/raftimpl/raft_impl.go:434-513 | a record written at u is visible at t exactly when t - u < T and no later removal was applied |
| `Visibility.LateRemovalTakesNewRecord` | internal/app/kv/raftimpl/raft_impl.go:454-513 | a removal applied after a rewrite hides the new record at every time |
| `Paging.ListingMeaning` | internal/app/kv/storage/bbolt_impl.go:224-258 | the cursor meets exactly the children of the bucket, in byte order |
| `Paging.PageIsFull` | internal/app/kv/storage/bbolt_impl.go:261-285 | a page holds at most limit entries, exactly limit unless it is the last, and always advances |
| `Paging.PageCut` | internal/app/kv/storage/bbolt_impl.go:251-285 | a page and what its next seek key leads to are the directory, live and expired entries alike |
| `Paging.ChainEnumerates` | internal/app/kv/storage/bbolt_impl.go:224-295 | chained pages list every live child once and in order, every expired one in ExpiredKeys, and all but the last are full |
| `Search.CollectPage` | internal/coord/coordinator_kv_r.go:163-209 | the inner loop keeps the matches of a page up to one past the limit |
| `Search.GetElements` | internal/coord/coordinator_kv_r.go:163-209 | the search loop returns exactly the page of the filtered directory, and terminates |
| `Search.NextSeekContinues` | internal/coord/coordinator_kv_r.go:163-209 | following NextSeek continues with exactly the rest of the matches |
| `Search.SearchEnumerates` | internal/coord/coordinator_kv_r.go:163-209 | all pages together are the matching keys in order, none lost or repeated, all but the last full |
| `RetentionGC.Scanner.ScanElementKeys` | internal/app/adm/retention_gc.go:222-241 | the paged loop goes through the elements of an env from a seek key on, or stops by budget or read error |
| `RetentionGC.Scanner.ScanEnvs` | internal/app/adm/retention_gc.go:192-220 | the same for the envs of an app, the cursor applying only to its own env |
| `RetentionGC.Scanner.ScanElements` | internal/app/adm/retention_gc.go:161-190 | the three nested paged loops refine one flat list |
| `ScanOrder.SeeksMeanAtOrAfter` | internal/app/adm/retention_gc.go:161-241 | the seek keys of the three levels together are the lexicographic comparison with the cursor |
| `ScanOrder.ScanMembers` | internal/app/adm/retention_gc.go:161-241 | the scan goes through exactly the stored elements at or after the cursor, also when its app or env is gone |
| `ScanOrder.ScanAscending` | internal/app/adm/retention_gc.go:161-241 | in lexicographic order |
| `ScanOrder.ScanResumes` | internal/app/adm/retention_gc.go:281-283 | resuming after the k-th element goes through exactly the rest |
| `ScanOrder.Collector.HasElementAtOrAfterCursor` | internal/app/adm/retention_gc.go:243-253 | found exactly when something is stored at or after the cursor, if no read failed |
| `ScanOrder.Collector.RunOnce` | internal/app/adm/retention_gc.go:71-123 | one run visits a stretch of at most max elements and persists where to go on; a failed read loses and repeats nothing |
| `ScanOrder.Tally` | internal/app/adm/retention_gc.go:89-111 | the counters count the visited elements by verdict |
| `ScanOrder.CountsAddUp` | internal/app/adm/retention_gc.go:71-123 | Scanned = Cleaned + Partial + Failed |
| `ScanOrder.PersistedCursorIsValid` | internal/app/adm/retention_gc.go:135-159 | a persisted cursor reads back as it is |
| `ScanOrder.CycleVisitsAll` | internal/app/adm/retention_gc.go:71-123 | over an unchanged store successive runs visit the flat list once each and in order before the cursor resets |
| `ScanOrder.CycleIsComplete` | internal/app/adm/retention_gc.go:71-123 | a cycle from the start visits every stored element |
| `ScanOrder.EveryStoreIsOrdered` | internal/app/adm/retention_gc.go:255-279 | every store a log leads to gives the scan ordered directories with names a cursor can hold |
| `ScanOrder.StoredInTree` | internal/app/adm/retention_gc.go:255-279 | a name is live in a directory exactly when its path is in the tree and not expired |
| `ScanOrder.ScannedIff` | internal/app/adm/retention_gc.go:161-241 | a scan from the start meets exactly the elements of a listed app with anything stored under their directory |
| `ScanOrder.ElementIsScanned` | internal/app/adm/retention_gc.go:161-241 | so an element whose metadata is stored and whose app is listed is always met |
| `ScanOrder.UnusableStartsOver` | internal/app/adm/retention_gc.go:135-159 | a cursor record that is no position starts over |
| `Compaction.VersionRoundTrip` | internal/app/kv/retention_compact.go:229-241 | version parsing undoes WithVersion |
| `Compaction.PaddedNameParses` | internal/app/kv/retention_compact.go:229-241 | parsing is not injective: padded names parse too |
| `Compaction.VersionParsesIff` | internal/app/kv/retention_compact.go:229-241 | a name is read as version v if and only if it is a v, at most a plus sign, and a possibly padded numeral of v in the positive int32 range |
| `Compaction.SafeRetentionCutoff` | internal/app/kv/retention_compact.go:180-193 | the cutoff is max(0, now - keep * unit), and no step leaves int64 |
| `Compaction.LoadFrom` | internal/app/kv/retention_compact.go:114-145 | the paged load meets every live entry once, whatever the page size |
| `Compaction.LoadCompactVersions` | internal/app/kv/retention_compact.go:114-145 | from the seek key "v" on, versions and unparsed keys |
| `Compaction.LoadCompactOperations` | internal/app/kv/retention_compact.go:147-178 | the operations directory, decoded times and undecodable keys |
| `Compaction.TopIffFewGreater` | internal/app/kv/retention_compact.go:195-227 | in a descending list the first k are those with fewer than k greater ones |
| `Compaction.RetainedVersionSet` | internal/app/kv/retention_compact.go:195-227 | the set built by sorting and cutting is the retention rule |
| `Compaction.DeleteVersions` | internal/app/kv/retention_compact.go:71-80 | deletes exactly the outdated keys that can be deleted; loaded = retained + deleted + failed |
| `Compaction.DeleteOperations` | internal/app/kv/retention_compact.go:81-91 | deletes exactly the operations older than the cutoff that can be deleted; loaded = retained + deleted + failed |
| `Compaction.SecondRunDeletesNothing` | internal/app/kv/retention_compact.go:34-98 | compacting again at the same instant deletes no version |
| `Compaction.OldPartition` | internal/app/kv/retention_compact.go:81-91 | and no operation: what is left holds no old one |
| `Compaction.CompactElementHistory` | internal/app/kv/retention_compact.go:34-98 | the whole operation: a failed read deletes nothing; otherwise both loads, both cutoffs, the retained set and the deletes, and scanned = retained + deleted + failed, unreadable keys counted as failed |
| `ElementCompaction.CursorOrderIsNotNumeric` | internal/app/kv/retention_compact.go:114-145 | v10 comes before v2 in storage order |
| `ElementCompaction.LoadFindsVersions` | internal/app/kv/retention_compact.go:114-145 | on an element's directory the load finds exactly the stored versions |
| `ElementCompaction.RankIsCount` | internal/app/kv/retention_compact.go:195-227 | the rank of a loaded version is the number of stored versions above it |
| `ElementCompaction.CompactionIsExact` | internal/app/kv/retention_compact.go:195-227 | precisely the versions not in use, not the draft, older than the cutoff and outside the numerically greatest keepCount are outdated |
| `ElementCompaction.CompactElement` | internal/app/kv/retention_compact.go:34-98 | on an element's own directories, with every delete successful, nothing fails and what is left is the element after its Compact |
| `ElementCompaction.StoreListsElement` | internal/app/kv/retention_compact.go:114-145 | every store that holds an element lists its directory as the compaction expects it |
| `ElementCompaction.StoreListsLog` | internal/app/kv/retention_compact.go:147-178 | so it is with its log |
| `Elements.Keys.CreateElement` | internal/coord/coordinator_kv_w.go:37-73 | refused exactly when there is metadata; Done leaves version 1 with the given bytes, unpublished, its metadata and one log entry; the state after every number of writes |
| `Elements.Keys.UpdateElement` | internal/coord/coordinator_kv_w.go:75-108 | Done leaves the next version with the given bytes as the draft and one log entry; version first, then metadata, then the log: the state after every number of writes and the reply |
| `Elements.Keys.DeleteElement` | internal/coord/coordinator_kv_w.go:110-121 | both directories go, one command each: the state after every number of writes |
| `Elements.Keys.RollbackElementVersion` | internal/coord/coordinator_kv_w.go:155-186 | Done leaves the target, a stored version below the one in use, in use with its fingerprint and one log entry; the state after every number of writes and the reply |
| `Elements.Keys.PublishElementVersion` | internal/coord/coordinator_kv_w.go:188-234 | Done leaves the target, the draft for version 0, in use and published and no draft, and one log entry; the state after every number of writes and the reply |
| `Elements.Keys.SaveOperation` | internal/coord/coordinator_kv_w.go:307-322 | a log entry is never overwritten |
| `Elements.InsertMeans` | internal/coord/coordinator_kv_w.go:307-322 | a log entry is refused only when its time is taken; otherwise it is added and nothing else changes |
| `ElementHistory.RefusedIffTaken` | internal/coord/coordinator_kv_w.go:307-322 | in a log in key order it is refused if and only if its time is taken |
| `Elements.SaveMeans` | internal/coord/coordinator_kv_w.go:326-342 | saving a version stores exactly the given record, and keeps the creation time of one that is there, because SetKV does |
| `Elements.CreateMeans` | internal/coord/coordinator_kv_w.go:37-73 | over every state of the invariant and number of writes: a create changes something if and only if there is no element, and leaves version 1 with the given bytes and metadata (1, 1, 0) |
| `Elements.UpdateMeans` | internal/coord/coordinator_kv_w.go:75-108 | an update changes something if and only if there is an element without draft and a next version, and leaves that version as the draft |
| `Elements.PublishMeans` | internal/coord/coordinator_kv_w.go:188-234 | a publish changes something if and only if its target is stored; version 0 brings the draft into use |
| `Elements.RollbackMeans` | internal/coord/coordinator_kv_w.go:155-186 | in every state, interrupted ones included, a rollback changes something if and only if its target is stored, positive and below the version in use, so it never serves a draft above that |
| `Elements.DeleteMeans` | internal/coord/coordinator_kv_w.go:110-121 | a delete takes metadata and versions with its first write and the log with its second |
| `Elements.AllWritesComplete` | internal/coord/coordinator_kv_w.go:37-234 | with every write gone through, what is left is the completed operation |
| `Elements.StoppedKeepsInvIff` | internal/coord/coordinator_kv_w.go:37-234 | an operation stopped after any number of writes keeps the invariant if and only if it is not a create or update after its first write, nor a delete after its first write with a log; stored bytes and creation times never change |
| `Elements.EveryRunIsCoherentIff` | internal/coord/coordinator_kv_w.go:37-234 | over every run of possibly stopped operations all states keep the invariant if and only if no step stops at such a place |
| `Elements.CompleteKeepsInv` | internal/coord/coordinator_kv_w.go:37-121 | every completed operation keeps the version invariant and never changes a stored version |
| `Elements.EveryRunIsCoherent` | internal/coord/coordinator_kv_w.go:37-234 | in every reachable state versions lie in 1..latest, records carry their number, draft and in-use version are stored, the fingerprint is that of the version in use |
| `Interrupted.StoppedUpdateLeavesOrphan` | internal/coord/coordinator_kv_w.go:98-107 | an update stopped after its first write leaves a version above latest |
| `Interrupted.OrphanStaysIff` | internal/coord/coordinator_kv_w.go:75-108 | a step leaves the orphan in place if and only if it is not a delete and not a compaction that drops it |
| `Interrupted.OrphanBlocksUpdates` | internal/coord/coordinator_kv_w.go:75-108 | over every run no update changes anything until a step takes the orphan away |
| `Interrupted.CompactionHeals` | internal/coord/coordinator_kv_w.go:75-108 | a compaction that drops the orphan restores the invariant and lets the next update start |
| `Interrupted.PublishedOrphanIsAboveLatest` | internal/coord/coordinator_kv_w.go:188-234 | publishing the orphan, with however many writes, puts a version above latest in use |
| `Interrupted.HalfCreatedIsStuck` | internal/coord/coordinator_kv_w.go:54-68 | after a create without its version write no run changes anything until a delete |
| `ElementHistory.NumeralOrder` | internal/concept/key_generator.go:85-87 | timestamps of one length compare as numbers |
| `ElementHistory.HistoryIsFaithful` | internal/coord/coordinator_kv_w.go:307-322 | SET entries chain 0 to latest, PUBLISH entries to the version in use, and compaction leaves contiguous chains to the same ends |
| `ElementHistory.RecentIsSuffix` | internal/app/kv/retention_compact.go:81-91 | age-based removal cuts off a prefix of the log |
| `ElementHistory.EveryLogIsInKeyOrder` | internal/coord/coordinator_kv_w.go:307-322 | over every run of possibly stopped operations, whatever the times, the log is in key order |
| `Interrupted.RollbackServesItsTarget` | internal/coord/coordinator_kv_w.go:163-175 | for every version: the one in use after a rollback is the target, published if and only if the target was |
| `Interrupted.AlwaysPublishedIff` | internal/coord/coordinator_kv_w.go:155-234 | over every run the version in use is always published if and only if every rollback target is and no publish stops before setting the flag of an unpublished version |
| `Interrupted.PassedOverDraft` | internal/coord/coordinator_kv_w.go:155-234 | from every state with a stored version and no draft, at any increasing times of one length, operations after which a never published version can be rolled back to |
| `Interrupted.FirstPublish` | internal/coord/coordinator_kv_w.go:37-73 | such a state is reachable, at any such times |
| `LruK.HistoryRoom` | internal/app/agent/lru/k.go:26-47 | a history smaller than the cache gets one, two or three times its size by size modulo 3 while that fits, and in machine arithmetic is never left without room |
| `LruK.LRU.constructor` | internal/app/agent/lru/k.go:26-47 | starts empty with the stated capacities |
| `LruK.LRU.Put` | internal/app/agent/lru/k.go:50-91 | refines the list specification, keeps remaining + length = capacity and the index maps, logs each eviction |
| `LruK.LRU.Get` | internal/app/agent/lru/k.go:94-109 | returns the cached value and makes the key most recent |
| `LruK.LRU.Remove` | internal/app/agent/lru/k.go:112-120 | removes the key, calls onEvict once, keeps the accounting |
| `LruK.LRU.Keys` | internal/app/agent/lru/k.go:160-172 | lists the cached keys oldest first |
| `LruK.LRU.Purge` | internal/app/agent/lru/k.go:185-205 | calls onEvict once per element; the accounting survives if and only if both lists were empty |
| `LruK.LRU.AddElement` | internal/app/agent/lru/k.go:239-247 | evicts the back exactly when no room is left |
| `LruK.LRU.RemoveElement` | internal/app/agent/lru/k.go:226-237 | list, map and counter move together, onEvict once |
| `LruK.LRU.AddHistoryElement` | internal/app/agent/lru/k.go:217-224 | drops the back of the history exactly when no room is left |
| `LruK.LRU.RemoveHistoryElement` | internal/app/agent/lru/k.go:207-215 | list, map and counter move together |
| `LruK.StepKeepsSound` | internal/app/agent/lru/k.go:50-120 | distinct keys, bounded lists, no key in both, history counts in 1..K-1 |
| `LruK.EveryRunIsFaithful` | internal/app/agent/lru/k.go:50-120 | over every run the cache is ordered by last use, the history by last Put, values are the last put, counts the Puts since entry |
| `LruK.AdmittedOnKthPut` | internal/app/agent/lru/k.go:65-91 | an uncached key is admitted exactly on its K-th Put since it entered history |
| `LruK.OnlyOwnPutAdmits` | internal/app/agent/lru/k.go:50-120 | nothing else admits a key |
| `LruK.DeparturesAreExact` | internal/app/agent/lru/k.go:226-247 | a key leaves in a step exactly when onEvict is called with it and its value |
| `LruK.VictimIsLeastTouched` | internal/app/agent/lru/k.go:239-247 | the victim of a full cache is the least recently touched key |
| `LruK.OneCallbackPerStay` | internal/app/agent/lru/k.go:226-247 | over every run admissions = callbacks + present stay |
| `AgentCache.ParseUndoesGen` | internal/app/agent/domain_cache.go:61-77 | a joined key parses exactly when no identifier holds '@', and then back |
| `AgentCache.AppPool.constructor` | internal/app/agent/domain_cache.go:34-42 | an empty LRU-2 of the stated capacities, usable exactly when size is at least 1 |
| `AgentCache.AppPool.Query` | internal/app/agent/domain_cache.go:44-50 | refines the specification of Query, lookup and freshness included |
| `AgentCache.AppPool.Set` | internal/app/agent/domain_cache.go:53-59 | refines the specification of Set: evictions leave the pool, an admitted element enters it |
| `AgentCache.AppPool.EvictCallback` | internal/app/agent/domain_cache.go:82-94 | removes the parsed triple and nothing else |
| `AgentCache.PoolSet` | internal/app/agent/domain_cache.go:106-110 | changes exactly one triple of the nested pool |
| `AgentCache.PoolUnset` | internal/app/agent/domain_cache.go:112-122 | removes exactly one triple of the nested pool |
| `AgentCache.CacheFollowsLruK` | internal/app/agent/domain_cache.go:44-59 | admission and recency are those of the LRU-K run over the joined keys |
| `AgentCache.EveryRunAgrees` | internal/app/agent/domain_cache.go:44-122 | over '@'-free histories the pool holds values for exactly the cached triples |
| `AgentCache.EveryRunHoldsLatest` | internal/app/agent/domain_cache.go:44-122 | while a triple's key is cached and no other triple set shares it, the pool holds its latest Set, '@' or not |
| `AgentCache.QueryServesLatestSet` | internal/app/agent/domain_cache.go:199-219 | then a Query hits exactly when the key is cached and the latest Set at most 10 s old, and returns that Set |
| `AgentCache.ServesLatestIff` | internal/app/agent/domain_cache.go:61-94 | for a set of triples, every history serves the latest Set of t if and only if no other of them has its joined key |
| `AgentCache.CollidingTriplesServeStale` | internal/app/agent/domain_cache.go:61-94 | with colliding triples a Query serves an older element than the latest Set |
| `Watch.WatchingKeysCollide` | internal/app/agent/domain_instance.go:73-75 | joined keys collide whenever a separator moves |
| `Watch.NeverSendsOnClosed` | internal/app/agent/domain_instance.go:116-181 | no interleaving sends on a closed channel or closes one twice; buffers stay within 10 |
| `Watch.ChannelsAreFifo` | internal/app/agent/domain_instance.go:116-136 | over every interleaving what was received from a channel and what waits in it is what was accepted into it, in order |
| `Watch.IndexNeverMisses` | internal/app/agent/domain_instance.go:138-181 | a registered instance is listed under every key it asked for since it was last unregistered |
| `Watch.TidyIndexIsExact` | internal/app/agent/domain_instance.go:138-181 | if no later register asks for new keys the index lists exactly those |
| `Watch.UntidyRegisterLeaks` | internal/app/agent/domain_instance.go:143-177 | a later register with a new key leaves the instance listed after unregister |
| `Watch.NeverLeaksIffTidy` | internal/app/agent/domain_instance.go:138-181 | no unregistration after any part of a run leaves the instance listed if and only if no later register asks for a key the first did not |
| `Watch.InstancePool.Register` | internal/app/agent/domain_instance.go:77-85 | registers the joined keys and returns the instance's channel |
| `Watch.InstancePool.RegisterKeys` | internal/app/agent/domain_instance.go:138-159 | refines the register step |
| `Watch.InstancePool.Unregister` | internal/app/agent/domain_instance.go:161-181 | refines the unregister step |
| `Watch.InstancePool.Notify` | internal/app/agent/domain_instance.go:116-136 | a non-blocking send on the instance's open channel |
| `Watch.Allowed` | internal/app/agent/app_grpc.go:116-123 | the allowed map holds exactly the triples the request names |
| `Watch.Stream` | internal/app/agent/app_grpc.go:170-202 | the stream sends exactly the received elements the request names, up to the first failure |
| `Watch.InstancePool.NotifyAll` | internal/app/agent/app_grpc.go:253-255 | offers the element to exactly the given instances, in any order |
| `Watch.InstancePool.Dispatch` | internal/app/agent/app_grpc.go:225-259 | each open channel is offered, in order, every element of the list that is listed for its instance, and with targets only if that is one |
| `Watch.OnlyTargetsReached` | internal/app/agent/app_grpc.go:225-259 | a targeted dispatch leaves every other instance's channel as it was |
| `Watch.DispatchFills` | internal/app/agent/app_grpc.go:225-259 | a dispatched list adds to a channel all its elements that are addressed to the instance, in order, and without room for all of them the first of them until the buffer is full |
| `Watch.DeliveredIffWatched` | internal/app/agent/app_grpc.go:150-191 | whatever the collisions, a dispatched element adds to the stream exactly when the request names its triple and the dispatch addresses the instance |
| `Watch.DispatchDelivers` | internal/app/agent/app_grpc.go:150-259 | for lists: with room, the stream sends in addition exactly the elements of the list that the request names and the dispatch addresses to the instance, in order |
| `Batching.EveryItemInOneBatch` | internal/app/adm/agent_pool.go:360-419 | batches and the pending one are the items taken, in order, in pieces of 1 to 10; waitTimes is the length of the pending batch |
| `Batching.TickDeliversAll` | internal/app/adm/agent_pool.go:403-411 | a tick leaves nothing pending |
| `Batching.BatchLeavesIff` | internal/app/adm/agent_pool.go:393-411 | over every run a batch leaves exactly on a tick with anything pending and on the arrival of the tenth item; one shorter than ten only on a tick |
| `Batching.CloseDropsPending` | internal/app/adm/agent_pool.go:389-392 | what a close loses is exactly the pending batch |
| `Batching.DeliveryLoop.Consume` | internal/app/adm/agent_pool.go:360-419 | the select loop refines the reference loop |
| `Batching.Delivery` | internal/app/adm/agent_pool.go:430-442 | one request per group key, its elements in order, the targets of its first item |
| `Batching.EveryItemIsRequested` | internal/app/adm/agent_pool.go:430-442 | no element of a batch is left out: the request of its key holds it |
| `Batching.EveryRequestHasItem` | internal/app/adm/agent_pool.go:430-442 | and there is no request without an item |
| `Batching.TargetsHaveKey` | internal/app/adm/agent_pool.go:430-442 | a request is addressed to targets with its own group key |
| `Batching.SameKeyIffSameTargets` | internal/app/adm/agent_pool.go:467-475 | for comma-free non-empty ids group keys are equal exactly when target multisets are |
| `Batching.OtherKeysCollide` | internal/app/adm/agent_pool.go:467-475 | ids with commas and empty ids collide |
| `Batching.StablePartition` | internal/app/adm/agent_pool.go:430-442 | each group is exactly the elements addressed to that multiset, in arrival order |
| `InstanceIndex.AliveIsVisible` | internal/coord/coordinator_ins_hybrid.go:205-226 | a record written with TTL 120 is visible exactly for 120 seconds |
| `InstanceIndex.WatchNameInjective` | internal/concept/key_generator.go:124-132 | for '@'-free identifiers a reverse name stands for one triple |
| `InstanceIndex.InstanceHybrid.SetInstanceInfo` | internal/coord/coordinator_ins_hybrid.go:184-243 | forward record first, then every reverse record; succeeds exactly when all writes do |
| `InstanceIndex.InstanceHybrid.UnregisterInstance` | internal/coord/coordinator_ins_hybrid.go:261-319 | deletes what the visible forward record lists, nothing without one or when the read fails |
| `InstanceIndex.InstanceHybrid.GetInstancesByElement` | internal/coord/coordinator_ins_hybrid.go:88-143 | the visible forward records of one page of live watchers, with its continuation; fails exactly when a read it needs fails |
| `InstanceIndex.ReturnedIff` | internal/coord/coordinator_ins_hybrid.go:88-143 | returned only with both records alive, and always then with at most 100 live watchers |
| `InstanceIndex.ReturnedOnce` | internal/coord/coordinator_ins_hybrid.go:88-143 | nobody is returned twice: the ids come in byte order |
| `InstanceIndex.NamesMeaning` | internal/coord/coordinator_ins_hybrid.go:205-226 | the reverse names of an instance are exactly those of the keys it watches |
| `InstanceIndex.WrittenMeans` | internal/coord/coordinator_ins_hybrid.go:184-243 | record by record, what a write leaves: the instance, and on each of its own reverse records the time of the last call that took effect |
| `InstanceIndex.UnregisteredMeans` | internal/coord/coordinator_ins_hybrid.go:261-319 | record by record, what an unregistration leaves |
| `InstanceIndex.WrittenIsFound` | internal/coord/coordinator_ins_hybrid.go:88-243 | a successful write makes the instance found under each key it watches, with at most 100 live watchers there |
| `InstanceIndex.UnregisteredIsGone` | internal/coord/coordinator_ins_hybrid.go:88-319 | a successful unregistration leaves it found nowhere and removes its reverse records |
| `IndexRuns.RunFollows` | internal/coord/coordinator_ins_hybrid.go:184-319 | over every interleaving of writes, unregistrations, failures and removals of expired records each key holds what the last call applied to it left |
| `IndexRuns.IndexIsSound` | internal/coord/coordinator_ins_hybrid.go:88-143 | whoever is returned is registered as its last write left it and was written with that watch, both within 120 s and not removed since |
| `IndexRuns.ReturnedIffStanding` | internal/coord/coordinator_ins_hybrid.go:88-143 | with at most 100 live watchers, returned if and only if on both keys the last event is a write less than 120 s old |
| `IndexRuns.IndexIsComplete` | internal/coord/coordinator_ins_hybrid.go:184-243 | an instance with both records written within 120 s is returned if and only if neither key was removed after its last write |
| `IndexRuns.SafeStaysReturned` | internal/app/kv/raftimpl/raft_impl.go:454-469 | a live record is never spotted as expired: with no removal on its way the instance stays returned until it expires or is unregistered |
| `IndexRuns.ExpiredIsReaped` | internal/app/kv/raftimpl/raft_impl.go:454-469 | whatever is expired can be spotted and removed |
| `IndexRuns.LateReapHidesInstance` | internal/app/kv/raftimpl/raft_impl.go:479-503 | the failing run: a removal proposed for the expired record is applied after a fully successful renewal |
| `IndexRuns.GoneUntilWritten` | internal/coord/coordinator_ins_hybrid.go:261-319 | once an unregistration removed the forward record, or found none visible, the instance is not returned until it is written again |
| `IndexRuns.UnregisterRemoves` | internal/coord/coordinator_ins_hybrid.go:287-294 | the first call of an unregistration removes the forward record |
| `IndexRuns.WriteAlone` | internal/coord/coordinator_ins_hybrid.go:184-243 | a write without interruption is what the method computes |
| `IndexRuns.UnregisterAlone` | internal/coord/coordinator_ins_hybrid.go:261-319 | so is an unregistration |

## Left out

- Raft itself, the WAL, the snapshotter and the transport: a committed log with contiguous indices is assumed.
- bbolt's page handling and its limits on key and value sizes; a transaction is one atomic update.
- File-level snapshot recovery: it replaces the tree.
- Installed snapshots are the fold of the log up to their index; that the peer which sent one may itself have taken it racily is not modelled.
- Protobuf and JSON encoding beyond "decodes or does not", and md5 beyond injectivity.
- `EntityExpired` overwriting its argument: the overwritten record is a returned value.
- Key segments "." and "..", which path.Join would resolve.
- Truncation of page limits and counters to int32.
- GetKVs batching, convert.go and the assembly of whole elements from search hits: easy lookups.
- CreateApp, DeleteApp and the environment operations: single writes of the same kind.
- ACL, tokens and authentication; in a watch stream authorization is an outcome parameter.
- The KV watcher's removal of slow observers: it depends on wall-clock timeouts.
- The KV client, the lock built on it, the SDK, peer slot bookkeeping, HTTP handlers and the web interface.
- The mutexes of the LRU-K and of the nested pool: histories of the cache are sequential.
- Aliasing between the LRU's list elements and its index maps: both hold the element's content, and each method updates both.
- A nil element passed to Notify, which the source ignores.
- Replication.StoreFollowsLog: is for arbitrary logs and stated for runs without a racy trigger; for logs of schema commands the exact condition is Recovery.AlwaysRecoversIff.
- Watch.InstancePool.Dispatch: its exact result is for a dispatch with no other operation in between; safety under every interleaving is Watch.NeverSendsOnClosed.
- BoltRepo.Repository.Range: does not model records that fail to decode.
- A KV call of an instance write or unregistration takes effect, if at all, before it returns; one that is applied after its caller gave up is not modelled.
