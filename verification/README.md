# A verified model of the peer-to-peer chunk distribution system

Nodes keep content-addressed chunks on a consistent hash ring, three copies of each. This project models
how the system places chunks, notices failures, and repairs the copies that failures cost, and proves
what a client and an operator rely on. `dafny verify dfyconfig.toml` checks all of it.

The files build on one another:

| file | what it is about |
|---|---|
| `Lists.dfy`, `Sorting.dfy` | ordered lists: prefixes, deletion, insertion, counting; sorting and binary search |
| `Preference.dfy` | the reference definition of "the n nearest nodes", with its theory of joins and leaves |
| `VirtualKeys.dfy`, `RingStates.dfy`, `HashRing.dfy` | the ring: its states under any history of changes, and the class with its array, map and search |
| `Placement.dfy` | what callers rely on: targets under joins, leaves and churn |
| `Membership.dfy`, `NodeProcess.dfy` | the failure detector; one node's detector and ring over whole runs |
| `Chunks.dfy`, `Storage.dfy` | splitting and reassembly; memory and file stores |
| `WorkerPool.dfy`, `Replication.dfy`, `Recovery.dfy`, `Api.dfy` | queue and workers as a state machine; the engine, the repair pass and the handlers as classes |
| `Cluster.dfy`, `Progress.dfy` | all nodes together as a transition system: integrity, self-healing, and its completion |
| `Uploads.dfy`, `Shortfalls.dfy` | uploads accepted anywhere: when the copies arrive, exactly when one is missing, and runs in which it is |
| `Simulation.dfy` | the engine, the repair pass and the upload handler as behaviours of the transition system |
| `EndToEnd.dfy` | what a download returns |
| `WholeSystem.dfy` | the nodes with their processes in one system: the way from a silent peer to full replication |
| `Rebalance.dfy` | the benchmark's counts: which keys move when a node joins or leaves |

The main results:

- **Lookup is what it should be.** `GetN` (array, binary search, wrap-around, early exits) returns the first n
  of all nodes ordered by clockwise distance. The order is defined without array or search, and every
  placement theorem is about it: a leave deletes one entry, a join inserts one, k changes cost at most k targets.
- **Self-healing.** If the nodes responsible for a chunk hold it, apart from a set that is being lost, then
  once one surviving holder has taken that set off its ring and has settled, all nodes then responsible hold
  it (`SelfHealing`). The holder never stops being responsible (`HolderStaysTarget`, `DeathBringsCare`), there
  is such a holder when fewer than three nodes are lost (`SomeHolderSurvives`), and it can always settle
  (`NeverStuck`, `OwnWorkDecreases`, `HealingCompletes`). One death handled by one responsible holder restores all
  copies, however many were missing before (`OneDeathHeals`). In the system in which the rings change only by
  the callbacks that the detectors fire, silence for the dead timeout and a gap brings that about (`SilenceHeals`).
- **Uploads.** A job, wherever it was accepted, reaches every other node responsible when it is taken, whatever
  happens to the ring meanwhile; if the ring stays, the copies are complete exactly when the accepting node is not
  responsible or has the chunk (`TakenJobConverges`, `QueuedJobConverges`, `UploadCompletes`). A death in the middle of
  it can leave a copy missing for good: `DeathInFlightIff` says exactly when, `PushedBeforeDeath` and
  `MovedUpUnstored` give the runs. A restart of the accepting node can lose an answered upload altogether
  (`RestartForgetsUpload`).
- **Integrity and availability.** Whatever happens, a download gives bytes a client uploaded under that name,
  or a beginning of them (`DownloadAfterRun`); and all of them, with no repair at all, while ring changes and
  missing owners since full replication number fewer than three (`DownloadSurvivesFailures`).
- **Detector and ring agree** over every run of a node, and the detector, updated ping by ping, is a function
  of the history (`RingFollowsDetector`, `DetectorIsVerdict`).
- **The benchmark's figures are exact counts**: a leave moves the keys of the leaver and no others; modulo
  placement keeps exactly N of any N(N+1) consecutive hashes.

## Premises

- *Virtual keys do not collide.* SHA-1 cut to 64 bits is an arbitrary function. Where it matters, a lemma
  asks for `CollisionFree` on the nodes concerned. Without it adding and removing a node need not restore the ring:
  `AddRemoveRestoresIff` says exactly when it does, and `CollisionLosesOwners` gives a hash function under which
  the node that stays is left without an entry in the owner map. Lookups then answer the empty ID (`LostOwnersAnswer`);
  `AnswersAreNodesIff` says on which rings every answer is a node of the ring. A row below that speaks of the nodes
  responsible, the owners or the targets means the nodes that `GetN` answers on a ring without collisions.
- *No answer is a second preimage* (`Genuine`): SHA-256 is an arbitrary function; a statement that bytes are the
  uploaded ones asks that the sources at hand do not answer with other bytes that have the address of a piece of
  this very blob. The round trip asks that the pieces of the blob have different addresses (`ToldApart`).
- *The clock is monotone* (`Monotone`, `InClockOrder`).
- *Callbacks about one peer arrive in the order they were fired.* The code starts each in a goroutine of its
  own and promises no order. `DeliveryOrderIff` says exactly when another order leaves the ring right, and
  `OvertakenCallbackLosesPeer` is an instance in which a live peer is lost.
- Nothing calls `MarkAliveManually`.

## Where code and documentation differ

The model follows the code.

- README.md line 43 and internal/replication/replication.go line 69 let an upload return once the chunk is
  on the accepting node. The handler stores only chunks that node is responsible for; the others are only in
  its queue (`KeptIff`, and `AcceptedNotKept` for any chunk on more than three nodes).
- internal/api/server.go line 98 says that every node that touches a chunk during an upload makes sure that the full
  set of copies converges. That holds while no responsible node dies. If one does, the node that moves up may stay
  without a copy although everybody has settled (`PushedBeforeDeath`); it gets one exactly when it had it before,
  or another owner looks through its store for repair after the chunk arrived there (`DeathInFlightIff`).
- internal/replication/replication.go line 69 calls the chunk durable when the upload returns. On a node that is not responsible
  for it the chunk is in the queue only, in memory, until a worker has taken it: a restart loses it (`RestartForgetsUpload`).
- internal/replication/replication.go line 144 skips the node itself because the chunk is already stored there. A node that
  becomes responsible between looking and pushing has not stored it, and nobody makes up for it (`MovedUpUnstored`).
- internal/cluster/membership.go line 95 promises `OnNodeAlive` for dead or suspect peers. It fires only
  after dead (`AliveFiredIff`; `SuspectReturnsSilently` is a peer that comes back from suspect without a callback).
- internal/storage/storage.go line 147 says that recovery rebuilds a replacement's store with `Copy`. Nothing calls
  it: after a node returns, a chunk is on all its owners exactly when that node is not one of them or has it
  (`ReturnKeepsReplicationIff`; `ReturnFallsShort` is an instance of the failure).
- `Stop` is documented to drain the jobs in flight. It drains the queue too, except that with no worker started it
  returns at once and leaves it as it is (`StopIsComplete`, `NoWorkersLeaveJobs`). Processed is not delivered:
  cmd/node/main.go line 120 cancels the context before it calls `Stop`, so the jobs drained at shutdown are pushed
  under a cancelled context: one attempt each, and none after the first wait (`CancelledGivesUp`).
- benchmarks/rebalance/main.go line 157 gives (N-1)/N as the share that moves under modulo placement; for a join of
  N nodes by one the code prints N/(N+1), which is the exact value (`MovedShare`). With `-nodes 1` its leave
  scenario divides by zero, hence the precondition of `RunScenario`.

## Model

| member | source | states |
|---|---|---|
| VirtualKeys.VirtualKeyInjective | internal/hashring/hashring.go:53 | The text `node#i` determines the node and the index, whatever characters the node ID contains. |
| VirtualKeys.KeyReadBack | internal/hashring/hashring.go:53 | The text of index i is the node, a '#', and digits only, without a leading zero unless it is "0", that read as i. |
| VirtualKeys.KeyTextUnique | internal/hashring/hashring.go:53 | There is no other text of that shape. |
| VirtualKeys.ValueReads | internal/hashring/hashring.go:53 | Reading is decimal, digit by digit. |
| RingStates.PlacedTexts | internal/hashring/hashring.go:52-57 | The 150 texts of a node, index 0 to 149, and how often their hashes fall on each position. |
| RingStates.PlacedIff | internal/hashring/hashring.go:52-57 | A position belongs to a node if and only if it is the hash of the node, a '#' and a decimal number below 150. |
| RingStates.DistanceMeans | internal/hashring/hashring.go:115-123 | The distance that orders the nodes is the least way clockwise, modulo 2^64, from the key's hash to the hash of one of the node's texts. |
| RingStates.CollisionFreeMeans | internal/hashring/hashring.go:52-57 | The premise on the hash says that all positions of the nodes concerned differ. |
| Sorting.Search | internal/hashring/hashring.go:116-118 | Binary search finds the border between the positions below the key's hash and the others. |
| Sorting.SortedUnique | internal/hashring/hashring.go:58 | Only one sorted list has given contents, so any sorting algorithm yields the same ring. |
| HashRing.Ring.constructor | internal/hashring/hashring.go:28-33 | A new ring is the well-formed empty ring. |
| HashRing.Ring.AddNode | internal/hashring/hashring.go:45-59 | Nothing if the node is present. Else the node is added; a position occurs as often as before plus once for each i in 0..149 whose text (node, '#', i in decimal) hashes to it; exactly these positions now belong to the node; the array stays sorted. |
| HashRing.Ring.RemoveNode | internal/hashring/hashring.go:63-79 | Nothing if the node is absent. Else one pass drops the positions whose owner is the node at that moment: of equal positions only the first, all of them for the empty ID; their owner entries go, and no others. |
| HashRing.Ring.Get | internal/hashring/hashring.go:95-101 | The nearest node clockwise, and "none" exactly on a ring without nodes; with collisions, the owner recorded for the first position found, and "none" exactly when there are no positions or no nodes. |
| HashRing.Ring.GetN | internal/hashring/hashring.go:108-131 | Search, wrap-around walk and early exits return exactly the n nearest distinct nodes in the order of `DistanceMeans`, nearest first; with collisions, the distinct owners recorded for the positions from the search index on, until one of the three stop reasons. |
| HashRing.Ring.WalkFrom | internal/hashring/hashring.go:120-130 | The loop returns the distinct owners of a beginning of the turned array, and stops only for one of its three reasons. |
| HashRing.TurnVisits | internal/hashring/hashring.go:116-128 | Read from the search index on, the array meets every node, and none before all nearer ones. |
| HashRing.AnswersAreNodesIff | internal/hashring/hashring.go:108-131 | On any ring with nodes: every lookup from every point answers nodes of the ring only, if and only if every position has an owner that is on the ring. |
| HashRing.LostOwnersAnswer | internal/hashring/hashring.go:124 | On a ring that has lost its owners, as after `CollisionLosesOwners`, every lookup answers the empty ID. |
| Preference.StoppedWalk | internal/hashring/hashring.go:122-130 | A walk in that order, stopped early, has found exactly the first n of the reference order. |
| RingStates.AddedWellFormed | internal/hashring/hashring.go:45-59 | Adding keeps the ring an exact, strictly sorted image of its node set. |
| RingStates.RemovedWellFormed | internal/hashring/hashring.go:63-79 | So does removing, with no premise on the hash beyond the ring it starts from. |
| RingStates.ReplayedWellFormed | internal/hashring/hashring.go:45-79 | So does any interleaving of both. |
| RingStates.ReplayedNodes | internal/hashring/hashring.go:45-79 | After any history a node is on the ring if and only if it was there and never removed, or it was added and not removed later. |
| RingStates.HistoryIndependent | internal/hashring/hashring.go:20-25 | Two well-formed rings with the same nodes are equal in array and map. |
| RingStates.SameNodesSameRing | internal/hashring/hashring.go:45-79 | Two histories ending with the same nodes end with the same ring, hence the same answers. |
| RingStates.StripCounts | internal/hashring/hashring.go:70-78 | How often a position survives a removal, collisions included. |
| RingStates.StripMeans | internal/hashring/hashring.go:70-78 | What one removal leaves of array and map, position by position. |
| RingStates.AddRemoveRestoresIff | internal/hashring/hashring.go:45-79 | Adding a node and removing it restores the ring if and only if its positions were free and distinct. |
| RingStates.CollisionLosesOwners | internal/hashring/hashring.go:71-77 | Under a constant hash, adding and removing a second node leaves the first without an owner entry while positions remain. |
| Placement.TargetsExact | internal/hashring/hashring.go:103-107 | Exactly min(n, nodes) targets, no duplicates, only nodes of the ring, all of them if n allows. |
| Placement.TargetsNested | internal/hashring/hashring.go:103-107 | Asking for fewer targets gives a beginning of the longer answer. |
| Placement.TargetIff | internal/hashring/hashring.go:103-107 | A node is a target if and only if it is on the ring and fewer than n nodes are closer to the key. |
| Placement.TargetsInOrder | internal/hashring/hashring.go:103-107 | The targets stand by strictly increasing distance. |
| Placement.LeaveExact | internal/hashring/hashring.go:63-79 | After a leave: the first n of the old n+1 with the leaver deleted; survivors keep their order and at most one node moves up behind them. |
| Placement.JoinExact | internal/hashring/hashring.go:45-59 | After a join: with p nodes strictly closer to the key than the newcomer, the old list if p is n or more, else the old list with the newcomer inserted at position p, cut back to n. |
| Placement.JoinPrimary | internal/hashring/hashring.go:45-59 | The primary owner changes on a join only to become the newcomer. |
| Placement.TargetStays | internal/hashring/hashring.go:63-79 | Removing any set of other nodes never takes a key away from a surviving target. |
| Placement.ChurnBound | internal/hashring/hashring.go:45-131 | Over any history the targets lost number at most the additions of an absent node and removals of a present one in it. |
| Placement.ChangesAre | internal/hashring/hashring.go:48-67 | The changes counted in the results below are exactly these additions and removals. |
| Placement.FewChangesKeepACopy | internal/recovery/recovery.go:60-73 | With three or more nodes and fewer than three changes, some node is a target before and after. |
| Membership.Membership.constructor | internal/cluster/membership.go:63-72 | An empty table that does not contain the node itself. |
| Membership.Membership.AddPeer | internal/cluster/membership.go:75-85 | Registers a new peer as alive now; ignores the node itself and known peers. |
| Membership.Membership.PingPeer | internal/cluster/membership.go:172-217 | The address stays; contact time and state after a success and after a failure at each silence, and the callback fired; every other record is untouched, and a peer that is gone is left alone. |
| Membership.Membership.HeartbeatRound | internal/cluster/membership.go:153-170 | Each known peer is pinged once and keeps its address; its new record and the callbacks launched about it depend on its own ping alone, whatever the order. |
| Membership.Membership.AddrFor | cmd/node/main.go:129-136 | Finds the address of exactly the known peers, alive or not. |
| Membership.AddressKept | internal/cluster/membership.go:193-205 | No history of pings changes the address of a peer. |
| Membership.DetectorIsVerdict | internal/cluster/membership.go:193-205 | The incremental state equals the classification of the silence since the last success, read off the whole history. |
| Membership.OnlyWorse | internal/cluster/membership.go:197-205 | Between successes the state only moves alive, suspect, dead. |
| Membership.CallbacksAlternate | internal/cluster/membership.go:207-216 | The dead and alive callbacks fired about a peer alternate, dead first, and the peer is dead exactly after an odd number. |
| Membership.AliveFiredIff | internal/cluster/membership.go:212-216 | A successful ping fires a callback if and only if the peer was dead by the verdict on its history, and then it is "alive". |
| Membership.SuspectReturnsSilently | internal/cluster/membership.go:95-102 | For all timeouts, a peer that was suspect and answers again causes no callback. |
| Membership.DeadOnlyAfterTimeout | internal/cluster/membership.go:198-201 | A dead peer has been silent for at least the dead timeout. |
| Membership.DeadWithinBound | internal/cluster/membership.go:148-205 | With gaps of at most g, the first ping past the timeout finds the peer dead, before timeout + g (at most at it, when it is the first ping). |
| NodeProcess.StartUp | cmd/node/main.go:47-80 | Ring: the node and every well-formed peer entry; table: the same without the node, with the addresses configured, all alive; coupled, and the ring well-formed unless virtual keys collide. |
| NodeProcess.Register | cmd/node/main.go:67-80 | One entry: blank and malformed ones are skipped, what stands before the first '=' is the ID and what stands after it the address; known peers keep theirs. |
| NodeProcess.EnteredIds | cmd/node/main.go:67-80 | The peers registered are exactly the IDs configured, without the node's own. |
| NodeProcess.ConfiguredIff | cmd/node/main.go:67-80 | An ID is configured if and only if some entry begins with it and a '=', and it contains none itself. |
| NodeProcess.FirstEntryWins | cmd/node/main.go:72-79 | An ID configured more than once has the address of its first entry, whatever characters the address contains. |
| NodeProcess.RanCoupled | cmd/node/main.go:86-91 | Over every run the pending callbacks of each peer alternate and lead the ring to the detector's state; the peer set never changes. |
| NodeProcess.RanWellFormed | internal/recovery/recovery.go:60-73 | Over every run the ring stays an exact image of its nodes. |
| NodeProcess.RingFollowsDetector | cmd/node/main.go:86-91 | Handling what is pending leaves a peer on the ring if and only if it is not dead; the node itself is never removed, and nothing unknown is on the ring. |
| NodeProcess.SettledRing | cmd/node/main.go:86-91 | With nothing pending, the ring is the node and the peers that are not dead. |
| NodeProcess.DeliveryChangesRing | internal/cluster/membership.go:207-216 | Each callback handled really takes its peer off the ring or puts it back. |
| NodeProcess.DeliveryOrderIff | internal/cluster/membership.go:207-216 | If goroutines handle callbacks out of order, the ring ends right if and only if the last one handled is of the kind fired last. |
| NodeProcess.OvertakenCallbackLosesPeer | internal/cluster/membership.go:207-216 | An instance of the failure: dead and alive again, handled in reverse, leaves a live peer off the ring. |
| NodeProcess.RanPeer | internal/cluster/membership.go:172-217 | In any run of the node, the record of a peer is what the detector makes of the pings of that peer, starting from its record. |
| NodeProcess.AddressesKept | internal/cluster/membership.go:193-196 | In any run every peer keeps the address it was started with. |
| NodeProcess.ConfiguredAddress | cmd/node/main.go:67-80 | After any run the address of a peer is what stands behind the first '=' of the first entry for it. |
| NodeProcess.SilentPeerLeavesRing | internal/cluster/membership.go:197-210 | A peer silent for the dead timeout and a gap is held dead and off the ring once its callbacks are handled; if it is still on, its dead callback is the next. |
| NodeProcess.SmallRingStoresLocally | internal/api/server.go:82-97 | With at most three ring nodes, over every run, the node is a target of every chunk; without collisions that is what `GetN` answers, so every chunk uploaded here is stored here. |
| NodeProcess.TargetsHaveAddresses | internal/replication/replication.go:146-150 | Over every run, every target but the node itself is a known peer; without collisions the targets are what `GetN` answers, so `AddrFor` never misses. |
| Chunks.Reader.ReadFull | pkg/chunk/chunk.go:42 | `io.ReadFull`: a full buffer, or what was left and the reason. |
| Chunks.Split | pkg/chunk/chunk.go:33-74 | A failing stream gives nothing. A normal one gives the manifest with the blob ID, the length of the stream (the sum of the chunk lengths), the size requested or 4 MiB, and the address of each chunk's bytes; chunk i holds the bytes of the stream from i times that size on, all but the last are full and none is empty. |
| Chunks.ReadChunks | pkg/chunk/chunk.go:41-60 | The reading loop cuts the stream into exactly these pieces. |
| Chunks.PiecesExact | pkg/chunk/chunk.go:31-60 | The pieces concatenate to the input; all but the last are full, the last is not empty, and there are ceil(size / piece size). |
| Chunks.Reassemble | pkg/chunk/chunk.go:91-105 | Writes the leading chunks that are found and have their address, as far as the writer takes them; success exactly when all are and fit. |
| Chunks.FetchedIsPrefix | pkg/chunk/chunk.go:84-105 | Unless a source answers with other bytes under the address of a piece of the blob, the output is a beginning of the original, and all of it when every chunk verifies. |
| Chunks.StoredVerifies | pkg/chunk/chunk.go:76-88 | In a store keyed by address, chunks that share an entry all verify. |
| Chunks.StoredIsOneOf | pkg/chunk/chunk.go:76-79 | After all chunks are stored, the entry of each holds the bytes of a chunk with the same address. |
| Chunks.SplitReassembleRoundTrip | pkg/chunk/chunk.go:33-105 | Split, store, reassemble gives the blob back, for every size and every blob whose different pieces have different addresses, whatever was stored before. |
| Storage.Memory.Put | internal/storage/storage.go:114-119 | Sets one entry. |
| Storage.Memory.Get | internal/storage/storage.go:121-127 | Answers exactly the stored entries. |
| Storage.Memory.List | internal/storage/storage.go:139-145 | Every stored ID once. |
| Storage.HexPath | internal/storage/storage.go:44-49 | A chunk's file is root/first two characters/ID (root/_short/ID for a shorter one); the base name of its path is its ID, and only its temporary file ends in `.tmp`. |
| Storage.PathsDistinct | internal/storage/storage.go:44-60 | Paths are injective, and no chunk's file is another's temporary file. |
| Storage.LocalFS.WriteTmp | internal/storage/storage.go:56-59 | A crash anywhere before the rename leaves every Get and List at its previous answer. |
| Storage.LocalFS.Put | internal/storage/storage.go:51-61 | The file store behaves as a map with one entry set. |
| Storage.LocalFS.Rename | internal/storage/storage.go:60 | The step that makes the temporary bytes visible, and changes nothing else. |
| Storage.LocalFS.Get | internal/storage/storage.go:63-69 | Finds exactly the chunks of the map the files stand for; any other name finds nothing, except the name of a leftover temporary file. |
| Storage.LocalFS.Has | internal/storage/storage.go:71-74 | Membership in that map, with the same exception. |
| Storage.LocalFS.Delete | internal/storage/storage.go:76-82 | Removes one entry; a name that is none is no error. |
| Storage.LocalFS.List | internal/storage/storage.go:84-103 | Every stored ID once, whatever temporary files are left over. |
| Storage.Copy | internal/storage/storage.go:149-164 | Between stores of either kind, or a store and itself: the destination becomes itself overridden by the source. |
| WorkerPool.JobsConserved | internal/replication/replication.go:99-138 | For any number of workers and any schedule: accepted = queued + in flight + finished, job by job; taken in order; never more than 1024 queued. |
| WorkerPool.StopIsComplete | internal/replication/replication.go:114-118 | Once Stop has returned, every accepted job was processed exactly once if and only if there was a worker or no job. |
| WorkerPool.NoWorkersLeaveJobs | internal/replication/replication.go:114-118 | An instance of the failure: with no worker, Stop returns and a job stays queued. |
| WorkerPool.StartedPoolDrains | internal/replication/replication.go:90-118 | A started engine, with the workers asked for or else four, has processed every accepted job exactly once when Stop returns. |
| WorkerPool.StopNeverStuck | internal/replication/replication.go:133-138 | Until all workers have left, one of them can always go on. |
| WorkerPool.StopTerminates | internal/replication/replication.go:114-118 | Each such step brings the end nearer, so Stop returns under every schedule. |
| Replication.Engine.constructor | internal/replication/replication.go:89-104 | Five retries, 200 ms base, an empty queue. |
| Replication.Engine.PushWithRetry | internal/replication/replication.go:155-172 | Attempts, delivery, and the waiting time retryBase * (2^(attempts-1) - 1), with cancellation during a wait. |
| Replication.FirstWaits | internal/replication/replication.go:157-163 | That is 0, 1, 3, 7, 15 and 31 times retryBase after one to six attempts. |
| Replication.RetryArithmetic | internal/replication/replication.go:157-170 | With f failing attempts first: delivered if and only if f <= maxRetries, after min(f, maxRetries) + 1 attempts. |
| Replication.CancelledGivesUp | internal/replication/replication.go:157-170 | Under a cancelled context there is exactly one attempt, and it decides. |
| Replication.Engine.Replicate | internal/replication/replication.go:140-153 | Each of the three targets on the ring as it is now that is another node, known (whatever its state), not sharing its address with another target, and answers within maxRetries failures gets the job exactly once at its address; nothing else is delivered; at most 3 * (maxRetries + 1) calls. |
| Replication.Engine.PushTo | internal/replication/replication.go:143-151 | Delivers exactly when the node is another one, known, and answers within maxRetries failures. |
| Replication.DeliveredExactlyOnce | internal/replication/replication.go:140-153 | A known target with an address of its own gets the job exactly once if it is another node and answers within maxRetries failures, and not at all otherwise. |
| Replication.DeliveredOnlyTo | internal/replication/replication.go:142-152 | Whatever is delivered is the job itself, to the address of such a target. |
| Replication.Engine.ProcessNext | internal/replication/replication.go:133-138 | The oldest job is taken off the queue and processed. |
| Replication.Engine.Enqueue | internal/replication/replication.go:123-125 | Adds at the end; on a full queue (1024) one job is processed first; nothing is dropped or reordered. |
| Replication.Engine.Drain | internal/replication/replication.go:133-138 | A worker processes all queued jobs in order. |
| Recovery.Manager.constructor | internal/recovery/recovery.go:43-45 | No repair running, none complete. |
| Recovery.Manager.RepairLocalChunks | internal/recovery/recovery.go:79-124 | Queues exactly the chunks held here for which this node is one of the three targets on the present ring, with their bytes, each once; the counters balance. |
| Recovery.Manager.RepairOne | internal/recovery/recovery.go:97-122 | One chunk: skipped if not owned here, else queued. |
| Recovery.Manager.HandleNodeDead | internal/recovery/recovery.go:60-64 | The node leaves the ring first, so the pass queues exactly the chunks held here and owned here on the ring without it. |
| Recovery.Manager.HandleNodeAlive | internal/recovery/recovery.go:70-73 | The node is added to the ring and nothing is queued. |
| Recovery.Manager.Heal | internal/recovery/recovery.go:60-124 | A death handled to the end: each chunk held here for which this node was responsible is delivered to every other node responsible now that is known and answers within maxRetries failures. |
| Recovery.HolderStaysTarget | internal/recovery/recovery.go:99-103 | After another node's death a holder is never in the "no longer an owner" branch. |
| Recovery.Contains | internal/recovery/recovery.go:126-133 | Membership in a list. |
| Api.Server.constructor | internal/api/server.go:36-48 | No manifests. |
| Api.Server.HandleUploadBlob | internal/api/server.go:69-109 | Owned chunks stored, all chunks queued in order behind what was queued, then the manifest recorded with the length of the body and 4 MiB as chunk size; a rejected upload changes nothing, and a failing write stops it after the chunks before, without a manifest. |
| Api.KeptIff | internal/api/server.go:82-97 | An upload leaves a chunk on the accepting node if and only if it was there, or the node is responsible for it, or nobody is. |
| Api.KeptData | internal/api/server.go:82-97 | What it leaves under an ID is the data of a chunk of the upload if one is kept, and what was there before otherwise. |
| Api.JobsAre | internal/api/server.go:98-102 | The jobs are the chunks with their data, one for one and in order. |
| Api.StopsAtMeans | internal/api/server.go:84-97 | A failing write stops an upload at the first chunk that the node is responsible for, or nobody is, and that cannot be written. |
| Api.AcceptedNotKept | internal/api/server.go:82-97 | On any ring of more than three nodes, for any chunk, some node accepts it without keeping it. |
| Api.Server.AddrForNode | internal/api/server.go:170-177 | Finds exactly the known peers that are held alive. |
| Api.Server.FetchChunk | internal/api/server.go:134-168 | A local chunk is answered without asking. Otherwise a target is asked if and only if it is another node, known and held alive, and no such target before it has answered; the first of them that answers decides; if none does, the cold tier. |
| Api.AnswerIff | internal/api/server.go:139-159 | The owners answer if and only if one that is another node, known and held alive has the chunk, and the answer is one of theirs. |
| Api.AskedMeans | internal/api/server.go:139-159 | Who is asked, for any list of targets: each that is another node, known and held alive, up to the first that answers. |
| Api.AnswerMeans | internal/api/server.go:139-159 | Whose answer it is: that of the first such target that answers, or none. |
| Api.Server.HandleDownloadBlob | internal/api/server.go:114-128 | Writes what reassembly from these sources gives, as far as there is room, and is complete exactly when every chunk is found, has its address and fits; not found exactly for unknown blobs. |
| Api.DownloadIsPrefix | internal/api/server.go:114-128 | A download is a beginning of the blob, all of it when every chunk is found intact, unless a source answers with a second preimage of one of its pieces. |
| Api.Server.HandlePutChunk | internal/api/server.go:180-196 | Stores a chunk if and only if its bytes have the address. |
| Api.Server.HandleGetChunk | internal/api/server.go:200-208 | Serves exactly what is stored. |
| Cluster.RunHonest | internal/api/server.go:180-196 | Over every run of the cluster, whatever is stored, queued or pushed anywhere has its address, and manifests describe completed uploads. |
| EndToEnd.IntegrityOverRuns | internal/api/server.go:180-196 | From empty nodes, over every run: the bytes stored, queued or being pushed anywhere have the address they go by, and a manifest has the length and the chunk addresses of the bytes recorded with it. |
| Uploads.TakenJobConverges | internal/replication/replication.go:140-153 | On a ring without collisions: a job taken by any node reaches every other node responsible at that moment, whatever happens to the ring; if the ring is the same at the end, the copies are complete if and only if the node itself is not responsible or has the chunk. |
| Cluster.PassWork | internal/recovery/recovery.go:90-122 | A repair pass covers a chunk until the chunk's own job is in the queue. |
| Cluster.DeathBringsCare | internal/recovery/recovery.go:60-64 | A death handled by a holder leaves it responsible and takes the chunk into its care, whatever copies were missing before. |
| Cluster.StepKeepsCare | internal/recovery/recovery.go:60-124 | Every step of any node keeps the chunk fully replicated or covered by the holder's work. |
| Cluster.RunKeepsCare | internal/recovery/recovery.go:60-124 | So does every run. |
| Cluster.UploadedIsCared | internal/api/server.go:91-102 | A chunk queued by an upload at a node that is responsible for it and has stored it is in that node's care. |
| Cluster.CareIsFulfilled | internal/recovery/recovery.go:47-124 | A chunk in a node's care is on all nodes then responsible as soon as that node has settled, whatever dies meanwhile. |
| Cluster.OneDeathHeals | internal/recovery/recovery.go:60-124 | One death handled by one responsible holder restores full replication, however many copies there were before. |
| Cluster.SelfHealing | internal/recovery/recovery.go:47-124 | Once one surviving holder has taken the lost nodes off its ring and has settled, all min(3, nodes) nodes now responsible hold the chunk, whatever happened meanwhile. |
| Cluster.SomeHolderSurvives | internal/recovery/recovery.go:47-64 | With fewer than three of the nodes lost, a surviving holder is still responsible. |
| Cluster.ReturnKeepsReplicationIff | internal/recovery/recovery.go:66-73 | After a re-admission a chunk is on all its owners if and only if the node that returned is not one of them or has it. |
| Cluster.ReturnFallsShort | internal/recovery/recovery.go:66-73 | An instance of the failure: a node returns, is responsible, and has no copy. |
| Progress.OwnWorkDecreases | internal/replication/replication.go:133-153 | Every step of a node's repair, queue and push work leaves it with less to do. |
| Progress.NeverStuck | internal/recovery/recovery.go:79-124 | A node with work in hand always has such a step. |
| Progress.WorkCompletes | internal/recovery/recovery.go:79-124 | So it can always finish by steps of its own. |
| Progress.HealingCompletes | internal/recovery/recovery.go:47-124 | Hence from any state in which a holder cares for a chunk it can finish, with the chunk on all nodes responsible that are not gone. |
| Uploads.QueuedJobConverges | internal/api/server.go:98-102 | On a ring without collisions, from the queue on, at any node: while its ring stays, every other responsible node gets the chunk, and the copies are complete if and only if the accepting node is not responsible or has it. |
| Uploads.UploadCompletes | internal/api/server.go:98-102 | On a ring without collisions, the accepting node can always bring that about by steps of its own. |
| Uploads.RiserMovesUp | internal/hashring/hashring.go:63-79 | When a target is lost, the targets are the others and the one next in order. |
| Uploads.DeathInFlightIff | internal/api/server.go:98-102 | A responsible node dies while a push is on its way: when all have settled, every node then responsible has the chunk if and only if the node that moved up had it, or another owner looked through its store for repair after it arrived. |
| Shortfalls.PushedBeforeDeath | internal/api/server.go:98-102 | On any ring of more than three nodes: a run from freshly set up nodes in which a blob uploaded at a node that is not responsible reaches the two owners left, and the node that moved up stays without a copy although all have finished. |
| Shortfalls.PushIsDeathInFlight | internal/replication/replication.go:140-153 | In that run, while the job is being pushed, the situation is the one `DeathInFlightIff` decides. |
| Shortfalls.MovedUpUnstored | internal/replication/replication.go:143-145 | The same for an uploader that becomes responsible after it decided not to store the chunk: it is the one without a copy. |
| Shortfalls.RestartForgetsUpload | internal/replication/replication.go:67-70 | A run from freshly set up nodes in which an upload has completed at a node that is not responsible for it, and a restart of that node leaves the cluster as if nothing had been uploaded. |
| Simulation.ProcessNextIsARun | internal/replication/replication.go:133-153 | What a worker does to the oldest job is a run of the cluster: taken, pushed or given up target by target, done. |
| Simulation.StoresFollowDeliveries | internal/replication/replication.go:142-152 | The stores change exactly by what the engine lists as delivered: a peer with an address of its own has received the job if that delivery is listed, and is as it was otherwise. |
| Simulation.RepairPassIsARun | internal/recovery/recovery.go:79-124 | So is a repair pass, including the waiting on a full queue. |
| Simulation.HandlerIsARun | internal/api/server.go:69-109 | So is an upload of any size: store, queue and manifests as the handler leaves them, jobs processed in between to make room. |
| EndToEnd.CompletedWasUploaded | internal/api/server.go:69-109 | Over every run, what is recorded as uploaded was sent by a client under that name. |
| EndToEnd.DownloadAfterRun | internal/api/server.go:69-168 | After any run, whatever the peers answer short of a second preimage of a piece, a download gives a beginning of the last completed upload, all of it if every chunk is found. |
| EndToEnd.CompleteIff | internal/api/server.go:130-168 | A download is complete if and only if each chunk is here, in the cold tier, or at an owner that is another node, known, held alive, and answers. |
| EndToEnd.DownloadSurvivesFailures | internal/api/server.go:130-168 | Let each owner at some time, apart from a set of them, have the chunks and, where it is another node, be known, held alive and answer. While that set and the ring changes since number fewer than three together, the download is complete without any repair. |
| WholeSystem.RingsAgree | internal/recovery/recovery.go:60-73 | In every run of nodes with their processes, the ring of a node is the ring its callbacks have made. |
| WholeSystem.ProcessSide | cmd/node/main.go:86-96 | Seen from one node, such a run is a run of its process. |
| WholeSystem.ClusterSide | cmd/node/main.go:86-96 | Seen from outside, it is a run of the cluster, in which deaths and returns are callbacks handled. |
| WholeSystem.SilenceHeals | internal/recovery/recovery.go:60-124 | A peer silent for the dead timeout and a gap, while a node responsible for a chunk has it: once that node has handled its callbacks about the peer and has settled, the peer is off its ring and the chunk is on all nodes responsible. |
| Rebalance.RunScenario | benchmarks/rebalance/main.go:52-91 | With the keys "chunk-total-i": how many change their hash modulo the two node counts, and how many change their owner between the two rings. |
| Rebalance.NodesUpToAre | benchmarks/rebalance/main.go:71-74 | The ring of the benchmark holds the nodes "node-i" for i below n. |
| Rebalance.LeaveMovesExactly | benchmarks/rebalance/main.go:80-91 | On a leave the keys that change their owner are exactly those of the leaver. |
| Rebalance.JoinMovesExactly | benchmarks/rebalance/main.go:80-91 | On a join the keys that change their owner are exactly those that the newcomer owns. |
| Rebalance.ScenarioMoves | benchmarks/rebalance/main.go:135-145 | The benchmark's two scenarios, with its node names. |
| Rebalance.LeavesMoveEveryKeyOnce | benchmarks/rebalance/main.go:155-159 | Summed over all choices of the leaver, the moves are exactly the keys: on average 1/N of them. |
| Rebalance.BenchmarkAverage | benchmarks/rebalance/main.go:71-74 | On the benchmark's own ring of n nodes, the average over the leavers is exactly the n-th part of the keys. |
| Rebalance.StaysIff | benchmarks/rebalance/main.go:29-33 | A key stays from N to N+1 nodes under modulo if and only if its hash modulo N(N+1) is below N. |
| Rebalance.JoinMovesHighKeys | benchmarks/rebalance/main.go:58-68 | For a join of N nodes by one, the keys that move under modulo are exactly those whose hash modulo N(N+1) is N or more. |
| Rebalance.WindowExact | benchmarks/rebalance/main.go:58-68 | Of any N(N+1) consecutive hashes exactly N stay. |
| Rebalance.MovedShare | benchmarks/rebalance/main.go:155-163 | The moved share of such a window is the 1 - 1/(N+1) that the benchmark prints as expected. |

## Left out

- GetN: when virtual keys collide, which node is nearest is not stated, only what the walk meets.
- DeathInFlightIff: one death, and nothing else that concerns the chunk; with several deaths the sufficient conditions are `OneDeathHeals` and `SelfHealing`.
- SelfHealing: the holder must not admit a node, restart, fail to list or read its store, or give up on a live node meanwhile; the code does not repair after these.
- SelfHealing: each node's ring is its set of nodes, which determines the ring by `HistoryIndependent`; a target without an address is a push given up.
- HealingCompletes: shows that the holder can finish and that every step of its own brings it nearer; it does not claim a fair scheduler.
- RunScenario: the percentages, the modelled transfer times and the printed report, which are arithmetic on the two counters.
- WriteTmp: a failing disk or a half-done rename other than the crash described; write errors appear in the cluster only as an aborted upload.
- SilenceHeals: nodes are not started anew in a run of `WholeSystem`; a restart is a new beginning with `StartUp`.
- LocalFS: `Put` takes lower-case hexadecimal IDs, which is all `ID` produces; reading and deleting also take other names that stay below the root. Paths are not cleaned, and the order of a directory walk is arbitrary.
- PushWithRetry: what a cancelled context does to the call of the transport itself.
- HandleGetChunk: the store of a server is the one in memory; over files it also serves a leftover temporary file under that file's own name, as `LocalFS.Get` says.
- HandleUploadBlob: which write fails is a parameter, since the store here is the one in memory; a failing request body is one that ends in an error.
- StartUp: flags, environment, splitting at commas and trimming of the peer list; entries are taken as already split.
- `PlaceChunk`, `TakeJob` and `RepairChunk` in `Cluster` each look up the ring and act on the answer in one step (store; take the job off the queue; read and queue), where the code may see the ring change in between.
- Loops of some methods are methods of their own here (`WalkFrom`, `ReadChunks`, `PushToAll`, `RepairAll`, `StoreAndQueue`, `CopyOut`), because one contract for all of it is harder to read and to check.
- HTTP, JSON, sockets, tickers, signals, logging and status strings; `Nodes`, `Status`, `QueueDepth`, `TargetsFor`, `AlivePeers`.
- The S3 client: nothing writes to the cold tier, so it appears only as a last place to read from.
- Data races on maps without a lock (`Server.manifests`, `Memory.data`): every operation is atomic here.
- 64-bit sizes and durations: sizes and times are unbounded integers. Ring positions are bounded to 64 bits.
- Readers that fail other than at a normal end, beyond yielding no manifest.
- The availability benchmark, containers and scripts.
