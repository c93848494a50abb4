# Verified model of the proof aggregator, the shielded pool and its verifier contracts

This project models the parts of the repository that are hard to get right and proves what they
are for:

- **The distributed proof aggregator** (`nodes/src/aggregator.rs`). `RecursiveAggregator` cuts
  power-of-two batches in half, hands the pieces to sub-aggregators by load, re-keys a forest of
  splits under their ids, merges what comes back and re-queues it. The main results are
  `RunSchedule` (whatever the schedule, the splits, the choice of workers and the order of the
  answers, the proof emitted for a batch is the Merkle root of exactly that batch, once) and
  `AggregateBatches` (in a team of any shape, aggregators within aggregators, with a slow enough
  member in each, the drive loop ends for every batch; `DriveTeam`: in any other it is known after
  a bounded number of steps whether a batch will ever come out). The forest invariant is stated over the
  maps of the source in `AggregationForest`, over the whole state in `AggregationBooks`, and the
  class in `RecursiveAggregator` performs the source's updates on its own fields.
  `AggregationMeasure` counts the work left, `AggregatorTeams` builds the teams, and
  `MerkleAggregator` is the leaf worker.
- **Its transports.** `RemoteAggregator` is the two-channel protocol of `ThreadedAggregator` and
  of the TCP client and server, with the worker's loop cut into the steps between which the
  caller may run; `FramedStream` is the length-prefixed codec over sockets that read and write as
  much as they like. `RunRemotely` and `Link.Run` are their theorems over whole runs, and
  `AggregateRemotely` says that all batches come out as long as the worker gets to run.
- **The flat-array Merkle tree** (`nodes/src/merkle.rs`, `MerklePath::root`): `new`, `complete`,
  `merge`, `root` and `path` against the padded perfect tree, with their offset arithmetic.
- **The shielded pool** (`nodes/src/verifier.rs`) and the commitment scan of the client
  (`nodes/src/client.rs`). `Transactions` has the checks of `submit` and what they amount to for
  resources and logic instances (`SoundIsAcceptable`), `ShieldedPools` the state they guard.
- **Field, polynomial and group algorithms** of the contracts: Tonelli-Shanks (down to Fermat's
  little theorem and the existence of non-residues, proved from the definition of a prime),
  `powSmall`, the sum-check polynomials, the Gemini fold reconstruction, the equality-polynomial
  table, and the bucket multi-scalar multiplication over an arbitrary abelian group.
- **The Merkle reduction in place** of `MerkleVerifier.sol`, against the same `Root` as the
  aggregator's layer loop.

Conventions. Hashing, proving and verifying are arbitrary functions passed in (`combine`, the
verifiers of the pool). A boxed sub-aggregator is modelled by the state its caller can observe
(`AggregatorContract.Aggregator`); the methods of `AggregatorContract` promise no more than the
trait does, so results about their users hold for all implementations, nested ones included. Two
of its fields are nothing a caller could ask for: `left`, how much work is left, and `prompt`,
that every step with pending proofs lowers it. Two more, `steps` and `syncs`, count the calls it
got, so that a caller's contract can say whom it called. Leaf workers are prompt, and so is an aggregator
whose members all are if one of them is slow enough: of a throughput of at least one and below
two. Throughputs are reals. Ids are drawn from counters. Where the source iterates over a map,
the model visits the keys in any order. Thread scheduling and socket behaviour are
nondeterministic. Reverts and rejected inputs are `None` or error values. Ghost fields (`owed`,
`spec`, `roots`, `sent`, `received`, `anchored`, the counts of calls, and for a socket the last
read and write) record what the source does not store.

Where the code and its documentation disagree, the model follows the code:

- The comment in `CommitmentTree::new` calls a capacity of 2n + depth - 1 sufficient. It is so if
  and only if at most half of the low `depth` bits of n - 1 are zero (`CapacitySuffices`, which
  also has the condition for overfull trees); one leaf at depth one is already too many
  (`CapacityIsExceeded`), and 2n + 2 depth - 1 is always enough (`NodeCount`). Only a reallocation
  follows. For an empty tree of depth zero the capacity itself underflows, so `New` requires
  `2 * |leafs| + depth > 0`.
- `CommitmentTree::root` is a root over all leaves if and only if there are at most 2^depth
  (`WidthWithin`, `TopNodeIsRoot`); otherwise it does not even depend on the first 2^depth leaves
  (`TopNodeForgets`).
- `Field.sqrt` is documented for every field element; it reverts for zero
  (`AcceptedExactlyIfRoot`).
- `powSmall` never ends for exponents with the top bit set, except for the largest word, for
  which it returns one (`PowSmallTerminates`, `PowSmall`).
- A refused `ShieldedPool::submit` may leave nullifiers and commitments behind (`RefusalCanTear`).
  It does so exactly if the transaction passes every check and some instance precedes the first
  one that consumes a nullifier of the pool (`LeavesBehind`, `TornIsAtomic`). Commitments left
  behind are what the client cannot rebuild: it agrees with the pool if and only if no refusal
  left any (`Submit`, `ClientAgreesWithPool`); nullifiers left behind do not disturb it.
- `submit` panics for an unsigned transaction or a failing signature verifier and, once the
  signature is accepted, for counts beyond the arrays and (with overflow checks on) for a
  transaction without any tag: outcome `Panicked`.
- A sub-aggregator of throughput t only takes queues of at least 2 * floor(t) proofs (`Accepts`),
  and the drive loops of the users step until a proof comes out. If every aggregator in a team has
  a slow enough member then they end for every batch (`AggregateBatches`); without such a member
  at the top, a batch of two never comes out, whatever is below
  (`TwoNeverComeOut`): one member that is itself a team of two workers is enough for that. Larger
  batches may come out of such a team. A step makes progress exactly until nobody has work and the
  queue is shorter than 2 * floor(t) for every member (`Step`, `StuckHere`), and whether a batch
  comes out is decided after one step more than it has proofs (`Drive`, `DriveTeam`).

## Model

| member | source | states |
|---|---|---|
| `RecursiveAggregators.RunSchedule` | nodes/src/aggregator.rs:185-435 | over any schedule of pushes, steps, syncs, pops and insertions (of sub-aggregators that may hold work of others already), and for all sub-aggregators that keep the trait's promises: the pushes get different ids, every proof emitted is the Merkle root of the batch pushed under its id, no id is emitted twice, and every pushed batch is either emitted or still owed |
| `RecursiveAggregators.RecursiveAggregator.Perform` | nodes/src/aggregator.rs:185-435 | one call of a schedule keeps the log of the run |
| `AggregatorTeams.AggregateWithWorkers` | nodes/src/aggregator.rs:1619-1634 | one batch and one or more leaf workers: the drive loop terminates with the Merkle root of the whole batch |
| `AggregatorTeams.AggregateBatches` | nodes/src/aggregator.rs:1466-1472 | for a team of any shape, workers and teams within teams, with a slow enough member in each: after pushing any batches, stepping until a proof pops ends every time, and each batch comes out once, under its id, as its Merkle root |
| `AggregatorTeams.DriveTeam` | nodes/src/aggregator.rs:1629-1634 | a team of any shape whose members are well staffed, given one batch: after more steps than the batch has proofs it is decided, and if the root has not come out then no number of further steps will help; with a slow enough member it has; with a batch too small for every member it never does |
| `RemoteTeams.AggregateRemotely` | nodes/src/aggregator.rs:603-771 | a worker, or a team of any shape with a slow enough member in each, at the other end of a thread or a socket whose worker gets to run: after pushing any batches, the drive loop ends every time, and each batch comes out once, under its id, as its Merkle root |
| `AggregatorTeams.Build` | nodes/src/aggregator.rs:1652-1661 | a team is to its caller exactly the value that its rate and its staff say, so teams nest; it is prompt if and only if it and all teams in it have a slow enough member |
| `AggregatorTeams.TwoNeverComeOut` | nodes/src/aggregator.rs:263-361 | in a team without a slow enough member, however well its members are staffed, a batch of two does not come out after any number of steps |
| `AggregatorTeams.TwoAreTooFew` | nodes/src/aggregator.rs:266-275 | two proofs are too few for every member exactly if none is slow enough |
| `AggregatorTeams.JoinedDriven` | nodes/src/aggregator.rs:208-222 | the condition for progress is the one on the shape of the team |
| `AggregatorTeams.DeliveredNext` | nodes/src/aggregator.rs:1466-1472 | one more proof popped: the batches not owed any more are those that came out |
| `RecursiveAggregators.RecursiveAggregator.NextProof` | nodes/src/aggregator.rs:1466-1472 | stepping until a proof pops ends while anything is owed, and what pops is the root of an owed batch |
| `RecursiveAggregators.RecursiveAggregator.Drive` | nodes/src/aggregator.rs:1629-1634 | stepping until a proof pops, at most so many times, among prompt members: what pops is the root of an owed batch; if nothing has come out after more steps than there is work left then the aggregator is stuck for good (with a slow enough member: then nothing was owed); a stuck one never pops anything |
| `RecursiveAggregators.RecursiveAggregator.DrivenIsNotStuck` | nodes/src/aggregator.rs:262-435 | with a slow enough member, what is owed can be worked on |
| `RecursiveAggregators.RecursiveAggregator.StuckHere` | nodes/src/aggregator.rs:262-275 | prompt members without work whose proofs were taken accept nothing exactly if the queue is shorter than twice the integral part of each throughput |
| `RecursiveAggregators.RecursiveAggregator.Step` | nodes/src/aggregator.rs:242-435 | `step` keeps the whole forest invariant, takes no finished proof back, changes no owed batch. Everybody synchronises, and the queue is handed out as the trace says: each handout goes to somebody who accepts, in batches that saturate it, the first of them (all of them among prompt members) to the least loaded, until the queue is empty or nobody accepts; then every member, with what it was given, makes exactly one step and one more synchronisation, and all its finished proofs are taken. Among prompt members the work left never grows, and it falls whenever a member has work or accepts the queue; if it cannot (`Stuck`) then it never will. So with a slow enough member the aggregator itself is a prompt member for the aggregator above it |
| `RecursiveAggregators.RecursiveAggregator.DistributeAndProve` | nodes/src/aggregator.rs:243-435 | distribution, then exactly one step of each member, then consolidation; the work left falls whenever a member has work or accepts the queue |
| `RecursiveAggregators.RecursiveAggregator.IdleIsFinished` | nodes/src/aggregator.rs:262-435 | if all members are prompt and nothing is reported as pending then nothing pushed is unfinished: no set of unmerged singletons can be left over |
| `RecursiveAggregators.RecursiveAggregator.PushInternalProofs` | nodes/src/aggregator.rs:185-193 | a push puts the batch at the end of the queue under a fresh id, makes it owed, adds its size to what is pending and to the work left, keeps the invariant and meets the trait's contract |
| `RecursiveAggregators.RecursiveAggregator.PopRecursiveProof` | nodes/src/aggregator.rs:195-197 | pops the oldest finished proof; it is the root of the batch pushed under its id, which is then no longer owed |
| `RecursiveAggregators.RecursiveAggregator.Sync` | nodes/src/aggregator.rs:235-240 | every member is asked to synchronise once, which may finish batches and never takes a proof back; it does nothing else to prompt members, nor to a prompt aggregator |
| `RecursiveAggregators.RecursiveAggregator.InsertSubAggregator` | nodes/src/aggregator.rs:224-229 | any sub-aggregator, whatever it already holds for others, gets a fresh id, keeps the invariant and adds what it has pending and its throughput to the sums |
| `RecursiveAggregators.SubsInsert` | nodes/src/aggregator.rs:208-229 | queue size and throughput of the members are sums: one more member adds its own |
| `RecursiveAggregators.SubsUpdate` | nodes/src/aggregator.rs:208-222 | and when a member changes the sums change by the difference |
| `RecursiveAggregators.RecursiveAggregator.constructor` | nodes/src/aggregator.rs:158-172 | a new aggregator satisfies the invariant and owes nothing |
| `RecursiveAggregators.RecursiveAggregator.ViewIsValid` | nodes/src/aggregator.rs:195-222 | what the aggregator shows its caller satisfies the trait's contract: if anything is unfinished then something is pending, and then there is more work left than there are unfinished batches; so aggregators nest |
| `RecursiveAggregators.ThroughputIsLegal` | nodes/src/aggregator.rs:216-222 | the summed throughput is zero or at least one |
| `RecursiveAggregators.RecursiveAggregator.Distribute` | nodes/src/aggregator.rs:243-361 | everybody synchronises, then work is handed out until the queue is empty or no aggregator accepts; the invariant is kept; the first handout, and every one among prompt members, goes to the least loaded that accepts; among prompt members work only moves, and someone is busy afterwards if someone was or accepted the queue; without a handout nothing moves |
| `RecursiveAggregators.RecursiveAggregator.HandOut` | nodes/src/aggregator.rs:263-361 | one round: the first aggregator in load order that accepts, which in a sorted vector is the least loaded, is given the front of the queue in batches that saturate it, and synchronises; nobody is given anything exactly if nobody accepts |
| `RecursiveAggregators.RecursiveAggregator.GrantAndReload` | nodes/src/aggregator.rs:268-361 | one grant: the counter always equals the queue length, the loads stay accurate, the vector stays sorted unless the new load undercuts the old one, which that of a prompt member cannot, and a prompt member's backlog stays below 4 * throughput + n + nextPow2(n) |
| `RecursiveAggregators.RecursiveAggregator.Grant` | nodes/src/aggregator.rs:275-332 | a grant for n proofs sends between n and n - 1 + nextPow2(n); the batches sent, in order, followed by the rest of the queue are the old queue; each batch sent has nextPow2(n) proofs or is a smaller batch of the queue as it was, and the sub-aggregator holds it under a new id, besides what it held; popping and splitting never fail |
| `RecursiveAggregators.RecursiveAggregator.TakeChunk` | nodes/src/aggregator.rs:278-303 | the chunk has the smaller of nextPow2(n) and the size of the front batch, and is that batch if it is smaller than nextPow2(n); chunk plus queue keep content and order; what is left in the queue are its own batches and halves no smaller than nextPow2(n) |
| `RecursiveAggregators.RecursiveAggregator.Split` | nodes/src/aggregator.rs:284-303 | the halves get fresh ids, are linked to the split batch in both maps, and stand for the same proofs in order |
| `RecursiveAggregators.RecursiveAggregator.Send` | nodes/src/aggregator.rs:304-331 | the batch moves from the queue into flight and its key is renamed throughout the forest; nothing else changes place |
| `RecursiveAggregators.RecursiveAggregator.Rehome` | nodes/src/aggregator.rs:310-331 | after the push the state is exactly the old one with the batch at the sub-aggregator and its key replaced |
| `RecursiveAggregators.RecursiveAggregator.Rename` | nodes/src/aggregator.rs:316-331 | the parent map and the parent's pair, or the alias of a root, refer to the new key afterwards |
| `RecursiveAggregators.RecursiveAggregator.FirstAccepting` | nodes/src/aggregator.rs:266-275 | the first load, in order, that the queue saturates and whose wait is below the limit |
| `RecursiveAggregators.RecursiveAggregator.SyncAll` | nodes/src/aggregator.rs:245-252 | every sub-aggregator synchronises exactly once; prompt ones are otherwise unchanged |
| `RecursiveAggregators.RecursiveAggregator.Prove` | nodes/src/aggregator.rs:362-405 | every sub-aggregator makes exactly one step, synchronises once and is emptied; among prompt members the work left does not grow, and falls if one was busy |
| `RecursiveAggregators.RecursiveAggregator.ProveAndConsolidate` | nodes/src/aggregator.rs:362-435 | every member makes one step and is emptied, and what came out is merged, re-queued and emitted; members that hold nothing change nothing |
| `RecursiveAggregators.RecursiveAggregator.Advance` | nodes/src/aggregator.rs:364-404 | one sub-aggregator makes one step, synchronises once and has all its finished proofs collected and merged; no other changes |
| `RecursiveAggregators.RecursiveAggregator.Collect` | nodes/src/aggregator.rs:369-404 | one finished proof is popped, stored and merged, or none is left |
| `RecursiveAggregators.RecursiveAggregator.Store` | nodes/src/aggregator.rs:370-375 | a popped proof becomes a resolved piece of its own under a key that was in flight |
| `RecursiveAggregators.RecursiveAggregator.MergeUp` | nodes/src/aggregator.rs:376-403 | complete siblings of equal size are merged upwards until no mergeable pair is left; no lookup fails |
| `RecursiveAggregators.RecursiveAggregator.MergeOne` | nodes/src/aggregator.rs:386-399 | the two entries become one under the parent, and the parent's links disappear |
| `RecursiveAggregators.RecursiveAggregator.Consolidate` | nodes/src/aggregator.rs:406-434 | every merged entry is queued again in front of the queue with the proofs of its pieces in order, nothing else is queued, every single piece that is a root is put out under its id, and the other entries stay; so every entry left is a single piece that is not a root; work left and output together do not grow; if all entries were such before then nothing changes |
| `RecursiveAggregators.RecursiveAggregator.ConsolidateOne` | nodes/src/aggregator.rs:408-433 | the three cases of the `retain` closure, each with its exact effect |
| `RecursiveAggregators.RecursiveAggregator.Requeue` | nodes/src/aggregator.rs:410-423 | the proofs of the pieces, in their order, go to the front of the queue as one batch under the number of the piece, and the entry and the pieces are forgotten; nothing else changes |
| `RecursiveAggregators.RecursiveAggregator.Emit` | nodes/src/aggregator.rs:424-429 | the proof of a finished root goes to the end of the output under the id it was pushed with, and its entry, piece and alias are forgotten; nothing else changes |
| `RecursiveAggregators.RecursiveAggregator.Release` | nodes/src/aggregator.rs:424-429 | the state after the alias and the entry of an emitted root were removed |
| `AggregatorRuns.HistoryPop` | nodes/src/aggregator.rs:51-52 | a pop extends a history: the id was not emitted before, and the proof is the root of its batch |
| `RemoteAggregators.RunRemotely` | nodes/src/aggregator.rs:619-755 | the same for an aggregator behind a thread or a socket, over any interleaving of calls, reads and worker steps: every proof emitted is the root of the batch pushed under its id, no id is emitted twice, and every pushed batch is either emitted or still owed |
| `RemoteAggregators.RemoteAggregator.NextProof` | nodes/src/aggregator.rs:698-755 | whatever is in the channels: if the inner aggregator is prompt and its worker gets to run then stepping and synchronising until a proof pops ends while anything is owed, and what pops is the root of an owed batch |
| `RemoteAggregators.RemoteAggregator.RunWorker` | nodes/src/aggregator.rs:616-655 | the worker comes to wait for the next request; after a step all finished proofs were sent back, and there is less work than before, or none |
| `RemoteAggregators.RemoteAggregator.Perform` | nodes/src/aggregator.rs:698-755 | one call, or one step of the worker, keeps the log of the run |
| `RecursiveAggregators.RefusalMeansBusy` | nodes/src/aggregator.rs:266-275 | a non-empty queue that nobody accepts finds the slow enough member of a team busy |
| `AggregationMeasure.IdleIsDone` | nodes/src/aggregator.rs:362-434 | the state-level form of the argument that idle means done |
| `AggregationMeasure.LeavesCount` | nodes/src/aggregator.rs:284-303 | in the forest of splits there are at least as many leaves (queued, in flight or resolved) as batches of the caller's |
| `AggregationMeasure.ParentsCount` | nodes/src/aggregator.rs:291-302 | `proof_parents` has exactly two entries for each entry of `proof_children` |
| `AggregationMeasure.MoreWorkThanBatches` | nodes/src/aggregator.rs:242-435 | while anything is pending there is more work left than there are unfinished batches |
| `RecursiveAggregators.DistributionWork` | nodes/src/aggregator.rs:259-361 | handing out work among prompt members only moves it, and whoever has work keeps it |
| `RecursiveAggregators.DistributedWork` | nodes/src/aggregator.rs:243-361 | the same from the synchronisation on: somebody has work afterwards if somebody had or accepted the queue, and nothing is handed out if nobody accepted it |
| `AggregationForest.SplitTree` | nodes/src/aggregator.rs:289-302 | splitting keeps `proof_parents` and `proof_children` mutually inverse |
| `AggregationForest.RenameTree` | nodes/src/aggregator.rs:318-327 | renaming keeps them mutually inverse |
| `AggregationForest.MergeTree` | nodes/src/aggregator.rs:386-392 | merging keeps them mutually inverse |
| `AggregationForest.HalvesProduce` | nodes/src/aggregator.rs:287 | the halves of a batch are batches whose roots join to its root |
| `AggregationForest.MergeResolved` | nodes/src/aggregator.rs:388-397 | joining the lists of two siblings keeps the lists disjoint, complete and of power-of-two length, with the right root |
| `AggregationForest.ForgetOne` | nodes/src/aggregator.rs:410-423 | dropping an entry with its pieces keeps the remaining lists a partition of the stored proofs |
| `AggregationForest.IdleMeansDone` | nodes/src/aggregator.rs:377-434 | a settled forest without queued or flying batches is empty: take the newest split pair |
| `AggregationBooks.SplitKeeps` | nodes/src/aggregator.rs:279-303 | a split keeps the invariant of the whole state |
| `AggregationBooks.SendKeeps` | nodes/src/aggregator.rs:304-331 | handing over a batch keeps the invariant |
| `AggregationBooks.AdvanceKeeps` | nodes/src/aggregator.rs:366-367 | whatever a sub-aggregator does between calls keeps the invariant |
| `AggregationBooks.CollectKeeps` | nodes/src/aggregator.rs:369-375 | storing a popped proof keeps the invariant; its key is new to the stored proofs |
| `AggregationBooks.MergeKeeps` | nodes/src/aggregator.rs:377-400 | merging keeps the invariant |
| `AggregationBooks.RequeueKeeps` | nodes/src/aggregator.rs:410-423 | re-queueing keeps the invariant; the queued batch has the root its key stands for |
| `AggregationBooks.EmitKeeps` | nodes/src/aggregator.rs:424-429 | emitting keeps the invariant; the proof is the root of the owed batch |
| `AggregationBooks.PushKeeps` | nodes/src/aggregator.rs:185-193 | a push keeps the invariant |
| `AggregationBooks.PopKeeps` | nodes/src/aggregator.rs:195-197 | a pop keeps the invariant |
| `AggregationBooks.InsertKeeps` | nodes/src/aggregator.rs:224-229 | an insertion keeps the invariant, with the batches the new sub-aggregator already holds as pieces of nothing |
| `AggregatorContract.Push` | nodes/src/aggregator.rs:49-50 | the trait's push, in every way an implementation may behave |
| `AggregatorContract.Step` | nodes/src/aggregator.rs:61-62 | the trait's step: any owed batches may finish, with their roots; a prompt aggregator with pending proofs gets nearer to its end |
| `AggregatorContract.Sync` | nodes/src/aggregator.rs:63-64 | the trait's sync |
| `AggregatorContract.Pop` | nodes/src/aggregator.rs:51-52 | the trait's pop |
| `MerkleAggregators.QueueWeighed` | nodes/src/aggregator.rs:503-510 | the number of queued proofs of a worker tells whether it has unfinished batches, and exceeds their number |
| `AggregatorContract.PopKeepsValid` | nodes/src/aggregator.rs:51-52 | after a pop the remaining proofs are still those of the remaining batches |
| `AggregatorContract.OpenFinish` | nodes/src/aggregator.rs:51-52 | a batch stops being unfinished exactly when its proof is ready |
| `AggregatorLoads.SortedLoads` | nodes/src/aggregator.rs:244-254 | a sorted vector with the present load of every sub-aggregator exactly once |
| `AggregatorLoads.BinarySearch` | nodes/src/aggregator.rs:346-349 | the insertion position in a sorted vector; any position in an unsorted one |
| `AggregatorLoads.Reload` | nodes/src/aggregator.rs:342-357 | the vector stays a permutation with the one load replaced, and stays sorted exactly if the new load does not undercut its left neighbour |
| `AggregatorLoads.ReplacedIsSorted` | nodes/src/aggregator.rs:350-357 | the rotation keeps the vector sorted under exactly that condition |
| `AggregatorLoads.ReplacedIsPermutation` | nodes/src/aggregator.rs:350-357 | the rotation keeps every load but the replaced one |
| `AggregatorLoads.ReloadIsAccurate` | nodes/src/aggregator.rs:338-357 | the vector again holds the present load of every sub-aggregator |
| `AggregatorLoads.BacklogStaysBelow` | nodes/src/aggregator.rs:88-92 | an accepting aggregator has fewer than 4 * throughput proofs pending, hence the bound after a grant |
| `AggregatorLoads.FirstIsLeast` | nodes/src/aggregator.rs:263-275 | the first load of a sorted vector that accepts belongs to the least loaded aggregator that does |
| `AggregatorLoads.AcceptsMeans` | nodes/src/aggregator.rs:266-275 | who accepts: with a throughput t of at least one, 2 * floor(t) proofs or more must be queued and fewer than 4 t pending; the grant is for 2 * floor(t) |
| `AggregatorLoads.LessMeans` | nodes/src/aggregator.rs:69-104 | the order of loads: a shorter wait, then a higher throughput, then a lower id; who does nothing is last |
| `AggregatorLoads.HandedOutIfAccepted` | nodes/src/aggregator.rs:262-361 | if the queue was accepted by anybody then something was handed out, and somebody among prompt members has work |
| `AggregatorLoads.LoadNeverFalls` | nodes/src/aggregator.rs:338-357 | an aggregator of constant throughput that was given more does not get ahead of where it was |
| `AggregatorLoads.TwoAreAccepted` | nodes/src/aggregator.rs:266-275 | a batch of two is taken by an idle aggregator if and only if its throughput is below two (and not zero), and by a busy one only if it is |
| `MerkleAggregators.MerkleAggregator.MerkleizeLayers` | nodes/src/aggregator.rs:534-550 | allocating layer after layer computes the Merkle root, for every power-of-two length |
| `MerkleAggregators.MerkleAggregator.Step` | nodes/src/aggregator.rs:530-552 | one queued batch per step, first in first out, and its root is output under its id; pending plus ready falls whenever something was pending, so a worker is prompt (`BarretenbergAggregator::step` has the same form) |
| `MerkleAggregators.MerkleAggregator.PushInternalProofs` | nodes/src/aggregator.rs:483-497 | the batch is queued under a fresh id and counted exactly |
| `MerkleAggregators.MerkleAggregator.PopRecursiveProof` | nodes/src/aggregator.rs:499-501 | pops the oldest root |
| `MerkleAggregators.MerkleAggregator.Sync` | nodes/src/aggregator.rs:528 | synchronising a worker does nothing |
| `MerkleRoot.NextLayerKeepsRoot` | nodes/src/aggregator.rs:535-545 | the root by halving is the root by layers |
| `MerkleRoot.NextPowerOfTwo` | nodes/src/aggregator.rs:283 | the least power of two that is at least n |
| `MerkleRoot.PowersOfTwoAreApart` | nodes/src/aggregator.rs:284-287 | halving a larger power of two never skips a smaller one |
| `MerkleVerifier.VerifyRoot` | contracts/src/MerkleVerifier.sol:12-32 | the reduction in place accepts exactly the root of the leaves, for every power-of-two length |
| `MerkleVerifier.ReduceLayer` | contracts/src/MerkleVerifier.sol:20-27 | overwriting `nodes[i]` never clobbers a node that is still to be read |
| `RemoteAggregators.RemoteAggregator.PushInternalProofs` | nodes/src/aggregator.rs:698-708 | the push is counted at once and its request queued; the contract of the trait is met (the TCP client is the same, lines 1210-1221) |
| `RemoteAggregators.RemoteAggregator.Receive` | nodes/src/aggregator.rs:739-752 | reading one response teaches the caller exactly what it says: a queue size and what was taken in, a throughput, or one more finished proof at the end; it never makes the outer counter negative, so the subtraction does not underflow and the saturating one of lines 1252-1256 never saturates |
| `RemoteAggregators.RemoteAggregator.Sync` | nodes/src/aggregator.rs:737-755 | any interleaving of reading and worker steps keeps the invariant and never takes a proof back; the responses are read in order, each with its exact effect, and none is left unread unless the socket lets no more through; then the worker is asked to synchronise; an idle worker is not disturbed |
| `RemoteAggregators.RemoteAggregator.Step` | nodes/src/aggregator.rs:721-723 | queues the request and nothing else |
| `RemoteAggregators.RemoteAggregator.PopRecursiveProof` | nodes/src/aggregator.rs:725-727 | pops the oldest received proof, whose id is then in no place any more |
| `RemoteAggregators.RemoteAggregator.Work` | nodes/src/aggregator.rs:619-655 | every step of the worker is the one of its loop: wait and forward, send back a finished proof, report throughput, report what was taken in and the queue size; it keeps the protocol invariant and leaves the caller's view as it is |
| `RemoteAggregators.RemoteAggregator.Accept` | nodes/src/aggregator.rs:623-635 | the worker takes the oldest request and forwards it: the inner aggregator is given exactly that batch under an id that the aliases then map to the caller's, makes exactly one step, or synchronises once; or the worker stops |
| `RemoteAggregators.RemoteAggregator.AcceptPush` | nodes/src/aggregator.rs:628-632 | the batch goes to the inner aggregator and its id from the request channel to the aliases |
| `RemoteAggregators.RemoteAggregator.Drain` | nodes/src/aggregator.rs:637-643 | the oldest finished proof is sent back under the caller's id, which is always known (the lookup cannot fail), and its id moves from the aliases to the responses; if there is none the worker goes on to report |
| `RemoteAggregators.RemoteAggregator.Report` | nodes/src/aggregator.rs:644-653 | throughput, then the number of proofs taken in and the inner queue size; nothing else changes |
| `RemoteAggregators.RemoteAggregator.Quiescent` | nodes/src/aggregator.rs:729-735 | when nothing is on its way, the outer counter is zero, queue size and throughput are those of the inner aggregator, and every owed batch is there or ready to be popped |
| `RemoteAggregators.RemoteAggregator.constructor` | nodes/src/aggregator.rs:610-668 | a new connection to an aggregator with nothing in flight satisfies the invariant (for TCP: lines 1310-1318) |
| `RemoteAggregators.PushInOnePlace` | nodes/src/aggregator.rs:698-708 | each owed id is in exactly one of requests, aliases, responses and output: pushing |
| `RemoteAggregators.AcceptInOnePlace` | nodes/src/aggregator.rs:628-632 | ... accepting |
| `RemoteAggregators.ReplyInOnePlace` | nodes/src/aggregator.rs:638-643 | ... replying |
| `RemoteAggregators.ReceiveInOnePlace` | nodes/src/aggregator.rs:748-750 | ... receiving |
| `RemoteAggregators.PopInOnePlace` | nodes/src/aggregator.rs:725-727 | ... popping; a popped id is nowhere else |
| `FramedStream.Link.Run` | nodes/src/aggregator.rs:1011-1110 | under any schedule of sends, flushes, partial deliveries and receives, every object whose encoding fits is sent, in order, the objects received are an in-order prefix of those sent, and all of them once no byte is outstanding |
| `FramedStream.Link.TryRecv` | nodes/src/aggregator.rs:1055-1075 | a receive yields the oldest object not yet received, or would block, and then nothing changes, no complete frame is buffered and the last read of the socket moved nothing; no frame is malformed |
| `FramedStream.Link.Send` | nodes/src/aggregator.rs:1106-1110 | an object is sent exactly if its encoding fits the length prefix; one that is not written completely follows a write that moved nothing |
| `FramedStream.BufferedStream.ReadExact` | nodes/src/aggregator.rs:1011-1042 | fills the buffer with the next bytes, or keeps all bytes for later and has just seen the socket give nothing; for any number of partial reads |
| `FramedStream.BufferedStream.PutBack` | nodes/src/aggregator.rs:1045-1050 | prepends to the read buffer |
| `FramedStream.BufferedStream.TryRecv` | nodes/src/aggregator.rs:1055-1075 | a whole frame is consumed, or read buffer followed by unread stream bytes are unchanged, and then the last read of the socket gave nothing |
| `FramedStream.BufferedStream.Flush` | nodes/src/aggregator.rs:1088-1102 | written bytes followed by the write buffer are unchanged; it returns Ok exactly if the buffer is empty, writes to the socket at least once, and gives up only after a write that moved nothing |
| `FramedStream.BufferedStream.WriteAll` | nodes/src/aggregator.rs:1079-1084 | no byte is lost, whether or not the socket would block; it gives up only after a write that moved nothing |
| `FramedStream.BufferedStream.Send` | nodes/src/aggregator.rs:1106-1110 | appended to the bytes sent are the length of the encoding as four bytes, the lowest first, and the encoding; one of 2^32 bytes or more is an error without effect; it reports that it would block exactly if bytes are left in the write buffer, and then the last write moved nothing |
| `FramedStream.FirstFrame` | nodes/src/aggregator.rs:1062-1075 | frames can be told apart: the frame a stream of frames starts with is the first one |
| `FramedStream.LengthBytes` | nodes/src/aggregator.rs:1106-1110 | the four bytes n mod 256, n / 256 mod 256, n / 2^16 mod 256, n / 2^24; the length can be read back |
| `FramedStream.LengthBytesOf` | nodes/src/aggregator.rs:1062-1063 | and every four bytes are the prefix of the length they encode |
| `CommitmentTrees.CommitmentTree.New` | nodes/src/merkle.rs:164-175 | the tree of the leaves, packed row by row |
| `CommitmentTrees.CommitmentTree.Complete` | nodes/src/merkle.rs:242-283 | from a finished row upwards the vector becomes the packed tree; every index is in bounds |
| `CommitmentTrees.CommitmentTree.CompleteRow` | nodes/src/merkle.rs:257-275 | one more row: the dummy if the row is odd, and the parents |
| `CommitmentTrees.CommitmentTree.Merge` | nodes/src/merkle.rs:179-240 | merging subtrees, all but the last full, gives exactly the nodes and the leaf count of `new` on all the leaves |
| `CommitmentTrees.CommitmentTree.MergeSeveral` | nodes/src/merkle.rs:196-239 | ... for two or more subtrees |
| `CommitmentTrees.CommitmentTree.MergedRow` | nodes/src/merkle.rs:211-221 | a row of the merged tree is the concatenation of the subtrees' rows |
| `CommitmentTrees.CommitmentTree.SubtreeRow` | nodes/src/merkle.rs:212-221 | the slice taken from a subtree is its share of the row; the slice is in bounds |
| `CommitmentTrees.CommitmentTree.Root` | nodes/src/merkle.rs:285-293 | the node over the last of the blocks of 2^depth leaves; for at most one block the top of the padded tree |
| `CommitmentTrees.CommitmentTree.Path` | nodes/src/merkle.rs:295-335 | the siblings from any position to the top, padding positions included |
| `CommitmentTrees.DirectionsArePosition` | nodes/src/merkle.rs:295-335 | the directions of a path are the bits of the position, the lowest first |
| `CommitmentTrees.CommitmentTree.Sibling` | nodes/src/merkle.rs:310-328 | the sibling from the vector or the empty root; the index is in bounds |
| `CommitmentTrees.CachedEmptyRoot` | nodes/src/merkle.rs:99-112 | the cache only grows and every entry is the recursive empty root, so caching never changes a result |
| `CommitmentTrees.NodeIsRoot` | nodes/src/merkle.rs:242-283 | a node of the packed tree is the Merkle root of its window of the padded leaves |
| `CommitmentTrees.PackedAt` | nodes/src/merkle.rs:257-275 | row h starts at the sum of the padded widths below it |
| `CommitmentTrees.NodeBeyond` | nodes/src/merkle.rs:310-328 | right of the last leaf every node is an empty root |
| `CommitmentTrees.WidthWithin` | nodes/src/merkle.rs:285-293 | the topmost row has a single node if and only if there is a leaf and there are at most 2^depth |
| `CommitmentTrees.TopNodeIsRoot` | nodes/src/merkle.rs:285-293 | with at most 2^depth leaves the node returned is the root over all of them |
| `CommitmentTrees.TopNodeForgets` | nodes/src/merkle.rs:285-293 | of an overfull tree, the node returned does not depend on the first 2^depth leaves |
| `CommitmentTrees.NodeDeterminesLeaves` | nodes/src/merkle.rs:242-283 | with an injective hash, equal nodes have equal padded leaves under them |
| `CommitmentTrees.LeavesDetermineNode` | nodes/src/merkle.rs:242-283 | and the other way round, for any hash |
| `CommitmentTrees.ExactCount` | nodes/src/merkle.rs:164-175 | the exact number of nodes: every row of odd width costs one dummy |
| `CommitmentTrees.NodeCount` | nodes/src/merkle.rs:169-172 | the vector has exactly 2n + 2 odd rows - width of the top row nodes, at most 2n + 2 depth - 1 |
| `CommitmentTrees.OddRowsAreZeroBits` | nodes/src/merkle.rs:169-172 | a row has odd width exactly if its bit of n - 1 is zero |
| `CommitmentTrees.CapacitySuffices` | nodes/src/merkle.rs:169-172 | the capacity 2n + depth - 1 is enough if and only if twice the number of odd rows is at most depth - 1 plus the width of the top row; for a tree that is not overfull, if and only if at most half of the low `depth` bits of n - 1 are zero |
| `CommitmentTrees.CapacityIsExceeded` | nodes/src/merkle.rs:169-172 | one leaf at depth one needs more nodes than the capacity that the comment calls sufficient |
| `CommitmentTrees.BlockNode` | nodes/src/merkle.rs:179-240 | up to the height of the full subtrees, the nodes over a block are those of its own tree |
| `CommitmentTrees.PathAuthenticates` | nodes/src/merkle.rs:295-335 | folding the path of any position from the leaf, or the empty leaf, there gives the root |
| `CommitmentTrees.FoldReachesTop` | nodes/src/types.rs:674-697 | from any height upwards |
| `CommitmentTrees.PathIsBinding` | nodes/src/types.rs:674-697 | with an injective hash, a path and its leaf are determined by the root and the directions |
| `CommitmentTrees.PathRoot` | nodes/src/types.rs:674-697 | the loop over the 32 entries folds exactly the first `depth` of them, or all if `depth` is larger |
| `ShieldedPools.ShieldedPool.Submit` | nodes/src/verifier.rs:81-238 | accepted are exactly the transactions that are signed, have a resource, a proven compliance and the right action root on every instance, distinct tags of each kind, known anchors, one logic instance for each resource and no other, each proven under the registered circuit of its own resource, and no spent nullifier; acceptance spends their nullifiers and creates their commitments in the order of the instances, and nothing else; a reason of refusal is the first check that failed, and what it says is so; a refusal leaves the pool unchanged unless the transaction passed every check, and then what the instances before the first spent nullifier did stays; commitments (nullifiers) cease to be those of the recorded transactions if and only if one of these instances creates (consumes); exactly when it panics |
| `ShieldedPools.ShieldedPool.SubmitAll` | nodes/src/verifier.rs:81-238 | over any run of submissions the pool records exactly the accepted transactions, in order, and no two of them share a nullifier; a run without refusals keeps the pool in agreement with its transactions |
| `Transactions.SoundIsAcceptable` | nodes/src/verifier.rs:87-217 | passing the checks in their order is the same as the conditions on resources and instances named above |
| `Transactions.RefsAreOwn` | nodes/src/verifier.rs:157-175 | each tag is entered with the logic of its own resource |
| `Transactions.TheActionLeaves` | nodes/src/verifier.rs:103-119 | the action root is the Merkle root of the nullifiers, then the commitments, then empty leaves up to the least power of two |
| `Transactions.RootsAgreeIs` | nodes/src/verifier.rs:120-128 | the check passes exactly if every instance that names a resource claims that root |
| `Transactions.LogicsHoldIs` | nodes/src/verifier.rs:176-210 | the logic checks pass exactly if every instance is proven under the registered circuit of the resource that it names |
| `Transactions.PairedIs` | nodes/src/verifier.rs:176-217 | the pairing is one instance for each resource and no other |
| `ShieldedPools.ReasonMeans` | nodes/src/verifier.rs:87-231 | what each reason of a refusal says about the transaction is so |
| `ShieldedPools.AcceptedEffect` | nodes/src/verifier.rs:218-231 | an accepted transaction spends exactly its nullifiers and appends exactly its commitments, in the order of the instances |
| `ShieldedPools.CreationAt` | nodes/src/verifier.rs:218-231 | the commitment of an instance stands behind those of the creating instances before it |
| `ShieldedPools.AcceptedShareNothing` | nodes/src/verifier.rs:218-231 | if nothing recorded is spent twice then no two accepted transactions of a run share a nullifier |
| `ShieldedPools.AcceptedAt` | nodes/src/verifier.rs:232-237 | where the record holds an accepted transaction |
| `ShieldedPools.NeverSpentTwice` | nodes/src/verifier.rs:218-231 | two recorded transactions never share a nullifier |
| `ShieldedPools.TornIsAtomic` | nodes/src/verifier.rs:218-231 | a refusal for a nullifier of the pool leaves it unchanged if and only if the first logic instance is the culprit |
| `ShieldedPools.FirstSpentIs` | nodes/src/verifier.rs:218-231 | the place where a transaction is torn is the first instance that consumes a nullifier of the pool |
| `ShieldedPools.RefusalCanTear` | nodes/src/verifier.rs:218-231 | a transaction that passes every check and is refused leaves its commitment behind |
| `ShieldedPools.ShieldedPool.Check` | nodes/src/verifier.rs:87-217 | the checks pass exactly for sound transactions; an error names the first check that failed, and for the logic instances the first one with an error |
| `ShieldedPools.CheckActionRoots` | nodes/src/verifier.rs:103-128 | the claimed action roots are those of the tree over the tags |
| `Transactions.ActionTreeDepth` | nodes/src/verifier.rs:115-119 | the least depth whose tree holds all tags |
| `ShieldedPools.TrackNullifiers` | nodes/src/verifier.rs:147-163 | the nullifiers are distinct and their anchors known, or which of the two fails; each is entered with the logic of its own resource (`RefsAreOwn`) |
| `ShieldedPools.TrackCommitments` | nodes/src/verifier.rs:164-175 | the commitments are distinct |
| `ShieldedPools.CheckLogics` | nodes/src/verifier.rs:176-217 | no error exactly if the tags of the logic instances match nullifiers and commitments one for one and every proof holds; otherwise the error is that of the first instance with one (unpaired, circuit not registered, proof refuted, or verifier failed), or a nullifier, or else a commitment, is named by none |
| `ShieldedPools.CheckLogic` | nodes/src/verifier.rs:178-210 | the outcomes for one logic instance against the entries that are left |
| `ShieldedPools.TakeTag` | nodes/src/verifier.rs:179-197 | a tag named twice, or not at all, breaks the pairing |
| `ShieldedPools.ShieldedPool.Apply` | nodes/src/verifier.rs:218-231 | the instances take effect up to the first spent nullifier |
| `ShieldedPools.ShieldedPool.Record` | nodes/src/verifier.rs:218-237 | all take effect and the new root becomes an anchor, or the pool is torn |
| `ShieldedPools.ShieldedPool.constructor` | nodes/src/verifier.rs:54-65 | the empty pool has the anchor of the empty tree |
| `ShieldedPools.ShieldedPool.RegisterLogic` | nodes/src/verifier.rs:68-73 | adds the circuit |
| `ShieldedPools.ShieldedPool.DeregisterLogic` | nodes/src/verifier.rs:76-78 | removes the circuit |
| `ShieldedPools.Synchronize` | nodes/src/client.rs:860-984 | the leaves are the commitments created by the transactions, in order, and the position counts them |
| `ShieldedPools.ClientAgreesWithPool` | nodes/src/client.rs:860-984 | the client rebuilds the pool's commitments if and only if no refusal left a commitment behind, and those under the newest anchor if and only if none did before that anchor; then its root is the newest anchor and every path below its position leads to it; with an injective hash and a tree that is not overfull its root is that anchor if and only if the padded leaves are the same |
| `ShieldedPools.AnchorsAgree` | nodes/src/client.rs:860-984 | with an injective hash, two lists of commitments have the same anchor if and only if the padded leaves under it are the same |
| `FieldSqrt.Sqrt` | contracts/src/Utilities.sol:99-172 | for every odd prime and every value that passes the Legendre check the result squares to the value; the loops terminate; otherwise it reverts |
| `FieldSqrt.Descend` | contracts/src/Utilities.sol:150-169 | Tonelli-Shanks: x^2 = a b, g has order 2^r, b has order dividing 2^(r-1), and r falls |
| `FieldSqrt.TonelliStart` | contracts/src/Utilities.sol:145-148 | the invariant holds initially |
| `FieldSqrt.TonelliStep` | contracts/src/Utilities.sol:164-168 | and is kept by a round |
| `FieldSqrt.LeastOrder` | contracts/src/Utilities.sol:151-156 | the number of squarings is the least one and below r |
| `FieldSqrt.OddPart` | contracts/src/Utilities.sol:135-140 | p - 1 is the odd part times a power of two |
| `FieldSqrt.LeastNonSquare` | contracts/src/Utilities.sol:142-143 | the search for a non-square ends below the modulus |
| `FieldSqrt.DirectRoot` | contracts/src/Utilities.sol:128-133 | for primes of the form 4k + 3 one power is a root |
| `FieldSqrt.RootExists` | contracts/src/Utilities.sol:116-126 | a value that passes Euler's criterion has a square root |
| `FieldSqrt.AcceptedExactlyIfRoot` | contracts/src/Utilities.sol:116-126 | the check accepts exactly the non-zero squares, so zero is rejected although it has a root |
| `FieldSqrt.PowSmall` | contracts/src/Utilities.sol:72-87 | square-and-multiply returns the power modulo the modulus, for every exponent below the top bit; one for the largest word |
| `FieldSqrt.PowSmallTerminates` | contracts/src/Utilities.sol:77-84 | the loop ends exactly for exponents below the top bit and for the largest word |
| `NumberTheory.Fermat` | contracts/src/Utilities.sol:116-120 | Fermat's little theorem, from the definition of a prime |
| `NumberTheory.EulerIsSign` | contracts/src/Utilities.sol:116-120 | the Euler power of a non-zero residue is one or minus one |
| `NumberTheory.NonResidueExists` | contracts/src/Utilities.sol:142-143 | every odd prime has a non-residue below it |
| `UniPoly.Decompress` | contracts/src/Utilities.sol:380-408 | the linear term makes the values at zero and one add up to the hint; the other coefficients are kept |
| `UniPoly.RoundTrip` | contracts/src/Utilities.sol:380-408 | a polynomial sent without its linear term arrives unchanged if the hint is right |
| `UniPoly.LinearTermIsUnique` | contracts/src/Utilities.sol:380-408 | no other linear term fits the hint |
| `UniPoly.Evaluate` | contracts/src/Utilities.sol:350-361 | the value at the point, modulo the modulus |
| `UniPoly.EvalAtOne` | contracts/src/Utilities.sol:336-341 | the value at one is the sum of the coefficients |
| `UniPoly.Negate` | contracts/src/Utilities.sol:369-371 | congruent to the negation, in the range from one to the modulus |
| `MultiScalar.MultiScalarMulSerial` | contracts/src/Grumpkin.sol:378-421 | the bucket method computes the sum of the multiples, for every window of at least one bit |
| `MultiScalar.MultiScalarMul` | contracts/src/Grumpkin.sol:319-330 | the naive sum of the multiples; it reverts without bases |
| `MultiScalar.BucketsAgreeWithNaive` | contracts/src/Grumpkin.sol:319-421 | both return the same group element on every input on which the naive one does not revert |
| `MultiScalar.ScalarMul` | contracts/src/Grumpkin.sol:299-317 | double-and-add from the top bit computes the multiple |
| `MultiScalar.BitAtPosition` | contracts/src/Grumpkin.sol:306-313 | the bit read from a byte is the bit at its position of the word |
| `MultiScalar.DigitSplitsAt` | contracts/src/Grumpkin.sol:368-376 | a shifted scalar is its higher digits followed by the digit of the segment |
| `MultiScalar.SegmentStep` | contracts/src/Grumpkin.sol:399-420 | one segment: shift by the window and add the digits |
| `MultiScalar.FillBuckets` | contracts/src/Grumpkin.sol:404-413 | the weighted sum of the buckets is the combination of the bases with the digits |
| `MultiScalar.AddBuckets` | contracts/src/Grumpkin.sol:415-419 | the running sum adds the weighted sum of the buckets |
| `MultiScalar.RunningSum` | contracts/src/Grumpkin.sol:415-419 | one more bucket in front raises every weight behind it by one |
| `MultiScalar.DoubleTimes` | contracts/src/Grumpkin.sol:400-402 | doubling c times is multiplying by 2^c |
| `MultiScalar.CombinationLinear` | contracts/src/Grumpkin.sol:399-420 | combining is linear in the scalars |
| `GeminiFold.ComputeFoldPosEvaluations` | contracts/src/Verifier.sol:1606-1628 | the backward loop returns the recurrence of the rounds, which reads entry l of challenges and evaluations for level l however long the arrays are; it reverts exactly if some denominator is zero |
| `GeminiFold.FoldPosReconstructs` | contracts/src/Verifier.sol:1606-1628 | with honest folds and the evaluations at -r^(2^l) in the first m entries of arrays of any length, the loop from level m returns the evaluation at r^(2^l) for every level |
| `GeminiFold.ReconstructFolds` | contracts/src/Verifier.sol:1606-1637 | both loops together, as the verifier calls them: from r, honest folds and their claimed evaluations (with any padding behind), entry l is the value of the l-th fold at r^(2^l); it reverts exactly without levels or if r^(2^l) (1 - u_l) + u_l is zero for some level |
| `GeminiFold.RoundReconstructs` | contracts/src/Verifier.sol:1615-1625 | one round recovers the evaluation from the next fold and the evaluation at the negated point |
| `GeminiFold.FoldEval` | contracts/src/Verifier.sol:1606-1628 | the value of a fold mixes the values of the even and the odd part as its coefficients do theirs |
| `GeminiFold.EvenOdd` | contracts/src/Verifier.sol:1606-1628 | a polynomial from its even and odd part |
| `GeminiFold.FoldPosReverts` | contracts/src/Verifier.sol:1621-1622 | the condition under which the loop reverts |
| `GeminiFold.ComputeSquares` | contracts/src/Verifier.sol:1630-1637 | entry i is congruent to r^(2^i); no levels revert |
| `GeminiFold.Invert` | contracts/src/Verifier.sol:186-211 | the inverse by Fermat's theorem; zero reverts |
| `GeminiFold.SubMod` | contracts/src/Verifier.sol:299-303 | subtraction modulo the prime |
| `EqPolynomial.Evals` | contracts/src/EqPolynomial.sol:71-104 | entry k of the table is the polynomial at the big-endian bits of k |
| `EqPolynomial.Double` | contracts/src/EqPolynomial.sol:86-101 | doubling in place replaces each entry by its two extensions |
| `EqPolynomial.Evaluate` | contracts/src/EqPolynomial.sol:18-61 | the value of the equality polynomial; different lengths revert |
| `EqPolynomial.TableAgreesWithEvaluate` | contracts/src/EqPolynomial.sol:18-104 | entry k of the table that `evals` makes is what `evaluate` returns for the bits of k |
| `EqPolynomial.TableSumsToOne` | contracts/src/EqPolynomial.sol:71-104 | the whole table sums to one modulo the modulus |
| `EqPolynomial.SumsToOne` | contracts/src/EqPolynomial.sol:71-104 | the polynomial sums to one over the hypercube |
| `RecursiveAggregators.RecursiveAggregator.SyncOne` | nodes/src/aggregator.rs:249 | one sub-aggregator synchronises once; no other changes, and a prompt one does not otherwise either |
| `RecursiveAggregators.RecursiveAggregator.Absorb` | nodes/src/aggregator.rs:370-403 | a popped proof is stored and merged as far as possible |
| `RemoteAggregators.RemoteAggregator.ReceiveProof` | nodes/src/aggregator.rs:748-750 | a received proof is appended to the output under its id |
| `RemoteAggregators.RemoteAggregator.Command` | nodes/src/aggregator.rs:721-723 | a request without a batch leaves the caller's view as it is |
| `FramedStream.BufferedStream.ReadSome` | nodes/src/aggregator.rs:1023 | the socket hands out any number of the next bytes, or would block |
| `FramedStream.BufferedStream.WriteSome` | nodes/src/aggregator.rs:1090 | the socket takes any number of the first bytes, or would block |
| `FramedStream.Link.Flush` | nodes/src/aggregator.rs:1088-1102 | flushing loses and reorders nothing |
| `FramedStream.Link.Deliver` | nodes/src/aggregator.rs:1011-1110 | the network moves some of the first bytes written to the end of those to be read |
| `FramedStream.FramesAppend` | nodes/src/aggregator.rs:1106-1110 | sending one more object appends its frame |
| `CommitmentTrees.NodeAtSuffix` | nodes/src/merkle.rs:179-240 | nodes over whole blocks in front do not depend on what follows, seen from behind |
| `CommitmentTrees.NodeAtPrefix` | nodes/src/merkle.rs:179-240 | and seen from the front |
| `CommitmentTrees.WidthOfBlocks` | nodes/src/merkle.rs:204-230 | full blocks contribute full rows |
| `CommitmentTrees.StartOfBlocks` | nodes/src/merkle.rs:204-230 | and full starts |
| `ShieldedPools.PairedDistinct` | nodes/src/verifier.rs:212-217 | a pairing with distinct nullifiers names each of them once |
| `ShieldedPools.ApplyNext` | nodes/src/verifier.rs:219-231 | one more instance takes effect, or the transaction is torn there |
| `ShieldedPools.AcceptedKeeps` | nodes/src/verifier.rs:218-237 | an accepted transaction keeps the pool consistent, and neither repairs nor spoils its agreement with its transactions |
| `ShieldedPools.TornKeeps` | nodes/src/verifier.rs:218-231 | a torn one keeps the pool consistent; it spoils the agreement of the commitments if and only if it created, and of the nullifiers if and only if it consumed, before it was torn |
| `Transactions.RefsKeys` | nodes/src/verifier.rs:157-162 | the map holds exactly the tags, once each if they are distinct |
| `FieldSqrt.PowMod` | contracts/src/Utilities.sol:101-113 | the precompile returns the power modulo the modulus |
| `FieldSqrt.NonSquareIsMinusOne` | contracts/src/Utilities.sol:116-120 | a non-square has Euler power minus one |
| `FieldSqrt.TonelliEnd` | contracts/src/Utilities.sol:158-162 | when no squaring is needed, x is the root |
| `NumberTheory.AddMod` | contracts/src/Verifier.sol:287-291 | addition modulo the modulus |
| `NumberTheory.MulMod` | contracts/src/Verifier.sol:293-297 | multiplication modulo the modulus |
| `MultiScalar.GetAt` | contracts/src/Grumpkin.sol:368-376 | the digit is below 2^c, and it is what a shift by the segment has and a shift by the next one has not |
| `MultiScalar.AddToBucket` | contracts/src/Grumpkin.sol:407-410 | adding a base to the bucket of its digit adds that multiple of it to the weighted sum |
| `MultiScalar.NothingAbove` | contracts/src/Grumpkin.sol:396-397 | above the top segment nothing is left of any scalar |
| `GeminiFold.Denominator` | contracts/src/Verifier.sol:1622 | r (1 - u) + u modulo the prime |
| `GeminiFold.Numerator` | contracts/src/Verifier.sol:1618-1620 | 2 r acc - neg (r (1 - u) - u) modulo the prime |
| `GeminiFold.Round` | contracts/src/Verifier.sol:1615-1625 | the quotient of the two; it reverts exactly if the denominator is zero |
| `EqPolynomial.EvaluateStep` | contracts/src/EqPolynomial.sol:37-58 | multiplying one factor into the product |
| `EqPolynomial.SplitEntry` | contracts/src/EqPolynomial.sol:86-99 | the two values that replace an entry are its products with the two factors |
| `EqPolynomial.SumSplits` | contracts/src/EqPolynomial.sol:83-102 | the sum over the doubled table in terms of the table before |

## Left out

- Proving, verifying, hashing, signatures, encryption and circuit loading through Barretenberg and the FFI: foreign code, arbitrary functions here.
- Threads and sockets as such: the channels are sequences, the sockets byte sequences with any chunking; errors other than would-block end the connection in the source and are not part of the model.
- `RecursiveAggregator::remove_sub_aggregator`: it drops work in flight, after which no proof of that batch can come out.
- Liveness of the aggregator over remote members, whose worker may take any time; a remote aggregator alone is covered for workers that get to run (`AggregateRemotely`).
- `AggregatorTeams.DriveTeam`: for which sizes above the least grant a batch comes out of a team without a slow enough member, other than by the steps after which it is decided.
- `AggregatorTeams.AggregateBatches`: the members of a team are inserted as the values their callers see; that a `MerkleAggregator` and a built team are seen so is what their constructor and `Build` ensure.
- `f64` rounding of throughputs and waiting times, and conversion of out-of-range floats.
- Exhaustion of id iterators (`gen_id`), of 64-bit counters and of memory.
- The leaf queue of the leaf workers, which nothing fills, and the input maps of `BarretenbergAggregator::combine_proofs`.
- `BufferedStream::read`, which nothing calls.
- Server reuse across TCP connections: the alias map is rebuilt for every connection, so the protocol is stated for one connection to a server with nothing in flight.
- `RemoteAggregators.RemoteAggregator.Sync`: how many responses a socket delivers before it would block is an argument, any number or no limit; a thread's channel has none.
- `RemoteAggregators.RemoteAggregator.NextProof`: for channels without a limit, and as long as nobody has asked the worker to shut down.
- The serialisation format itself: any codec that can read back what it wrote.
- The `level` argument of `combine`, which no implementation uses, and the byte order of nodes.
- `CommitmentTrees.CommitmentTree.Merge`: a single subtree is returned as it is and keeps its own depth; the sizes that the source asserts are preconditions, and so is a depth of at least that of the full subtrees, below which the source indexes out of bounds.
- `FieldSqrt.Sqrt`: the modulus is an odd prime; for two the search for a non-square would not end.
- Affine exceptions in `Grumpkin.add` (it reverts when the sum is the identity), projective formulas, `negate` and `decompress` of points: the multi-scalar results hold for the group operation, on calls that return.
- `CommonUtilities.log2` and its tables: the window for 32 bases and more is any number of bits from one up.
- `GeminiFold.FoldPosReconstructs`: for loops that return; whether one reverts is decided by the denominators alone (`FoldPosReverts`).
- Relation accumulators, transcript hashing, pairing and verification keys in `Verifier.sol`; `Verifier1.sol` to `Verifier3.sol` repeat the same code with other keys.
- `ShieldedPools.Synchronize`: the decryption of notes and the maps of the wallet; only commitments, position and tree.
- `ShieldedPools.ClientAgreesWithPool`: the paths are stated for at most 2^32 commitments, the capacity of the tree; in an overfull tree the anchor does not depend on all of them.
- Transaction building, witness conversions, `SignMagnitude`, wallet storage, command lines and the Noir circuits.
