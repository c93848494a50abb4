/** `RecursiveAggregator`: it proves nothing itself, but splits batches, hands the pieces to
    sub-aggregators and recombines what comes back. Whatever they do and in whatever order,
    the proof it emits for a batch is the Merkle root of that batch. */
module RecursiveAggregators {
  import opened MerkleRoot
  import opened AggregatorContract
  import opened Wrappers
  import opened AggregatorLoads
  import opened AggregatorRuns
  import opened AggregationForest
  import opened AggregationBooks
  import opened AggregationMeasure

  lemma FlattenFront<P>(b: Batch<P>, queue: seq<Batch<P>>)
    ensures Flatten([b] + queue) == b.proofs + Flatten(queue)
  {
    assert ([b] + queue)[1..] == queue;
  }

  /** Proofs pending at the sub-aggregators with ids below `n`. */
  function SubsPending<P>(subs: map<nat, Aggregator<P>>, n: nat): nat {
    if n == 0 then 0 else SubsPending(subs, n - 1) + if n - 1 in subs then subs[n - 1].pending else 0
  }

  function SubsThroughput<P>(subs: map<nat, Aggregator<P>>, n: nat): real {
    if n == 0 then 0.0 else SubsThroughput(subs, n - 1) + if n - 1 in subs then subs[n - 1].throughput else 0.0
  }

  lemma {:induction false} SubsUpdate<P>(subs: map<nat, Aggregator<P>>, n: nat, a: nat, s: Aggregator<P>)
    requires a in subs && a < n
    ensures SubsPending(subs[a := s], n) == SubsPending(subs, n) - subs[a].pending + s.pending
    ensures SubsThroughput(subs[a := s], n) == SubsThroughput(subs, n) - subs[a].throughput + s.throughput
  {
    SubsInsertAbove(subs, n - 1, a, s);
    if a < n - 1 {
      SubsUpdate(subs, n - 1, a, s);
    }
  }

  /** A sub-aggregator beyond the sum does not enter it. */
  lemma {:induction false} SubsInsertAbove<P>(subs: map<nat, Aggregator<P>>, n: nat, a: nat, s: Aggregator<P>)
    ensures a >= n ==>
      && SubsPending(subs[a := s], n) == SubsPending(subs, n)
      && SubsThroughput(subs[a := s], n) == SubsThroughput(subs, n)
  {
    if n > 0 {
      SubsInsertAbove(subs, n - 1, a, s);
    }
  }

  /** One more sub-aggregator adds what it reports. */
  lemma SubsInsert<P>(subs: map<nat, Aggregator<P>>, n: nat, s: Aggregator<P>)
    requires n !in subs
    ensures SubsPending(subs[n := s], n + 1) == SubsPending(subs, n) + s.pending
    ensures SubsThroughput(subs[n := s], n + 1) == SubsThroughput(subs, n) + s.throughput
  {
    SubsInsertAbove(subs, n, n, s);
  }

  lemma {:induction false} ThroughputIsLegal<P>(combine: (P, P) -> P, subs: map<nat, Aggregator<P>>, n: nat)
    requires SubsValid(combine, subs)
    ensures SubsThroughput(subs, n) == 0.0 || SubsThroughput(subs, n) >= 1.0
  {
    if n > 0 {
      ThroughputIsLegal(combine, subs, n - 1);
    }
  }

  /** The total throughput does not change while every sub-aggregator keeps its own. */
  lemma {:induction false} SubsThroughputKept<P>(subs: map<nat, Aggregator<P>>, subs': map<nat, Aggregator<P>>, n: nat)
    requires subs'.Keys == subs.Keys
    requires forall a :: a in subs ==> subs'[a].throughput == subs[a].throughput
    ensures SubsThroughput(subs', n) == SubsThroughput(subs, n)
  {
    if n > 0 {
      SubsThroughputKept(subs, subs', n - 1);
    }
  }

  /** All sub-aggregators are prompt, and one of them is slow enough to take a batch of two. */
  ghost predicate Driven<P>(subs: map<nat, Aggregator<P>>) {
    AllPrompt(subs) && exists a :: a in subs && Slow(subs[a])
  }

  /** The sub-aggregator is too fast for so few proofs: they do not saturate it. */
  ghost predicate TooFewFor<P>(s: Aggregator<P>, pending: nat) {
    s.throughput != 0.0 ==> pending < 2 * s.throughput.Floor
  }

  /** All sub-aggregators are prompt, none has anything to do, and none will take so few. */
  ghost predicate Unable<P>(subs: map<nat, Aggregator<P>>, pending: nat) {
    AllPrompt(subs) && NothingOwed(subs) && forall a :: a in subs ==> TooFewFor(subs[a], pending)
  }

  lemma UnableIsIdle<P>(subs: map<nat, Aggregator<P>>, pending: nat)
    ensures Unable(subs, pending) ==> AllPrompt(subs) && NothingOwed(subs)
  {
  }

  /** Among idle sub-aggregators nobody accepts the queue exactly if it is too short for all. */
  lemma IdleRefuse<P>(combine: (P, P) -> P, subs: map<nat, Aggregator<P>>, pending: nat)
    requires SubsValid(combine, subs)
    ensures Unable(subs, pending) ==> NobodyAccepts(subs, pending)
    ensures AllPrompt(subs) && Collected(subs) && !Busy(subs) && NobodyAccepts(subs, pending) ==> Unable(subs, pending)
  {
    hide Accepts, LoadOf, Valid;
    forall a | a in subs
      ensures TooFewFor(subs[a], pending) ==> !Accepts(LoadOf(a, subs[a]), pending)
      ensures subs[a].pending == 0 && !Accepts(LoadOf(a, subs[a]), pending) ==> TooFewFor(subs[a], pending)
      ensures subs[a].prompt && subs[a].ready == [] && subs[a].pending == 0 ==> subs[a].owed == map[]
    {
      ThroughputIsKnown(combine, subs[a]);
      if subs[a].prompt && subs[a].ready == [] && subs[a].pending == 0 {
        NothingHeld(combine, subs[a]);
      }
      AcceptsMeans(a, subs[a], pending);
    }
  }

  lemma NothingRefused<P>(combine: (P, P) -> P, subs: map<nat, Aggregator<P>>)
    requires SubsValid(combine, subs)
    ensures NobodyAccepts(subs, 0)
  {
    hide Accepts, LoadOf, Valid;
    forall a | a in subs ensures !Accepts(LoadOf(a, subs[a]), 0) {
      ThroughputIsKnown(combine, subs[a]);
      AcceptsMeans(a, subs[a], 0);
    }
  }

  lemma ThroughputIsKnown<P>(combine: (P, P) -> P, s: Aggregator<P>)
    requires Valid(combine, s)
    ensures s.throughput == 0.0 || s.throughput >= 1.0
  {
  }

  lemma StillUnable<P>(subs: map<nat, Aggregator<P>>, subs': map<nat, Aggregator<P>>, pending: nat)
    requires Unable(subs, pending) && SameSubs(subs, subs') && NothingOwed(subs')
    ensures Unable(subs', pending)
  {
    SameSubsDriven(subs, subs');
  }

  /** The same sub-aggregators, each of the kind it was. */
  ghost predicate SameSubs<P>(subs: map<nat, Aggregator<P>>, subs': map<nat, Aggregator<P>>) {
    subs'.Keys == subs.Keys && forall a :: a in subs ==> SameKind(subs[a], subs'[a])
  }

  lemma SameSubsDriven<P>(subs: map<nat, Aggregator<P>>, subs': map<nat, Aggregator<P>>)
    requires SameSubs(subs, subs')
    ensures AllPrompt(subs) ==> AllPrompt(subs') && forall a :: a in subs ==> subs'[a].throughput == subs[a].throughput
    ensures Driven(subs) ==> AllPrompt(subs) && Driven(subs')
  {
    if Driven(subs) {
      var a :| a in subs && Slow(subs[a]);
      assert SameKind(subs[a], subs'[a]);
    }
  }

  /** If nobody can take the queue then nothing is handed out. */
  lemma StuckStays<P>(subs: map<nat, Aggregator<P>>, queue: seq<P>, t: Trace<P>, n: nat)
    requires Distributed(subs, queue, t) && AllPrompt(subs) && forall b :: b in subs ==> b < n
    requires NobodyAccepts(subs, |queue|) && NothingOwed(subs)
    ensures t.handouts == [] && NothingOwed(t.loaded)
  {
    DistributedWork(subs, queue, t, n);
    SyncedAccepts(subs, t.synced, |queue|);
  }

  lemma SameSubsSelf<P>(subs: map<nat, Aggregator<P>>)
    ensures SameSubs(subs, subs)
  {
  }

  lemma SameSubsTwice<P>(subs: map<nat, Aggregator<P>>, subs': map<nat, Aggregator<P>>,
      subs'': map<nat, Aggregator<P>>)
    requires SameSubs(subs, subs') && SameSubs(subs', subs'')
    ensures SameSubs(subs, subs'')
  {
  }

  class RecursiveAggregator<P> {
    const combine: (P, P) -> P
    const aggregatorId: nat
    var internalProofs: seq<Batch<P>>
    var recursiveProofs: seq<Emitted<P>>
    var subRecursiveProofs: map<Key, P>
    var subAggregators: map<nat, Aggregator<P>>
    var freeAggregatorIds: nat
    var freeBatchIds: nat
    var proofParents: map<Key, Key>
    var proofChildren: map<Key, Pair>
    var proofAliases: map<Key, nat>
    var proofDescendants: map<Key, seq<Key>>

    /** The batches pushed and not yet popped. */
    ghost var owed: map<nat, seq<P>>
    /** What each live key has to produce. */
    ghost var spec: map<Key, P>
    /** The key that now stands for each batch still to be emitted. */
    ghost var roots: map<nat, Key>
    /** How often this aggregator was asked to step and to synchronise. */
    ghost var steps: nat
    ghost var syncs: nat

    /** The whole state, with `queue` the batches still to be handed out. */
    ghost function State(queue: seq<Batch<P>>): Books<P>
      reads this`freeAggregatorIds, this`freeBatchIds, this`proofParents, this`proofChildren,
        this`proofAliases, this`proofDescendants, this`subRecursiveProofs, this`subAggregators,
        this`recursiveProofs, this`owed, this`spec, this`roots
    {
      Books(aggregatorId, freeAggregatorIds, freeBatchIds, queue, proofParents, proofChildren, proofAliases,
            proofDescendants, subRecursiveProofs, subAggregators, recursiveProofs, owed, spec, roots)
    }

    ghost predicate SettledHere()
      reads this`proofChildren, this`proofDescendants
    {
      Settled(proofChildren, proofDescendants, {})
    }

    /** Holds between calls: every proof collected was merged and sent on. */
    ghost predicate Valid()
      reads this
    {
      && Consistent(combine, State(internalProofs))
      && SettledHere()
      && Waiting()
    }

    /** Every resolved piece is a single one that waits for its sibling. */
    ghost predicate Waiting()
      reads this`proofDescendants, this`proofAliases
    {
      forall k :: k in proofDescendants ==> |proofDescendants[k]| == 1 && k !in proofAliases
    }

    /** No batch was pushed, and no proof taken from a sub-aggregator. */
    ghost predicate Unused()
      reads this
    {
      && internalProofs == [] && recursiveProofs == [] && subRecursiveProofs == map[]
      && proofDescendants == map[] && freeBatchIds == 0 && owed == map[] && steps == 0 && syncs == 0
    }

    constructor (combine: (P, P) -> P)
      ensures this.combine == combine && Valid() && Unused()
      ensures subAggregators == map[] && freeAggregatorIds == 1
    {
      hide Consistent, Settled;
      this.combine := combine;
      aggregatorId, freeAggregatorIds, freeBatchIds := 0, 1, 0;
      internalProofs, recursiveProofs := [], [];
      subRecursiveProofs, subAggregators := map[], map[];
      proofParents, proofChildren, proofAliases, proofDescendants := map[], map[], map[], map[];
      owed, spec, roots := map[], map[], map[];
      steps, syncs := 0, 0;
      new;
      EmptyIsConsistent(combine, State(internalProofs));
    }

    /** A batch of more than the target size is cut in half: the second half goes back to
        the front of the queue, the first half is handled on. */
    method Split(current: Batch<P>) returns (first: Batch<P>)
      requires |current.proofs| > 2 && Consistent(combine, State([current] + internalProofs))
      modifies this`internalProofs, this`freeBatchIds, this`proofParents, this`proofChildren, this`spec
      ensures freeBatchIds >= old(freeBatchIds)
      ensures Consistent(combine, State([first] + internalProofs))
      ensures IsBatch(current.proofs) && IsBatch(first.proofs) && |first.proofs| == |current.proofs| / 2
      ensures |internalProofs| == old(|internalProofs|) + 1 && internalProofs[1..] == old(internalProofs)
      ensures first.proofs + internalProofs[0].proofs == current.proofs
      ensures old(SettledHere()) ==> SettledHere()
    {
      hide Consistent, Settled, Root, IsPowerOfTwo, IsBatch;
      ghost var before := State([current] + internalProofs);
      SplitKeeps(combine, before);
      var qualified := Key(aggregatorId, current.id);
      var half := |current.proofs| / 2;
      var batch1 := Batch(freeBatchIds, current.proofs[half..]);
      first := Batch(freeBatchIds + 1, current.proofs[..half]);
      HalvesProduce(combine, current.proofs, half);
      freeBatchIds := freeBatchIds + 2;
      internalProofs := [batch1] + internalProofs;
      var k, k1 := Key(aggregatorId, first.id), Key(aggregatorId, batch1.id);
      proofParents := proofParents[k := qualified];
      proofParents := proofParents[k1 := qualified];
      proofChildren := proofChildren[qualified := Pair(k, k1)];
      spec := spec[k := Root(combine, first.proofs)][k1 := Root(combine, batch1.proofs)];
      assert before.queue[1..] == old(internalProofs);
      assert State([first] + internalProofs) == AfterSplit(combine, before);
    }

    /** A key in the forest is replaced by the key its batch has at a sub-aggregator. */
    method Rename(qualified: Key, newQualified: Key)
      requires forall c :: c in proofParents ==> proofParents[c] in proofChildren
      modifies this`proofParents, this`proofChildren, this`proofAliases, this`roots
      ensures State(internalProofs) == Rehomed(old(State(internalProofs)), qualified, newQualified)
    {
      if qualified in proofParents {
        var parent := proofParents[qualified];
        proofParents := (proofParents - {qualified})[newQualified := parent];
        var children := proofChildren[parent];
        if children.left == qualified {
          proofChildren := proofChildren[parent := children.(left := newQualified)];
        } else if children.right == qualified {
          proofChildren := proofChildren[parent := children.(right := newQualified)];
        }
      } else {
        proofAliases := proofAliases[newQualified := qualified.batch];
        roots := roots[qualified.batch := newQualified];
      }
    }

    /** A batch goes to sub-aggregator `a`, and its key in the forest is renamed. */
    method Send(current: Batch<P>, a: nat) returns (ghost newId: nat)
      requires Consistent(combine, State([current] + internalProofs)) && a in subAggregators
      modifies this`subAggregators, this`proofParents, this`proofChildren, this`proofAliases, this`spec, this`roots
      ensures Consistent(combine, State(internalProofs))
      ensures OnlyAt(old(subAggregators), a, subAggregators) && IsBatch(current.proofs)
      ensures Pushed(old(subAggregators)[a], current.proofs, newId, subAggregators[a])
      ensures old(SettledHere()) ==> SettledHere()
    {
      hide Consistent, Settled, Root, IsPowerOfTwo, AggregatorContract.Valid, IsBatch, OnlyAt, Pushed, Sends,
        AfterSend;
      ghost var before := State([current] + internalProofs);
      ConsistentFront(combine, before);
      ConsistentSub(combine, before, a);
      var qualified := Key(aggregatorId, current.id);
      var sub, id := AggregatorContract.Push(combine, subAggregators[a], current.proofs);
      newId := id;
      SendKeeps(combine, before, a, sub, id);
      OnlyAtSub(subAggregators, a, sub);
      assert before.queue[1..] == internalProofs;
      Rehome(before, qualified, a, sub, id);
    }

    /** The forest after the batch in front of the queue became batch `newId` of `a`. */
    method Rehome(ghost before: Books<P>, qualified: Key, a: nat, sub: Aggregator<P>, newId: nat)
      requires Sends(combine, before, a, sub, newId) && before == State(before.queue)
      requires before.queue[1..] == internalProofs && qualified == Key(aggregatorId, before.queue[0].id)
      modifies this`subAggregators, this`proofParents, this`proofChildren, this`proofAliases, this`spec, this`roots
      ensures State(internalProofs) == AfterSend(before, a, sub, newId)
      ensures subAggregators == old(subAggregators)[a := sub]
    {
      hide Rehomed, Pushed;
      subAggregators := subAggregators[a := sub];
      spec := (spec - {qualified})[Key(a, newId) := spec[qualified]];
      Rename(qualified, Key(a, newId));
    }

    /** Splitting changes neither the proofs nor their order. */
    method Halve(current: Batch<P>, ghost size: nat) returns (first: Batch<P>)
      requires |current.proofs| > 2 && Consistent(combine, State([current] + internalProofs))
      requires size <= |current.proofs| / 2
      modifies this`internalProofs, this`freeBatchIds, this`proofParents, this`proofChildren, this`spec
      ensures freeBatchIds >= old(freeBatchIds)
      ensures Consistent(combine, State([first] + internalProofs))
      ensures IsBatch(current.proofs) && IsBatch(first.proofs) && |first.proofs| == |current.proofs| / 2
      ensures first.proofs + Flatten(internalProofs) == current.proofs + old(Flatten(internalProofs))
      ensures Halved(old(internalProofs), size, internalProofs)
      ensures old(SettledHere()) ==> SettledHere()
    {
      hide Consistent, Halved, IsPowerOfTwo, Flatten, State, SettledHere;
      ghost var queue := internalProofs;
      first := Split(current);
      assert internalProofs == [internalProofs[0]] + queue;
      FlattenFront(internalProofs[0], queue);
      assert first.proofs + (internalProofs[0].proofs + Flatten(queue)) == current.proofs + Flatten(queue);
      HalvedMore(queue, size, internalProofs);
    }

    /** The next chunk for an aggregator that takes `n` proofs: the batch at the front of the
        queue, halved until it is no larger than the next power of two. */
    method TakeChunk(n: nat) returns (chunk: Batch<P>)
      requires n > 1 && internalProofs != [] && Consistent(combine, State(internalProofs))
      modifies this`internalProofs, this`freeBatchIds, this`proofParents, this`proofChildren, this`spec
      ensures freeBatchIds >= old(freeBatchIds)
      ensures Consistent(combine, State([chunk] + internalProofs))
      ensures IsBatch(chunk.proofs)
      ensures |chunk.proofs| == Min(NextPowerOfTwo(n), old(|internalProofs[0].proofs|))
      ensures chunk.proofs + Flatten(internalProofs) == old(Flatten(internalProofs))
      ensures |chunk.proofs| < NextPowerOfTwo(n) ==> chunk == old(internalProofs[0])
      ensures Halved(old(internalProofs), NextPowerOfTwo(n), internalProofs)
      ensures old(SettledHere()) ==> SettledHere()
    {
      hide Consistent, Root, Halved, IsPowerOfTwo, NextPowerOfTwo, Flatten, SettledHere;
      ConsistentFront(combine, State(internalProofs));
      hide State;
      chunk := internalProofs[0];
      assert internalProofs == [chunk] + internalProofs[1..];
      FlattenFront(chunk, internalProofs[1..]);
      HalvedRest(internalProofs, NextPowerOfTwo(n));
      internalProofs := internalProofs[1..];
      var targetSize := Min(NextPowerOfTwo(n), |chunk.proofs|);
      while |chunk.proofs| > targetSize
        invariant Consistent(combine, State([chunk] + internalProofs))
        invariant IsBatch(chunk.proofs) && |chunk.proofs| >= targetSize
        invariant chunk.proofs + Flatten(internalProofs) == old(Flatten(internalProofs))
        invariant targetSize < NextPowerOfTwo(n) ==> chunk == old(internalProofs[0])
        invariant Halved(old(internalProofs), NextPowerOfTwo(n), internalProofs)
        invariant old(SettledHere()) ==> SettledHere()
        invariant freeBatchIds >= old(freeBatchIds)
        decreases |chunk.proofs|
      {
        PowersOfTwoAreApart(targetSize, |chunk.proofs|);
        ghost var queue := internalProofs;
        chunk := Halve(chunk, NextPowerOfTwo(n));
        HalvedTwice(old(internalProofs), NextPowerOfTwo(n), queue, internalProofs);
      }
    }

    /** Queued proofs, proofs at the sub-aggregators, and pieces waiting to be merged. */
    ghost function Measure(): nat
      reads this`internalProofs, this`subAggregators, this`freeAggregatorIds, this`subRecursiveProofs
    {
      |Flatten(internalProofs)| + SubsWeight(subAggregators, freeAggregatorIds) + |subRecursiveProofs|
    }

    /** The work left, and the finished proofs that wait to be popped. */
    ghost function Backlog(): nat
      reads this`internalProofs, this`subAggregators, this`freeAggregatorIds, this`subRecursiveProofs,
        this`recursiveProofs
    {
      Measure() + |recursiveProofs|
    }

    /** Sub-aggregator `a` is given chunks until it has at least `n` more proofs. The proofs
        leave the queue in order, and the grant overshoots by less than one chunk. */
    method Grant(a: nat, n: nat) returns (total: nat, ghost sent: seq<Batch<P>>)
      requires Consistent(combine, State(internalProofs)) && a in subAggregators
      requires 1 < n <= |Flatten(internalProofs)|
      modifies this`internalProofs, this`freeBatchIds, this`subAggregators, this`proofParents, this`proofChildren,
        this`proofAliases, this`spec, this`roots
      ensures freeBatchIds >= old(freeBatchIds)
      ensures Consistent(combine, State(internalProofs))
      ensures n <= total < n + NextPowerOfTwo(n)
      ensures Flatten(sent) + Flatten(internalProofs) == old(Flatten(internalProofs)) && total == |Flatten(sent)|
      ensures Loaded(old(subAggregators), a, sent, 0, subAggregators)
      ensures Chunked(old(internalProofs), NextPowerOfTwo(n), sent)
      ensures old(SettledHere()) ==> SettledHere()
    {
      hide Consistent, Settled, Root, IsPowerOfTwo, Loaded, Flatten, State, SettledHere, Pushed, Halved, Chunked,
        NextPowerOfTwo;
      total, sent := 0, [];
      LoadedNothing(subAggregators, a);
      FlattenNothing<P>();
      NothingChunked(internalProofs, NextPowerOfTwo(n));
      while total < n
        invariant Consistent(combine, State(internalProofs))
        invariant total < n + NextPowerOfTwo(n)
        invariant Flatten(sent) + Flatten(internalProofs) == old(Flatten(internalProofs)) && total == |Flatten(sent)|
        invariant Loaded(old(subAggregators), a, sent, 0, subAggregators)
        invariant Halved(old(internalProofs), NextPowerOfTwo(n), internalProofs)
        invariant Chunked(old(internalProofs), NextPowerOfTwo(n), sent)
        invariant old(SettledHere()) ==> SettledHere()
        invariant freeBatchIds >= old(freeBatchIds)
        decreases n - total
      {
        ghost var queue := internalProofs;
        var chunk := TakeChunk(n);
        LoadedHas(old(subAggregators), a, sent, 0, subAggregators);
        ghost var subs := subAggregators;
        ghost var id := Send(chunk, a);
        ghost var b := Batch(id, chunk.proofs);
        LoadedMore(old(subAggregators), a, sent, subs, b, subAggregators);
        FlattenBack(sent, b, Flatten(internalProofs));
        ChunkedMore(old(internalProofs), NextPowerOfTwo(n), queue, sent, chunk, b, internalProofs);
        sent := sent + [b];
        total := total + |chunk.proofs|;
      }
    }

    /** The first aggregator in load order that takes a saturating grant. */
    static method FirstAccepting(loads: seq<Load>, pendingQueueSize: nat) returns (idx: nat)
      ensures idx <= |loads|
      ensures idx < |loads| ==> Accepts(loads[idx], pendingQueueSize)
      ensures forall i :: 0 <= i < idx ==> !Accepts(loads[i], pendingQueueSize)
    {
      idx := 0;
      while idx < |loads| && !Accepts(loads[idx], pendingQueueSize)
        invariant idx <= |loads|
        invariant forall i :: 0 <= i < idx ==> !Accepts(loads[i], pendingQueueSize)
      {
        idx := idx + 1;
      }
    }

    /** Sub-aggregator `a` synchronizes, and whatever it reports is taken note of. */
    method SyncOne(a: nat)
      requires Consistent(combine, State(internalProofs)) && a in subAggregators
      modifies this`subAggregators
      ensures Consistent(combine, State(internalProofs))
      ensures SameSubs(old(subAggregators), subAggregators)
      ensures OnlyAt(old(subAggregators), a, subAggregators) && Synced(old(subAggregators[a]), subAggregators[a])
    {
      hide Consistent, AggregatorContract.Valid;
      ConsistentSub(combine, State(internalProofs), a);
      var sub := AggregatorContract.Sync(combine, subAggregators[a]);
      AdvanceKeeps(combine, State(internalProofs), a, sub);
      OnlyAtSub(subAggregators, a, sub);
      subAggregators := subAggregators[a := sub];
    }

    /** Before anything is handed out, every sub-aggregator synchronizes, once. */
    method SyncAll()
      requires Consistent(combine, State(internalProofs))
      modifies this`subAggregators
      ensures Consistent(combine, State(internalProofs))
      ensures AllSynced(old(subAggregators), subAggregators) && SameSubs(old(subAggregators), subAggregators)
    {
      hide Consistent, Synced;
      var remaining := subAggregators.Keys;
      while remaining != {}
        invariant Consistent(combine, State(internalProofs))
        invariant remaining <= subAggregators.Keys == old(subAggregators.Keys)
        invariant forall a :: a in subAggregators && a !in remaining ==>
          Synced(old(subAggregators)[a], subAggregators[a])
        invariant forall a :: a in remaining ==> subAggregators[a] == old(subAggregators)[a]
        decreases remaining
      {
        var a :| a in remaining;
        remaining := remaining - {a};
        SyncOne(a);
      }
      SyncedAreSame(old(subAggregators), subAggregators);
    }

    /** One round of the distribution loop: a saturating grant, and the load of the
        aggregator that got it brought up to date. The vector of loads stays sorted unless
        that load fell, which the load of a prompt aggregator cannot. */
    method GrantAndReload(loads: seq<Load>, idx: nat, pending: nat)
      returns (loads': seq<Load>, total: nat, ghost sent: seq<Batch<P>>)
      requires Consistent(combine, State(internalProofs)) && Accurate(loads, subAggregators)
      requires pending == |Flatten(internalProofs)| && idx < |loads| && Accepts(loads[idx], pending)
      modifies this`internalProofs, this`freeBatchIds, this`subAggregators, this`proofParents, this`proofChildren,
        this`proofAliases, this`spec, this`roots
      ensures freeBatchIds >= old(freeBatchIds)
      ensures Consistent(combine, State(internalProofs)) && Accurate(loads', subAggregators)
      ensures 0 < total <= pending && total == |Flatten(sent)|
      ensures SameSubs(old(subAggregators), subAggregators)
      ensures var a := loads[idx].aggregatorId;
        && Handed(Handout(old(subAggregators), old(Flatten(internalProofs)), a, sent), subAggregators,
                  Flatten(internalProofs))
        && a in old(subAggregators) && a in subAggregators
        && (old(subAggregators)[a].prompt ==> subAggregators[a].pending as real < BacklogLimit(loads[idx]))
        && (Sorted(loads) && !Less(LoadOf(a, subAggregators[a]), loads[idx]) ==> Sorted(loads'))
        && (Sorted(loads) && old(subAggregators)[a].prompt ==> Sorted(loads'))
      ensures old(SettledHere()) ==> SettledHere()
    {
      hide Consistent, Settled, Accurate, LoadOf, Less, WaitLess, Sorted, DistinctAggregators, Flatten,
        IsPowerOfTwo, NextPowerOfTwo, GrantSize, BacklogLimit, Loaded, SameSubs, Synced;
      var a, n := loads[idx].aggregatorId, GrantSize(loads[idx]);
      AcceptedGrant(combine, State(internalProofs), loads, idx, pending);
      total, sent := Grant(a, n);
      BacklogStaysBelow(a, old(subAggregators)[a], pending, total);
      ghost var subs := subAggregators;
      LoadedHas(old(subAggregators), a, sent, 0, subs);
      SyncOne(a);
      LoadedSynced(old(subAggregators), a, sent, subs, subAggregators);
      if old(subAggregators)[a].prompt {
        LoadNeverFalls(a, old(subAggregators)[a], subAggregators[a]);
      }
      loads' := Reload(loads, idx, LoadOf(a, subAggregators[a]));
      ReloadIsAccurate(loads, old(subAggregators), idx, subAggregators[a], loads');
    }

    /** A grant to the first aggregator in load order that accepts, if there is one. In a sorted
        vector, this is the least loaded. */
    method HandOut(loads: seq<Load>, pending: nat) returns (loads': seq<Load>, total: nat, ghost h: Handout<P>)
      requires Consistent(combine, State(internalProofs)) && Accurate(loads, subAggregators)
      requires pending == |Flatten(internalProofs)| > 0
      modifies this`internalProofs, this`freeBatchIds, this`subAggregators, this`proofParents, this`proofChildren,
        this`proofAliases, this`spec, this`roots
      ensures freeBatchIds >= old(freeBatchIds)
      ensures Consistent(combine, State(internalProofs)) && Accurate(loads', subAggregators)
      ensures total <= pending && |Flatten(internalProofs)| == pending - total
      ensures SameSubs(old(subAggregators), subAggregators)
      ensures old(SettledHere()) ==> SettledHere()
      ensures total == 0 <==> NobodyAccepts(old(subAggregators), pending)
      ensures total == 0 ==> internalProofs == old(internalProofs) && proofAliases == old(proofAliases)
      ensures total == 0 ==> subAggregators == old(subAggregators) && loads' == loads
      ensures total > 0 ==>
        && h.subs == old(subAggregators) && h.queue == old(Flatten(internalProofs))
        && Handed(h, subAggregators, Flatten(internalProofs))
        && (Sorted(loads) ==> LeastLoaded(h.subs, h.aggregatorId, pending))
      ensures Sorted(loads) && old(AllPrompt(subAggregators)) ==> Sorted(loads')
    {
      hide Consistent, Settled, Less, Flatten, SameSubs, Sorted, Accurate, AllPrompt, LeastLoaded, LoadOf, Accepts,
        BacklogLimit, NobodyAccepts, Handed, State;
      var idx := FirstAccepting(loads, pending);
      loads', total, h := loads, 0, Handout(subAggregators, [], 0, []);
      SameSubsSelf(subAggregators);
      Refusal(subAggregators, loads, idx, pending);
      if idx == |loads| {
        return;
      }
      if Sorted(loads) {
        FirstIsLeast(subAggregators, loads, idx, pending);
        if AllPrompt(subAggregators) {
          AcceptedIsPrompt(subAggregators, loads, idx);
        }
      }
      ghost var sent;
      loads', total, sent := GrantAndReload(loads, idx, pending);
      h := Handout(old(subAggregators), old(Flatten(internalProofs)), loads[idx].aggregatorId, sent);
      HandedCounts(h, subAggregators, Flatten(internalProofs));
    }

    lemma QueuedHere()
      requires Consistent(combine, State(internalProofs))
      ensures internalProofs != [] <==> |Flatten(internalProofs)| > 0
    {
      hide Consistent;
      NothingQueued(combine, State(internalProofs));
    }

    lemma SubsBelowHere()
      requires Consistent(combine, State(internalProofs))
      ensures forall a :: a in subAggregators ==> a < freeAggregatorIds
    {
      hide Consistent;
      SubsBelow(combine, State(internalProofs));
    }

    /** Everybody synchronizes, and queued batches are handed out for as long as somebody takes
        them; the trace says to whom. Work that somebody accepts, or has already, leaves
        somebody busy. */
    method Distribute() returns (ghost t: Trace<P>)
      requires Consistent(combine, State(internalProofs)) && SettledHere()
      modifies this`internalProofs, this`freeBatchIds, this`subAggregators, this`proofParents, this`proofChildren,
        this`proofAliases, this`spec, this`roots
      ensures freeBatchIds >= old(freeBatchIds)
      ensures Consistent(combine, State(internalProofs)) && SettledHere()
      ensures SameSubs(old(subAggregators), subAggregators)
      ensures Distributed(old(subAggregators), old(Flatten(internalProofs)), t)
      ensures t.loaded == subAggregators && t.queue == Flatten(internalProofs)
      ensures t.handouts == [] ==> internalProofs == old(internalProofs) && proofAliases == old(proofAliases)
      ensures old(AllPrompt(subAggregators)) ==>
        && Measure() == old(Measure())
        && (old(Busy(subAggregators)) || old(CanHandOut()) ==> Busy(subAggregators))
    {
      hide Consistent, Settled, Flatten, SubsWeight, SameSubs, Sorted, Accurate, Busy, AllPrompt, LeastLoaded, State,
        QueueTotal, NobodyAccepts, Handed, AllSynced, Distribution;
      QueuedHere();
      SubsBelowHere();
      SyncAll();
      ghost var synced := subAggregators;
      SameSubsDriven(old(subAggregators), synced);
      var loads := SortedLoads(subAggregators);
      var pendingQueueSize := QueueTotal(internalProofs);
      ghost var handouts := [];
      NothingHandedOut(synced, old(Flatten(internalProofs)));
      SameSubsSelf(synced);
      var refused := false;
      while pendingQueueSize > 0 && !refused
        invariant Consistent(combine, State(internalProofs)) && SettledHere()
        invariant freeBatchIds >= old(freeBatchIds)
        invariant pendingQueueSize == |Flatten(internalProofs)| && Accurate(loads, subAggregators)
        invariant SameSubs(synced, subAggregators)
        invariant refused ==> NobodyAccepts(subAggregators, pendingQueueSize)
        invariant Distribution(synced, old(Flatten(internalProofs)), handouts, subAggregators, Flatten(internalProofs))
        invariant handouts == [] ==> internalProofs == old(internalProofs) && proofAliases == old(proofAliases)
        invariant handouts == [] || AllPrompt(synced) ==> Sorted(loads)
        decreases pendingQueueSize, !refused
      {
        ghost var subs := subAggregators;
        SameSubsDriven(synced, subs);
        var total;
        ghost var h;
        loads, total, h := HandOut(loads, pendingQueueSize);
        SameSubsTwice(synced, subs, subAggregators);
        if total == 0 {
          refused := true;
        } else {
          OneMoreHandout(synced, old(Flatten(internalProofs)), handouts, h, subAggregators, Flatten(internalProofs));
          handouts := handouts + [h];
        }
        pendingQueueSize := pendingQueueSize - total;
      }
      t := Trace(synced, handouts, subAggregators, Flatten(internalProofs));
      SameSubsTwice(old(subAggregators), synced, subAggregators);
      if old(AllPrompt(subAggregators)) {
        DistributedWork(old(subAggregators), old(Flatten(internalProofs)), t, freeAggregatorIds);
      }
    }

    /** Somebody accepts the queue as it is. */
    ghost predicate CanHandOut()
      reads this`internalProofs, this`subAggregators
    {
      internalProofs != [] && !NobodyAccepts(subAggregators, |Flatten(internalProofs)|)
    }

    /** Two complete siblings become their parent. */
    method MergeOne(parent: Key)
      requires parent in proofChildren
      requires proofChildren[parent].left in proofDescendants && proofChildren[parent].right in proofDescendants
      modifies this`proofParents, this`proofChildren, this`proofDescendants, this`spec
      ensures State(internalProofs) == AfterMerge(old(State(internalProofs)), parent)
      ensures |proofChildren| < old(|proofChildren|)
    {
      hide Merged;
      var children := proofChildren[parent];
      assert proofChildren.Keys == (proofChildren - {parent}).Keys + {parent};
      proofDescendants := Merged(proofDescendants, children.left, children.right, parent);
      proofChildren := proofChildren - {parent};
      proofParents := proofParents - {children.left, children.right};
      spec := spec - {children.left, children.right};
    }

    /** Complete siblings are combined upwards from `k` for as long as possible. */
    method MergeUp(k: Key)
      requires Consistent(combine, State(internalProofs))
      requires Settled(proofChildren, proofDescendants, ParentOf(proofParents, k))
      modifies this`proofParents, this`proofChildren, this`proofDescendants, this`spec
      ensures Consistent(combine, State(internalProofs)) && SettledHere()
      ensures Measure() == old(Measure())
    {
      hide Consistent, Settled, AfterMerge, Merged, Flatten, SubsWeight;
      var qualified := k;
      while qualified in proofParents
        invariant Consistent(combine, State(internalProofs))
        invariant Settled(proofChildren, proofDescendants, ParentOf(proofParents, qualified))
        decreases |proofChildren|
      {
        var parent := proofParents[qualified];
        ConsistentParent(combine, State(internalProofs), qualified);
        var children := proofChildren[parent];
        if children.left in proofDescendants && children.right in proofDescendants &&
           |proofDescendants[children.left]| == |proofDescendants[children.right]|
        {
          MergeKeeps(combine, State(internalProofs), parent);
          MergeOne(parent);
          qualified := parent;
        } else {
          SettledAfterAll(proofChildren, proofDescendants, parent);
          return;
        }
      }
    }

    /** A proof popped from sub-aggregator `a` is kept as a resolved piece. */
    method Store(a: nat, sub: Aggregator<P>, e: Emitted<P>)
      requires Consistent(combine, State(internalProofs)) && SettledHere()
      requires a in subAggregators && Popped(subAggregators[a], Some(e), sub) && AggregatorContract.Valid(combine, sub)
      modifies this`subAggregators, this`subRecursiveProofs, this`proofDescendants
      ensures Consistent(combine, State(internalProofs))
      ensures Settled(proofChildren, proofDescendants, ParentOf(proofParents, Key(a, e.id)))
      ensures subAggregators == old(subAggregators)[a := sub] && Measure() == old(Measure())
    {
      hide Consistent, Settled, AggregatorContract.Valid, Flatten, SubsWeight;
      ghost var before := State(internalProofs);
      ConsistentSub(combine, before, a);
      CollectKeeps(combine, before, a, sub, e);
      SubsWeightUpdate(subAggregators, freeAggregatorIds, a, sub);
      var qualified := Key(a, e.id);
      subAggregators := subAggregators[a := sub];
      subRecursiveProofs := subRecursiveProofs[qualified := e.proof];
      proofDescendants := proofDescendants[qualified := [qualified]];
      assert State(internalProofs) == AfterCollect(before, a, sub, e);
    }

    lemma SubIsValid(a: nat)
      requires Consistent(combine, State(internalProofs)) && a in subAggregators
      ensures AggregatorContract.Valid(combine, subAggregators[a])
    {
      hide Consistent, AggregatorContract.Valid;
      ConsistentSub(combine, State(internalProofs), a);
    }

    /** The stored piece is merged with its siblings. */
    method Absorb(a: nat, sub: Aggregator<P>, e: Emitted<P>)
      requires Consistent(combine, State(internalProofs)) && SettledHere()
      requires a in subAggregators && Popped(subAggregators[a], Some(e), sub) && AggregatorContract.Valid(combine, sub)
      modifies this`subAggregators, this`subRecursiveProofs, this`proofParents, this`proofChildren,
        this`proofDescendants, this`spec
      ensures Consistent(combine, State(internalProofs)) && SettledHere()
      ensures subAggregators == old(subAggregators)[a := sub] && Measure() == old(Measure())
    {
      hide Consistent, Settled, AggregatorContract.Valid, ParentOf, Popped, SettledHere, Measure;
      Store(a, sub, e);
      MergeUp(Key(a, e.id));
    }

    /** One finished proof of sub-aggregator `a` is taken, if there is one. */
    method Collect(a: nat) returns (more: bool)
      requires Consistent(combine, State(internalProofs)) && SettledHere() && a in subAggregators
      modifies this`subAggregators, this`subRecursiveProofs, this`proofParents, this`proofChildren,
        this`proofDescendants, this`spec
      ensures Consistent(combine, State(internalProofs)) && SettledHere()
      ensures OnlyAt(old(subAggregators), a, subAggregators)
      ensures Taken(old(subAggregators[a]), subAggregators[a])
      ensures Measure() == old(Measure())
      ensures if more then |subAggregators[a].ready| < old(|subAggregators[a].ready|)
              else subAggregators == old(subAggregators) && subAggregators[a].ready == []
      ensures !more ==> proofDescendants == old(proofDescendants)
      ensures old(subAggregators[a].ready) == [] ==> !more
    {
      hide Consistent, Settled, AggregatorContract.Valid, ParentOf, Popped, SettledHere, Measure, OnlyAt, State;
      SubIsValid(a);
      var sub, e := AggregatorContract.Pop(combine, subAggregators[a]);
      OnlyAtSub(subAggregators, a, sub);
      PoppedCounts(subAggregators[a], e, sub);
      more := e.Some?;
      if more {
        Absorb(a, sub, e.value);
      }
    }

    /** Sub-aggregator `a` makes a step, and everything it has finished is collected. */
    method Advance(a: nat)
      requires Consistent(combine, State(internalProofs)) && SettledHere() && a in subAggregators
      modifies this`subAggregators, this`subRecursiveProofs, this`proofParents, this`proofChildren,
        this`proofDescendants, this`spec
      ensures Consistent(combine, State(internalProofs)) && SettledHere()
      ensures OnlyAt(old(subAggregators), a, subAggregators)
      ensures Worked(old(subAggregators[a]), subAggregators[a])
      ensures old(subAggregators[a].prompt) ==>
        Measure() <= old(Measure()) && (old(subAggregators[a].pending) > 0 ==> Measure() < old(Measure()))
      ensures old(subAggregators[a].owed) == map[] ==> proofDescendants == old(proofDescendants)
    {
      hide Consistent, Settled, AggregatorContract.Valid, Flatten, SubsWeight, OnlyAt;
      ConsistentSub(combine, State(internalProofs), a);
      var sub := AggregatorContract.Step(combine, subAggregators[a]);
      AdvanceKeeps(combine, State(internalProofs), a, sub);
      SubsWeightUpdate(subAggregators, freeAggregatorIds, a, sub);
      OnlyAtSub(subAggregators, a, sub);
      subAggregators := subAggregators[a := sub];
      ghost var subs := subAggregators;
      SyncOne(a);
      OnlyAtTwice(old(subAggregators), a, subs, subAggregators);
      SubIsValid(a);
      ghost var synced := subAggregators[a];
      NothingReady(combine, synced);
      TakenNothing(synced);
      SyncedWeight(subs, a, subAggregators, freeAggregatorIds);
      ghost var measure := Measure();
      var more := true;
      while more
        invariant Consistent(combine, State(internalProofs)) && SettledHere()
        invariant a in subAggregators && OnlyAt(old(subAggregators), a, subAggregators)
        invariant Taken(synced, subAggregators[a])
        invariant Measure() == measure
        invariant !more ==> subAggregators[a].ready == []
        invariant old(subAggregators[a].owed) == map[] ==>
          subAggregators[a].ready == [] && proofDescendants == old(proofDescendants)
        decreases more, |subAggregators[a].ready|
      {
        subs := subAggregators;
        more := Collect(a);
        OnlyAtTwice(old(subAggregators), a, subs, subAggregators);
        TakenTwice(synced, subs[a], subAggregators[a]);
      }
      TakenWorked(old(subAggregators)[a], sub, synced, subAggregators[a]);
    }

    /** Every sub-aggregator makes one step. */
    method Prove()
      requires Consistent(combine, State(internalProofs)) && SettledHere()
      modifies this`subAggregators, this`subRecursiveProofs, this`proofParents, this`proofChildren,
        this`proofDescendants, this`spec
      ensures Consistent(combine, State(internalProofs)) && SettledHere()
      ensures SameSubs(old(subAggregators), subAggregators) && subAggregators.Keys == old(subAggregators.Keys)
      ensures forall a :: a in subAggregators ==> Worked(old(subAggregators)[a], subAggregators[a])
      ensures old(AllPrompt(subAggregators)) ==>
        && Measure() <= old(Measure())
        && (old(Busy(subAggregators)) ==> Measure() < old(Measure()))
      ensures old(NothingOwed(subAggregators)) ==> proofDescendants == old(proofDescendants)
    {
      hide Consistent, Settled, Flatten, SubsWeight, Proving, Busy, AllPrompt, Worked;
      var remaining := subAggregators.Keys;
      ProvingStarts(subAggregators, Measure());
      while remaining != {}
        invariant Consistent(combine, State(internalProofs)) && SettledHere()
        invariant remaining <= subAggregators.Keys == old(subAggregators.Keys)
        invariant Proving(old(subAggregators), old(Measure()), remaining, subAggregators, Measure())
        invariant old(NothingOwed(subAggregators)) ==> proofDescendants == old(proofDescendants)
        decreases remaining
      {
        var a :| a in remaining;
        ghost var subs, measure := subAggregators, Measure();
        Advance(a);
        ProvingOne(old(subAggregators), old(Measure()), remaining, subs, measure, a, subAggregators, Measure());
        remaining := remaining - {a};
      }
      ProvingEnds(old(subAggregators), old(Measure()), subAggregators, Measure());
    }

    /** A merged piece goes back to the front of the queue. */
    method Requeue(k: Key)
      requires Consistent(combine, State(internalProofs)) && SettledHere() && Requeues(State(internalProofs), k)
      modifies this`internalProofs, this`subRecursiveProofs, this`proofDescendants
      ensures Consistent(combine, State(internalProofs)) && SettledHere()
      ensures State(internalProofs) == AfterRequeue(old(State(internalProofs)), k)
      ensures Measure() == old(Measure())
    {
      hide Consistent, Settled, SubsWeight, IsPowerOfTwo, Flatten;
      ghost var before := State(internalProofs);
      RequeueKeeps(combine, before, k);
      var descendants := proofDescendants[k];
      var proofs := AggregationForest.Collect(subRecursiveProofs, descendants);
      FlattenFront(Batch(k.batch, proofs), internalProofs);
      subRecursiveProofs := subRecursiveProofs - KeySet(descendants);
      internalProofs := [Batch(k.batch, proofs)] + internalProofs;
      proofDescendants := proofDescendants - {k};
      assert State(internalProofs) == AfterRequeue(before, k);
    }

    /** The alias of a root is resolved: its proof moves to the output. */
    method Release(k: Key)
      requires k in proofAliases && k in proofDescendants && proofDescendants[k] == [k] && k in subRecursiveProofs
      modifies this`recursiveProofs, this`subRecursiveProofs, this`proofAliases, this`proofDescendants, this`spec,
        this`roots
      ensures State(internalProofs) == AfterEmit(old(State(internalProofs)), k)
      ensures |subRecursiveProofs| + |recursiveProofs| <= old(|subRecursiveProofs| + |recursiveProofs|)
    {
      var alias, descendants := proofAliases[k], proofDescendants[k];
      assert subRecursiveProofs.Keys == (subRecursiveProofs - {k}).Keys + {k};
      proofAliases := proofAliases - {k};
      recursiveProofs := recursiveProofs + [Emitted(alias, subRecursiveProofs[descendants[0]])];
      subRecursiveProofs := subRecursiveProofs - {descendants[0]};
      proofDescendants := proofDescendants - {k};
      spec, roots := spec - {k}, roots - {alias};
    }

    /** A finished root moves to the output, under the id its batch was pushed with. */
    method Emit(k: Key)
      requires Consistent(combine, State(internalProofs)) && SettledHere()
      requires k in proofDescendants && |proofDescendants[k]| == 1 && k in proofAliases
      modifies this`recursiveProofs, this`subRecursiveProofs, this`proofAliases, this`proofDescendants, this`spec,
        this`roots
      ensures Consistent(combine, State(internalProofs)) && SettledHere()
      ensures k in old(subRecursiveProofs) && State(internalProofs) == AfterEmit(old(State(internalProofs)), k)
      ensures Backlog() <= old(Backlog())
    {
      hide Consistent, Settled, SubsWeight, Flatten;
      ConsistentEntry(combine, State(internalProofs), k);
      EmitKeeps(combine, State(internalProofs), k);
      Release(k);
    }

    /** A merged piece is queued again, the proof of a root is put out, and a single piece that
        is not a root waits for its sibling. */
    method ConsolidateOne(k: Key)
      requires Consistent(combine, State(internalProofs)) && SettledHere() && k in proofDescendants
      modifies this`internalProofs, this`recursiveProofs, this`subRecursiveProofs, this`proofAliases,
        this`proofDescendants, this`spec, this`roots
      ensures Consistent(combine, State(internalProofs)) && SettledHere()
      ensures Backlog() <= old(Backlog())
      ensures ConsolidatedOne(old(State(internalProofs)), k, State(internalProofs))
    {
      hide Consistent, Settled, SubsWeight, Flatten, Requeues;
      ConsistentEntry(combine, State(internalProofs), k);
      if |proofDescendants[k]| > 1 {
        RequeuesMeans(State(internalProofs), k);
        Requeue(k);
      } else if k in proofAliases {
        Emit(k);
      }
    }

    lemma StateFields()
      ensures var s := State(internalProofs);
        && s.queue == internalProofs && s.output == recursiveProofs
        && s.descendants == proofDescendants && s.aliases == proofAliases
    {
    }

    /** Every resolved piece is visited once. */
    method Consolidate()
      requires Consistent(combine, State(internalProofs)) && SettledHere()
      modifies this`internalProofs, this`recursiveProofs, this`subRecursiveProofs, this`proofAliases,
        this`proofDescendants, this`spec, this`roots
      ensures Consistent(combine, State(internalProofs)) && SettledHere()
      ensures Waiting()
      ensures Backlog() <= old(Backlog())
      ensures Consolidated(old(State(internalProofs)), old(proofDescendants.Keys), State(internalProofs))
      ensures old(recursiveProofs) <= recursiveProofs
      ensures old(Waiting()) ==> internalProofs == old(internalProofs) && recursiveProofs == old(recursiveProofs)
    {
      hide Consistent, Settled, SubsWeight, Flatten, SettledHere, Consolidated, ConsolidatedOne, State, Measure;
      ghost var all, before := proofDescendants.Keys, State(internalProofs);
      var remaining := proofDescendants.Keys;
      ConsolidatedNothing(before);
      StateFields();
      assert all - remaining == {};
      while remaining != {}
        invariant Consistent(combine, State(internalProofs)) && SettledHere()
        invariant remaining <= proofDescendants.Keys && remaining <= all
        invariant Consolidated(before, all - remaining, State(internalProofs))
        invariant Backlog() <= old(Backlog())
        decreases remaining
      {
        var k :| k in remaining;
        ghost var now := State(internalProofs);
        StateFields();
        ConsolidateOne(k);
        StateFields();
        ConsolidatedNext(before, all - remaining, now, k, State(internalProofs));
        assert all - remaining + {k} == all - (remaining - {k});
        remaining := remaining - {k};
      }
      StateFields();
      assert all - remaining == all;
      ConsolidatedAll(combine, before, State(internalProofs));
    }

    lemma IdleHere()
      requires Consistent(combine, State(internalProofs))
      ensures PendingQueueSize() == 0 <==> internalProofs == [] && !Busy(subAggregators)
    {
      hide Consistent, Busy, QueueTotal, SubsPending;
      NothingPending(combine, State(internalProofs));
    }

    /** Prompt sub-aggregators without pending proofs, whose finished proofs were collected,
        and an empty queue have nothing left to do. */
    lemma IdleIsFinished()
      requires Valid()
      ensures AllPrompt(subAggregators) && Collected(subAggregators) && PendingQueueSize() == 0 ==> !Unfinished()
    {
      hide Consistent, Settled, AllPrompt, Collected, Busy;
      IdleHere();
      if AllPrompt(subAggregators) && Collected(subAggregators) && PendingQueueSize() == 0 {
        IdleIsDone(combine, State(internalProofs));
      }
      Accounts(combine, State(internalProofs));
    }

    /** There is no proof to pop, nobody has work, and the queue is too short for everybody. */
    ghost predicate Stuck()
      reads this`internalProofs, this`recursiveProofs, this`subAggregators
    {
      recursiveProofs == [] && Unable(subAggregators, |Flatten(internalProofs)|)
    }

    /** Prompt members without work, whose finished proofs were collected, that accept nothing. */
    lemma StuckHere()
      requires Consistent(combine, State(internalProofs))
      ensures Stuck() ==>
        && AllPrompt(subAggregators) && NothingOwed(subAggregators)
        && NobodyAccepts(subAggregators, |Flatten(internalProofs)|)
      ensures AllPrompt(subAggregators) && Collected(subAggregators) && recursiveProofs == [] ==>
        Busy(subAggregators) || CanHandOut() || Stuck()
      ensures forall a :: a in subAggregators ==> a < freeAggregatorIds
    {
      hide Shaped, Valued, Numbered, Honest, Accounted, DistinctBatches, AllPrompt, Collected, Busy, NobodyAccepts,
        SubsValid, Unable;
      SubsBelowHere();
      IdleRefuse(combine, subAggregators, |Flatten(internalProofs)|);
      UnableIsIdle(subAggregators, |Flatten(internalProofs)|);
      if internalProofs == [] {
        NothingRefused(combine, subAggregators);
      }
    }

    /** Everybody makes one step, and what came out of it is merged, re-queued and emitted. */
    method ProveAndConsolidate()
      requires Consistent(combine, State(internalProofs)) && SettledHere()
      modifies this`internalProofs, this`subAggregators, this`proofParents, this`proofChildren, this`proofAliases,
        this`spec, this`roots, this`subRecursiveProofs, this`proofDescendants, this`recursiveProofs
      ensures Valid() && old(recursiveProofs) <= recursiveProofs
      ensures SameSubs(old(subAggregators), subAggregators) && subAggregators.Keys == old(subAggregators.Keys)
      ensures forall a :: a in subAggregators ==> Worked(old(subAggregators)[a], subAggregators[a])
      ensures old(AllPrompt(subAggregators)) ==>
        && Backlog() <= old(Backlog())
        && (old(Busy(subAggregators)) ==> Backlog() < old(Backlog()))
      ensures old(NothingOwed(subAggregators) && Waiting()) ==>
        && NothingOwed(subAggregators)
        && internalProofs == old(internalProofs) && recursiveProofs == old(recursiveProofs)
    {
      hide Consistent, Settled, Flatten, SubsWeight, AllPrompt, Busy, State, SameSubs, NothingOwed, SettledHere,
        Measure, Worked, Waiting, Consolidated;
      Prove();
      NothingOwedStill(old(subAggregators), subAggregators);
      Consolidate();
    }

    /** Everybody synchronizes, work is handed out as the trace says until nobody accepts, and
        then everybody makes one step. */
    method DistributeAndProve() returns (ghost t: Trace<P>)
      requires Valid()
      modifies this`internalProofs, this`freeBatchIds, this`subAggregators, this`proofParents, this`proofChildren,
        this`proofAliases, this`spec, this`roots, this`subRecursiveProofs, this`proofDescendants, this`recursiveProofs
      ensures Valid() && freeBatchIds >= old(freeBatchIds) && old(recursiveProofs) <= recursiveProofs
      ensures Distributed(old(subAggregators), old(Flatten(internalProofs)), t)
      ensures t.loaded.Keys == subAggregators.Keys && SameSubs(old(subAggregators), subAggregators)
      ensures forall a :: a in subAggregators ==> Worked(t.loaded[a], subAggregators[a])
      ensures old(AllPrompt(subAggregators)) ==>
        && Backlog() <= old(Backlog())
        && (old(Busy(subAggregators)) || old(CanHandOut()) ==> Backlog() < old(Backlog()))
      ensures old(Stuck()) ==> Stuck() && internalProofs == old(internalProofs)
    {
      hide Consistent, Settled, Flatten, SubsWeight, AllPrompt, Busy, State, SameSubs, Distributed, Unable,
        NobodyAccepts, NothingOwed, SettledHere, Measure, Worked, CanHandOut, Waiting;
      StuckHere();
      t := Distribute();
      ghost var subs := subAggregators;
      if old(Stuck()) {
        StuckStays(old(subAggregators), old(Flatten(internalProofs)), t, freeAggregatorIds);
      }
      SameSubsDriven(old(subAggregators), subs);
      ProveAndConsolidate();
      SameSubsTwice(old(subAggregators), subs, subAggregators);
      if old(Stuck()) {
        StillUnable(old(subAggregators), subAggregators, |Flatten(internalProofs)|);
      }
    }

    /** Among prompt members a step makes progress if one of them has work or accepts some; with
        a slow enough member, that is if anything is pending. */
    method Step() returns (ghost t: Trace<P>)
      requires Valid()
      modifies this
      ensures Valid() && AggregatorContract.Valid(combine, View())
      ensures Stepped(old(View()), View())
      ensures Distributed(old(subAggregators), old(Flatten(internalProofs)), t)
      ensures t.loaded.Keys == subAggregators.Keys
      ensures forall a :: a in subAggregators ==> Worked(t.loaded[a], subAggregators[a])
      ensures freeAggregatorIds == old(freeAggregatorIds) && SameSubs(old(subAggregators), subAggregators)
      ensures Collected(subAggregators)
      ensures old(AllPrompt(subAggregators)) ==>
        && Backlog() <= old(Backlog())
        && (old(Busy(subAggregators)) || old(CanHandOut()) ==> Backlog() < old(Backlog()))
      ensures old(Driven(subAggregators)) && old(PendingQueueSize()) > 0 ==> Backlog() < old(Backlog())
      ensures old(Stuck()) ==> Stuck() && internalProofs == old(internalProofs)
    {
      hide Consistent, Settled, Flatten, SubsWeight, AggregatorContract.Valid, QueueTotal, SubsPending,
        SubsThroughput, AllPrompt, Busy, State, Driven, SameSubs, Distributed, Unable, NobodyAccepts, NothingOwed,
        SettledHere, Measure, Worked, Collected, CanHandOut, PendingQueueSize, Stuck;
      PendingHere();
      t := DistributeAndProve();
      steps := steps + 1;
      AllWorkedIsCollected(t.loaded, subAggregators);
      SameSubsDriven(old(subAggregators), subAggregators);
      ViewIsValid();
      ThroughputHere(old(subAggregators));
    }

    lemma ThroughputHere(subs: map<nat, Aggregator<P>>)
      requires SameSubs(subs, subAggregators)
      ensures AllPrompt(subs) ==> ProofThroughput() == SubsThroughput(subs, freeAggregatorIds)
    {
      hide SubsThroughput, SameSubs, AllPrompt;
      SameSubsThroughput(subs, subAggregators, freeAggregatorIds);
    }

    /** In a team with a slow enough member, whatever is pending can be worked on. */
    lemma PendingHere()
      requires Consistent(combine, State(internalProofs))
      ensures Driven(subAggregators) ==>
        AllPrompt(subAggregators) && (PendingQueueSize() > 0 ==> Busy(subAggregators) || CanHandOut())
    {
      hide Consistent, Busy, NobodyAccepts, Flatten, AllPrompt;
      IdleHere();
      SameSubsSelf(subAggregators);
      SameSubsDriven(subAggregators, subAggregators);
      if internalProofs != [] && NobodyAccepts(subAggregators, |Flatten(internalProofs)|) {
        RefusalMeansBusy(combine, State(internalProofs));
      }
    }

    /** Some batch has been pushed and its proof is not yet in the output. */
    ghost predicate Unfinished()
      reads this
    {
      exists id :: id in owed && id !in Ids(recursiveProofs)
    }

    /** This aggregator as its own caller sees it. */
    ghost function View(): Aggregator<P>
      reads this
    {
      Aggregator(owed, recursiveProofs, freeBatchIds, PendingQueueSize(), ProofThroughput(), Measure(),
                 Driven(subAggregators) && Collected(subAggregators), steps, syncs)
    }

    /** The contract holds for this aggregator too, so it may work for another one. */
    lemma ViewIsValid()
      requires Valid()
      ensures AggregatorContract.Valid(combine, View())
    {
      hide Consistent, Settled, AggregatorContract.Valid, SubsPending, SubsThroughput, QueueTotal, Collected, AllPrompt;
      ConsistentView(combine, State(internalProofs), View());
    }

    function PendingQueueSize(): nat
      reads this`internalProofs, this`subAggregators, this`freeAggregatorIds
    {
      QueueTotal(internalProofs) + SubsPending(subAggregators, freeAggregatorIds)
    }

    function ProofThroughput(): real
      reads this`subAggregators, this`freeAggregatorIds
    {
      SubsThroughput(subAggregators, freeAggregatorIds)
    }

    method PushInternalProofs(proofs: seq<P>) returns (batchId: nat)
      requires Valid() && IsBatch(proofs)
      modifies this
      ensures Valid() && AggregatorContract.Valid(combine, View())
      ensures Pushed(old(View()), proofs, batchId, View())
      ensures freeAggregatorIds == old(freeAggregatorIds) && subAggregators == old(subAggregators)
      ensures View().pending == old(View()).pending + |proofs| && Measure() == old(Measure()) + |proofs|
      ensures owed == old(owed)[batchId := proofs] && batchId !in old(owed)
      ensures internalProofs == old(internalProofs) + [Batch(batchId, proofs)]
      ensures |Flatten(internalProofs)| == old(|Flatten(internalProofs)|) + |proofs|
      ensures proofDescendants == old(proofDescendants)
    {
      hide Consistent, Settled, AggregatorContract.Valid, IsPowerOfTwo, SubsPending, SubsThroughput, QueueTotal,
        Driven, Collected, SubsWeight, Root, Flatten;
      ghost var before := State(internalProofs);
      QueueTotalBack(internalProofs, Batch(freeBatchIds, proofs));
      PushKeeps(combine, before, proofs);
      batchId := freeBatchIds;
      freeBatchIds := freeBatchIds + 1;
      internalProofs := internalProofs + [Batch(batchId, proofs)];
      owed := owed[batchId := proofs];
      spec := spec[Key(aggregatorId, batchId) := Root(combine, proofs)];
      roots := roots[batchId := Key(aggregatorId, batchId)];
      assert State(internalProofs) == AfterPush(combine, before, proofs);
      ViewIsValid();
    }

    method PopRecursiveProof() returns (e: Option<Emitted<P>>)
      requires Valid()
      modifies this`owed, this`recursiveProofs
      ensures Valid() && AggregatorContract.Valid(combine, View()) && Popped(old(View()), e, View())
      ensures e.Some? ==>
        && e.value.id in old(owed) && IsBatch(old(owed)[e.value.id])
        && e.value.proof == Root(combine, old(owed)[e.value.id])
      ensures freeAggregatorIds == old(freeAggregatorIds) && subAggregators == old(subAggregators)
      ensures Measure() == old(Measure())
    {
      hide Consistent, Settled, AggregatorContract.Valid, IsPowerOfTwo, Root, Flatten, SubsWeight;
      if recursiveProofs == [] {
        e := None;
      } else {
        PopKeeps(combine, State(internalProofs));
        e := Some(recursiveProofs[0]);
        recursiveProofs := recursiveProofs[1..];
        owed := owed - {e.value.id};
      }
      ViewIsValid();
    }

    method Attach(sub: Aggregator<P>) returns (id: nat)
      requires Valid() && AggregatorContract.Valid(combine, sub)
      modifies this`subAggregators, this`freeAggregatorIds, this`spec
      ensures Valid()
      ensures id !in old(subAggregators) && subAggregators == old(subAggregators)[id := sub]
      ensures id == old(freeAggregatorIds) && freeAggregatorIds == id + 1
    {
      hide Consistent, Settled, AggregatorContract.Valid, Foreign;
      InsertKeeps(combine, State(internalProofs), sub);
      id := freeAggregatorIds;
      freeAggregatorIds := freeAggregatorIds + 1;
      subAggregators := subAggregators[id := sub];
      spec := spec + Foreign(combine, id, sub.owed);
    }

    /** Whatever the new sub-aggregator already holds, for others, is its own affair: its
        proofs will be taken, but they are pieces of nothing. Its load adds to the team's. */
    method InsertSubAggregator(sub: Aggregator<P>) returns (id: nat)
      requires Valid() && AggregatorContract.Valid(combine, sub)
      modifies this`subAggregators, this`freeAggregatorIds, this`spec
      ensures Valid() && AggregatorContract.Valid(combine, View())
      ensures id !in old(subAggregators) && subAggregators == old(subAggregators)[id := sub]
      ensures id == old(freeAggregatorIds) && freeAggregatorIds == id + 1
      ensures PendingQueueSize() == old(PendingQueueSize()) + sub.pending
      ensures ProofThroughput() == old(ProofThroughput()) + sub.throughput
    {
      hide Valid, AggregatorContract.Valid, QueueTotal, SubsPending, SubsThroughput, View;
      id := Attach(sub);
      SubsInsert(old(subAggregators), id, sub);
      ViewIsValid();
    }

    method Sync()
      requires Valid()
      modifies this`subAggregators, this`syncs
      ensures Valid() && AggregatorContract.Valid(combine, View()) && Synced(old(View()), View())
      ensures AllSynced(old(subAggregators), subAggregators)
    {
      hide Consistent, Settled, AggregatorContract.Valid, SubsPending, SubsThroughput, SubsWeight, Flatten, QueueTotal,
        AllSynced, SameSubs, Driven, Collected, AllPrompt;
      SyncAll();
      syncs := syncs + 1;
      SyncedSums(old(subAggregators), subAggregators, freeAggregatorIds);
      ViewIsValid();
    }

    /** One call of a run, entered in its log. */
    method Perform(call: Call<P>, ghost calls: seq<Call<P>>, ids: seq<nat>, emitted: seq<Emitted<P>>)
      returns (ids': seq<nat>, emitted': seq<Emitted<P>>)
      requires Valid() && Legal(combine, call) && Logged(combine, calls, ids, emitted, View())
      modifies this
      ensures Valid() && Logged(combine, calls + [call], ids', emitted', View())
    {
      hide Valid, IsBatch, Popped, Pushed, Advanced, AggregatorContract.Valid, Driven, Collected, SameSubs, Nearer,
        Logged, Measure, PendingQueueSize, ProofThroughput;
      ids', emitted' := ids, emitted;
      ghost var before := View();
      match call {
        case PushCall(proofs) =>
          var id := PushInternalProofs(proofs);
          LoggedPush(combine, calls, ids, emitted, before, proofs, id, View());
          ids' := ids + [id];
        case StepCall =>
          var _ := Step();
          LoggedAdvance(combine, calls, StepCall, ids, emitted, before, View());
        case SyncCall =>
          Sync();
          LoggedAdvance(combine, calls, SyncCall, ids, emitted, before, View());
        case PopCall =>
          ViewIsValid();
          var e := PopRecursiveProof();
          LoggedPop(combine, calls, ids, emitted, before, e, View());
          emitted' := emitted + if e.Some? then [e.value] else [];
        case InsertCall(sub) =>
          var _ := InsertSubAggregator(sub);
          LoggedInsert(combine, calls, sub, ids, emitted, before, View());
        case Elapse =>
          LoggedAdvance(combine, calls, Elapse, ids, emitted, before, before);
      }
    }

    /** Steps until a proof comes out, but no more than so many times. If none has come out after
        more steps than there is work left, none ever will. */
    method Drive(limit: nat) returns (e: Option<Emitted<P>>)
      requires Valid() && AllPrompt(subAggregators) && Collected(subAggregators)
      modifies this
      ensures Valid() && AllPrompt(subAggregators) && Collected(subAggregators)
      ensures match e
        case None => owed == old(owed)
        case Some(v) =>
          && v.id in old(owed) && IsBatch(old(owed)[v.id]) && v.proof == Root(combine, old(owed)[v.id])
          && owed == old(owed) - {v.id}
      ensures e.None? && limit > old(Backlog()) ==> Stuck()
      ensures e.None? && limit > old(Backlog()) && old(Driven(subAggregators)) ==> owed == map[]
      ensures old(Stuck()) ==> e.None? && Stuck() && internalProofs == old(internalProofs)
    {
      hide Consistent, Settled, AggregatorContract.Valid, IsPowerOfTwo, Root, State, Collected, SameSubs, AllPrompt,
        Unable, CanHandOut, Busy;
      for i := 0 to limit
        invariant Valid() && AllPrompt(subAggregators) && Collected(subAggregators) && owed == old(owed)
        invariant Stuck() || Backlog() + i <= old(Backlog())
        invariant old(Driven(subAggregators)) ==> Driven(subAggregators)
        invariant old(Stuck()) ==> Stuck() && internalProofs == old(internalProofs)
      {
        e := PopRecursiveProof();
        if e.Some? {
          return;
        }
        StuckHere();
        ghost var subs := subAggregators;
        var _ := Step();
        SameSubsDriven(subs, subAggregators);
      }
      e := PopRecursiveProof();
      if e.None? && Driven(subAggregators) && owed != map[] {
        DrivenIsNotStuck();
      }
    }

    /** With a slow enough member, whatever is owed can be worked on. */
    lemma DrivenIsNotStuck()
      requires Valid() && Driven(subAggregators) && owed != map[]
      ensures !Stuck()
    {
      hide Consistent, Settled, Flatten, AllPrompt, NothingOwed;
      if Stuck() {
        NothingQueued(combine, State(internalProofs));
        NothingOwedIsDone(combine, State(internalProofs));
        Accounts(combine, State(internalProofs));
        SomethingOwed(owed);
      }
    }

    /** Steps until a proof comes out: in a team of prompt members, one of them slow enough,
        this ends for as long as anything is owed. */
    method NextProof() returns (e: Emitted<P>)
      requires Valid() && Driven(subAggregators) && Collected(subAggregators) && owed != map[]
      modifies this
      ensures Valid() && Driven(subAggregators) && Collected(subAggregators)
      ensures e.id in old(owed) && IsBatch(old(owed)[e.id]) && e.proof == Root(combine, old(owed)[e.id])
      ensures owed == old(owed) - {e.id}
    {
      hide Consistent, Settled, AggregatorContract.Valid, IsPowerOfTwo, Root, State, Collected, SameSubs, AllPrompt;
      while true
        invariant Valid() && Driven(subAggregators) && Collected(subAggregators) && owed == old(owed)
        decreases Backlog()
      {
        var popped := PopRecursiveProof();
        if popped.Some? {
          return popped.value;
        }
        IdleIsFinished();
        SomethingOwed(owed);
        ghost var subs := subAggregators;
        var _ := Step();
        SameSubsDriven(subs, subAggregators);
      }
    }
  }

  // ---------------------------------------------------------------- whole runs

  /** A new aggregator under any schedule of calls, whatever its sub-aggregators do. The ids
      are those its caller got for the batches of the schedule. */
  method RunSchedule<P>(combine: (P, P) -> P, schedule: seq<Call<P>>)
      returns (ids: seq<nat>, emitted: seq<Emitted<P>>, ghost last: Aggregator<P>)
    requires forall call :: call in schedule ==> Legal(combine, call)
    ensures |ids| == |Pushes(schedule)| && DistinctNats(ids)
    ensures OnlyRoots(combine, Assigned(ids, Pushes(schedule)), emitted)
    ensures Logged(combine, schedule, ids, emitted, last)
  {
    hide RecursiveAggregator.Valid, Logged, Legal, OnlyRoots, Pushes, Assigned, DistinctNats;
    var aggregator := new RecursiveAggregator(combine);
    ids, emitted := [], [];
    LoggedNothing(combine, aggregator.View());
    for i := 0 to |schedule|
      invariant fresh(aggregator) && aggregator.combine == combine && aggregator.Valid()
      invariant Logged(combine, schedule[..i], ids, emitted, aggregator.View())
    {
      assert schedule[i] in schedule && schedule[..i + 1] == schedule[..i] + [schedule[i]];
      ids, emitted := aggregator.Perform(schedule[i], schedule[..i], ids, emitted);
    }
    assert schedule[..|schedule|] == schedule;
    last := aggregator.View();
    LoggedMeans(combine, schedule, ids, emitted, last);
  }

  /** Of the sub-aggregators, those not in `remaining` have made their step. */
  ghost predicate Proving<P>(subs: map<nat, Aggregator<P>>, measure: nat, remaining: set<nat>,
      subs': map<nat, Aggregator<P>>, measure': nat) {
    && subs'.Keys == subs.Keys
    && (forall a :: a in subs && a !in remaining ==> Worked(subs[a], subs'[a]))
    && (forall a :: a in subs && a in remaining ==> subs'[a] == subs[a])
    && (AllPrompt(subs) ==>
          && measure' <= measure
          && forall a :: a in subs && a !in remaining && subs[a].pending > 0 ==> measure' < measure)
  }

  lemma ProvingStarts<P>(subs: map<nat, Aggregator<P>>, measure: nat)
    ensures Proving(subs, measure, subs.Keys, subs, measure)
  {
  }

  lemma ProvingOne<P>(subs: map<nat, Aggregator<P>>, measure: nat, remaining: set<nat>,
      subs': map<nat, Aggregator<P>>, measure': nat, a: nat, subs'': map<nat, Aggregator<P>>, measure'': nat)
    requires Proving(subs, measure, remaining, subs', measure') && a in remaining && a in subs' && a in subs''
    requires OnlyAt(subs', a, subs'') && Worked(subs'[a], subs''[a])
    requires subs'[a].prompt ==> measure'' <= measure' && (subs'[a].pending > 0 ==> measure'' < measure')
    ensures Proving(subs, measure, remaining - {a}, subs'', measure'') && subs'[a] == subs[a]
  {
    hide Worked;
  }

  lemma ProvingEnds<P>(subs: map<nat, Aggregator<P>>, measure: nat, subs': map<nat, Aggregator<P>>, measure': nat)
    requires Proving(subs, measure, {}, subs', measure')
    ensures SameSubs(subs, subs') && forall a :: a in subs ==> Worked(subs[a], subs'[a])
    ensures AllPrompt(subs) ==> measure' <= measure && (Busy(subs) ==> measure' < measure)
  {
  }

  /** Of the sub-aggregators, `a` alone may have changed. */
  ghost predicate OnlyAt<P>(subs: map<nat, Aggregator<P>>, a: nat, subs': map<nat, Aggregator<P>>) {
    a in subs && a in subs' && subs' == subs[a := subs'[a]]
  }

  lemma OnlyAtSub<P>(subs: map<nat, Aggregator<P>>, a: nat, sub: Aggregator<P>)
    requires a in subs
    ensures OnlyAt(subs, a, subs) && OnlyAt(subs, a, subs[a := sub])
  {
  }

  lemma OnlyAtTwice<P>(subs: map<nat, Aggregator<P>>, a: nat, subs': map<nat, Aggregator<P>>,
      subs'': map<nat, Aggregator<P>>)
    requires OnlyAt(subs, a, subs') && OnlyAt(subs', a, subs'')
    ensures OnlyAt(subs, a, subs'') && a in subs && a in subs' && a in subs''
  {
  }

  lemma NothingOwedStill<P>(subs: map<nat, Aggregator<P>>, subs': map<nat, Aggregator<P>>)
    requires subs'.Keys == subs.Keys && forall a :: a in subs ==> Worked(subs[a], subs'[a])
    ensures NothingOwed(subs) ==> NothingOwed(subs')
  {
  }

  lemma AllWorkedIsCollected<P>(subs: map<nat, Aggregator<P>>, subs': map<nat, Aggregator<P>>)
    requires subs'.Keys == subs.Keys && forall a :: a in subs ==> Worked(subs[a], subs'[a])
    ensures Collected(subs')
  {
  }

  lemma NothingReady<P>(combine: (P, P) -> P, s: Aggregator<P>)
    requires Valid(combine, s)
    ensures s.owed == map[] ==> s.ready == []
  {
    hide Root, IsPowerOfTwo, Open;
    if s.ready != [] {
      assert s.ready[0] in s.ready;
    }
  }

  lemma PoppedCounts<P>(s: Aggregator<P>, e: Option<Emitted<P>>, s': Aggregator<P>)
    requires Popped(s, e, s')
    ensures Taken(s, s') && if e.Some? then |s'.ready| < |s.ready| else s' == s && s.ready == []
  {
  }

  lemma LoadedNothing<P>(subs: map<nat, Aggregator<P>>, a: nat)
    requires a in subs
    ensures Loaded(subs, a, [], 0, subs)
  {
    GivenNothing(subs[a]);
  }

  lemma LoadedHas<P>(subs: map<nat, Aggregator<P>>, a: nat, sent: seq<Batch<P>>, syncs: nat,
      subs': map<nat, Aggregator<P>>)
    requires Loaded(subs, a, sent, syncs, subs')
    ensures a in subs && a in subs' && SameSubs(subs, subs') && SameKind(subs[a], subs'[a])
    ensures subs[a].prompt ==> subs'[a].pending == subs[a].pending + |Flatten(sent)|
  {
    hide Flatten, Holding;
  }

  lemma LoadedMore<P>(subs: map<nat, Aggregator<P>>, a: nat, sent: seq<Batch<P>>, subs': map<nat, Aggregator<P>>,
      b: Batch<P>, subs'': map<nat, Aggregator<P>>)
    requires Loaded(subs, a, sent, 0, subs') && OnlyAt(subs', a, subs'') && a in subs' && a in subs''
    requires Pushed(subs'[a], b.proofs, b.id, subs''[a]) && IsBatch(b.proofs)
    ensures Loaded(subs, a, sent + [b], 0, subs'')
  {
    hide Given, IsBatch, Valid;
    GivenMore(subs[a], sent, subs'[a], b, subs''[a]);
  }

  /** Synchronizing after the grant changes no aggregator but the one that got it, and nothing
      of importance in that one if it is prompt. */
  lemma LoadedSynced<P>(subs: map<nat, Aggregator<P>>, a: nat, sent: seq<Batch<P>>, subs': map<nat, Aggregator<P>>,
      subs'': map<nat, Aggregator<P>>)
    requires Loaded(subs, a, sent, 0, subs') && OnlyAt(subs', a, subs'') && a in subs' && a in subs''
    requires Synced(subs'[a], subs''[a])
    ensures Loaded(subs, a, sent, 1, subs'') && SameSubs(subs, subs'')
    ensures a in subs && subs'' == subs[a := subs''[a]]
    ensures subs[a].prompt ==>
      && subs''[a].throughput == subs[a].throughput && subs''[a].pending == subs[a].pending + |Flatten(sent)|
  {
    GivenSynced(subs[a], sent, subs'[a], subs''[a]);
    hide Holding, Flatten;
  }

  lemma SyncedAreSame<P>(subs: map<nat, Aggregator<P>>, subs': map<nat, Aggregator<P>>)
    requires AllSynced(subs, subs')
    ensures SameSubs(subs, subs')
  {
  }

  /** A prompt aggregator weighs the same after synchronizing. */
  lemma SyncedWeight<P>(subs: map<nat, Aggregator<P>>, a: nat, subs': map<nat, Aggregator<P>>, n: nat)
    requires a in subs && a in subs' && OnlyAt(subs, a, subs') && Synced(subs[a], subs'[a])
    ensures subs[a].prompt ==> SubsWeight(subs', n) == SubsWeight(subs, n)
  {
    SubsWeightUpdate(subs, n, a, subs'[a]);
  }

  /** Synchronizing changes nothing of importance among prompt aggregators. */
  lemma {:induction false} SyncedWeights<P>(subs: map<nat, Aggregator<P>>, subs': map<nat, Aggregator<P>>, n: nat)
    requires AllSynced(subs, subs') && AllPrompt(subs)
    ensures SubsWeight(subs', n) == SubsWeight(subs, n)
  {
    if n > 0 {
      SyncedWeights(subs, subs', n - 1);
    }
  }

  lemma {:induction false} SyncedPending<P>(subs: map<nat, Aggregator<P>>, subs': map<nat, Aggregator<P>>, n: nat)
    requires AllSynced(subs, subs') && AllPrompt(subs)
    ensures SubsPending(subs', n) == SubsPending(subs, n) && SubsThroughput(subs', n) == SubsThroughput(subs, n)
  {
    if n > 0 {
      SyncedPending(subs, subs', n - 1);
    }
  }

  /** What synchronizing means for a team as a whole. */
  lemma SyncedSums<P>(subs: map<nat, Aggregator<P>>, subs': map<nat, Aggregator<P>>, n: nat)
    requires AllSynced(subs, subs')
    ensures Driven(subs) ==>
      && Driven(subs') && SubsPending(subs', n) == SubsPending(subs, n)
      && SubsThroughput(subs', n) == SubsThroughput(subs, n) && SubsWeight(subs', n) == SubsWeight(subs, n)
      && (Collected(subs) ==> Collected(subs'))
  {
    hide SubsPending, SubsThroughput, SubsWeight;
    SyncedAreSame(subs, subs');
    SameSubsDriven(subs, subs');
    if AllPrompt(subs) {
      SyncedPending(subs, subs', n);
      SyncedWeights(subs, subs', n);
    }
  }

  lemma SyncedAccepts<P>(subs: map<nat, Aggregator<P>>, subs': map<nat, Aggregator<P>>, pending: nat)
    requires AllSynced(subs, subs') && AllPrompt(subs)
    ensures NobodyAccepts(subs', pending) <==> NobodyAccepts(subs, pending)
    ensures Busy(subs) ==> Busy(subs')
    ensures AllPrompt(subs') && (NothingOwed(subs) ==> NothingOwed(subs'))
  {
    forall a | a in subs ensures Accepts(LoadOf(a, subs'[a]), pending) <==> Accepts(LoadOf(a, subs[a]), pending) {
    }
    if a :| a in subs && subs[a].pending > 0 {
      assert subs'[a].pending > 0;
    }
  }

  /** A handout to a prompt aggregator moves work, and the aggregator is busy afterwards. */
  lemma HandedWork<P>(h: Handout<P>, n: nat, subs': map<nat, Aggregator<P>>, queue': seq<P>)
    requires Handed(h, subs', queue') && AllPrompt(h.subs) && forall b :: b in h.subs ==> b < n
    ensures SubsWeight(subs', n) + |queue'| == SubsWeight(h.subs, n) + |h.queue|
    ensures Busy(subs') && AllPrompt(subs') && subs'.Keys == h.subs.Keys
  {
    hide SubsWeight, Accepts, LoadOf, GrantSize, NextPowerOfTwo, Flatten, Holding;
    HandedCounts(h, subs', queue');
    SubsWeightUpdate(h.subs, n, h.aggregatorId, subs'[h.aggregatorId]);
    assert subs'[h.aggregatorId].pending > 0;
  }

  /** Handing out work among prompt aggregators moves it, and whoever has work keeps it. */
  lemma {:induction false} DistributionWork<P>(subs: map<nat, Aggregator<P>>, queue: seq<P>, n: nat,
      handouts: seq<Handout<P>>, subs': map<nat, Aggregator<P>>, queue': seq<P>)
    requires Distribution(subs, queue, handouts, subs', queue')
    requires AllPrompt(subs) && forall b :: b in subs ==> b < n
    ensures SubsWeight(subs', n) + |queue'| == SubsWeight(subs, n) + |queue|
    ensures handouts != [] || Busy(subs) ==> Busy(subs')
    ensures AllPrompt(subs') && subs'.Keys == subs.Keys
  {
    hide LeastLoaded, Handed, SubsWeight, AllPrompt, Busy;
    if handouts != [] {
      var h := handouts[|handouts| - 1];
      DistributionWork(subs, queue, n, handouts[..|handouts| - 1], h.subs, h.queue);
      HandedWork(h, n, subs', queue');
    }
  }

  /** The whole distribution, among prompt aggregators. */
  lemma DistributedWork<P>(subs: map<nat, Aggregator<P>>, queue: seq<P>, t: Trace<P>, n: nat)
    requires Distributed(subs, queue, t) && AllPrompt(subs) && forall b :: b in subs ==> b < n
    ensures SubsWeight(t.loaded, n) + |t.queue| == SubsWeight(subs, n) + |queue|
    ensures Busy(subs) || (queue != [] && !NobodyAccepts(subs, |queue|)) ==> Busy(t.loaded)
    ensures NobodyAccepts(subs, |queue|) ==> t.handouts == [] && t.loaded == t.synced && t.queue == queue
  {
    hide SubsWeight, AllPrompt, Busy, NobodyAccepts, Distribution;
    SyncedWeights(subs, t.synced, n);
    SyncedAccepts(subs, t.synced, |queue|);
    DistributionWork(t.synced, queue, n, t.handouts, t.loaded, t.queue);
    HandedOutIfAccepted(t.synced, queue, t.handouts, t.loaded, t.queue);
  }

  /** A sub-aggregator that accepts has throughput at least one, so its grant is at least
      two proofs, and they are there. */
  lemma AcceptedGrant<P>(combine: (P, P) -> P, s: Books<P>, loads: seq<Load>, idx: nat, pending: nat)
    requires Consistent(combine, s) && Accurate(loads, s.subs)
    requires pending == |Flatten(s.queue)| && idx < |loads| && Accepts(loads[idx], pending)
    ensures loads[idx].aggregatorId in s.subs && loads[idx].aggregatorId < s.nextAgg
    ensures 1 < GrantSize(loads[idx]) <= pending && DistinctAggregators(loads)
    ensures var sub := s.subs[loads[idx].aggregatorId];
      loads[idx] == LoadOf(loads[idx].aggregatorId, sub) && (sub.throughput == 0.0 || sub.throughput >= 1.0)
  {
    hide Consistent;
    assert loads[idx] in loads;
    ConsistentSub(combine, s, loads[idx].aggregatorId);
  }

  lemma NothingQueued<P>(combine: (P, P) -> P, s: Books<P>)
    requires Consistent(combine, s)
    ensures s.queue != [] ==> |Flatten(s.queue)| > 1
  {
    hide Consistent, Root;
    if s.queue != [] {
      ConsistentFront(combine, s);
    }
  }

  /** Nobody accepts exactly if no load in the vector does. */
  lemma Refusal<P>(subs: map<nat, Aggregator<P>>, loads: seq<Load>, idx: nat, pending: nat)
    requires Accurate(loads, subs) && idx <= |loads| && forall i :: 0 <= i < idx ==> !Accepts(loads[i], pending)
    requires idx < |loads| ==> Accepts(loads[idx], pending)
    ensures idx == |loads| <==> NobodyAccepts(subs, pending)
  {
    hide LoadOf, Accepts;
    if idx < |loads| {
      assert loads[idx] in loads;
    } else {
      forall a | a in subs ensures !Accepts(LoadOf(a, subs[a]), pending) {
        assert LoadOf(a, subs[a]) in loads;
      }
    }
  }

  /** A queue that nobody in a team with a slow enough member accepts finds that member with a
      wait of two or more. */
  lemma RefusalMeansBusy<P>(combine: (P, P) -> P, s: Books<P>)
    requires Consistent(combine, s) && s.queue != [] && NobodyAccepts(s.subs, |Flatten(s.queue)|)
    ensures Driven(s.subs) ==> Busy(s.subs)
  {
    hide Consistent;
    NothingQueued(combine, s);
    if a :| a in s.subs && Slow(s.subs[a]) {
      assert !Accepts(LoadOf(a, s.subs[a]), |Flatten(s.queue)|);
    }
  }

  lemma AcceptedIsPrompt<P>(subs: map<nat, Aggregator<P>>, loads: seq<Load>, idx: nat)
    requires AllPrompt(subs) && Accurate(loads, subs) && idx < |loads|
    ensures loads[idx].aggregatorId in subs && subs[loads[idx].aggregatorId].prompt
  {
    hide LoadOf;
    assert loads[idx] in loads;
  }

  lemma ConsistentParent<P>(combine: (P, P) -> P, s: Books<P>, k: Key)
    requires Consistent(combine, s) && k in s.parents
    ensures s.parents[k] in s.children
  {
  }

  lemma ConsistentEntry<P>(combine: (P, P) -> P, s: Books<P>, k: Key)
    requires Consistent(combine, s) && k in s.descendants
    ensures |s.descendants[k]| > 0
    ensures |s.descendants[k]| > 1 ==> Requeues(s, k)
    ensures |s.descendants[k]| == 1 ==> s.descendants[k] == [k] && k in s.proofs && s.spec[k] == s.proofs[k]
  {
    hide Shaped, Numbered, Values;
    EntryOf(combine, s, k);
  }

  lemma SettledAfterAll(children: map<Key, Pair>, descendants: map<Key, seq<Key>>, p: Key)
    requires Settled(children, descendants, {p})
    requires p in children ==> !Mergeable(descendants, children[p].left, children[p].right)
    ensures Settled(children, descendants, {})
  {
  }

  lemma SubsBelow<P>(combine: (P, P) -> P, s: Books<P>)
    requires Consistent(combine, s)
    ensures forall a :: a in s.subs ==> a < s.nextAgg
  {
    hide Consistent;
    forall a | a in s.subs ensures a < s.nextAgg {
      ConsistentSub(combine, s, a);
    }
  }

  /** Nothing is reported as pending exactly if nothing is queued and nobody is busy. */
  lemma NothingPending<P>(combine: (P, P) -> P, s: Books<P>)
    requires Consistent(combine, s)
    ensures QueueTotal(s.queue) + SubsPending(s.subs, s.nextAgg) == 0 <==> s.queue == [] && !Busy(s.subs)
  {
    hide Consistent, Flatten, SubsPending, Busy;
    NothingQueued(combine, s);
    SubsBelow(combine, s);
    SubsPendingZero(s.subs, s.nextAgg);
  }

  lemma {:induction false} SubsPendingBelow<P>(subs: map<nat, Aggregator<P>>, n: nat)
    ensures SubsPending(subs, n) == 0 <==> forall a :: a in subs && a < n ==> subs[a].pending == 0
  {
    if n > 0 {
      SubsPendingBelow(subs, n - 1);
    }
  }

  lemma SubsPendingZero<P>(subs: map<nat, Aggregator<P>>, n: nat)
    requires forall a :: a in subs ==> a < n
    ensures SubsPending(subs, n) == 0 <==> !Busy(subs)
  {
    SubsPendingBelow(subs, n);
  }

  /** What the aggregator shows its caller keeps what the contract promises. */
  lemma ConsistentView<P>(combine: (P, P) -> P, s: Books<P>, v: Aggregator<P>)
    requires Consistent(combine, s) && Settled(s.children, s.descendants, {})
    requires forall k :: k in s.descendants ==> |s.descendants[k]| == 1 && k !in s.aliases
    requires v.owed == s.owed && v.ready == s.output && v.nextId == s.nextId && v.left == Work(s)
    requires v.pending == QueueTotal(s.queue) + SubsPending(s.subs, s.nextAgg)
    requires v.throughput == SubsThroughput(s.subs, s.nextAgg)
    requires v.prompt ==> AllPrompt(s.subs) && Collected(s.subs)
    ensures Valid(combine, v)
  {
    hide Shaped, Valued, Honest, Root, IsPowerOfTwo, FlightKeys, Work, SubsPending, SubsThroughput, QueueTotal,
      AllPrompt, Collected, Settled, Open, Busy;
    ThroughputIsLegal(combine, s.subs, s.nextAgg);
    NothingPending(combine, s);
    OpenIsRooted(s.owed, s.roots, s.output);
    if v.prompt {
      if v.pending == 0 {
        IdleIsDone(combine, s);
      } else {
        MoreWorkThanBatches(combine, s);
      }
    }
  }

  lemma OpenIsRooted<P>(owed: map<nat, seq<P>>, roots: map<nat, Key>, output: seq<Emitted<P>>)
    requires Accounted(owed, roots, output)
    ensures Open(owed, output) == roots.Keys
  {
    hide Ids;
  }

  lemma SameSubsThroughput<P>(subs: map<nat, Aggregator<P>>, subs': map<nat, Aggregator<P>>, n: nat)
    requires SameSubs(subs, subs')
    ensures AllPrompt(subs) ==> SubsThroughput(subs', n) == SubsThroughput(subs, n)
  {
    SameSubsDriven(subs, subs');
    if AllPrompt(subs) {
      SubsThroughputKept(subs, subs', n);
    }
  }

  lemma SomethingOwed<P>(owed: map<nat, seq<P>>)
    requires owed != map[]
    ensures exists id :: id in owed && id !in Ids<P>([])
  {
    var id :| id in owed;
  }

  lemma Accounts<P>(combine: (P, P) -> P, s: Books<P>)
    requires Consistent(combine, s)
    ensures s.roots == map[] ==> forall id :: id in s.owed ==> id in Ids(s.output)
  {
  }

  /** The entry is neither merged nor a root. */
  ghost predicate Waits<P>(s: Books<P>, k: Key)
    requires k in s.descendants
  {
    |s.descendants[k]| <= 1 && k !in s.aliases
  }

  ghost predicate ConsolidatedOne<P>(s: Books<P>, k: Key, s': Books<P>)
    requires k in s.descendants
  {
    if |s.descendants[k]| > 1 then Requeues(s, k) && s' == AfterRequeue(s, k)
    else if k in s.aliases then s.descendants[k] == [k] && k in s.proofs && s' == AfterEmit(s, k)
    else s' == s
  }

  /** The entries outside `done` are as they were, and so are their pieces. */
  ghost predicate Left<P>(s: Books<P>, done: set<Key>, s': Books<P>) {
    && s'.self == s.self
    && (forall k :: k in s'.proofs ==> k in s.proofs && s'.proofs[k] == s.proofs[k])
    && (forall k :: k in s'.aliases ==> k in s.aliases && s'.aliases[k] == s.aliases[k])
    && (forall k :: k in s.aliases && k !in done ==> k in s'.aliases)
    && (forall k :: k in s'.descendants ==>
          k in s.descendants && s'.descendants[k] == s.descendants[k] && (k in done ==> Waits(s, k)))
    && (forall k :: k in s.descendants && (k in done ==> Waits(s, k)) ==> k in s'.descendants)
  }

  /** `queue'` is `queue` with the merged entries among `done` in front, each with the proofs of
      its pieces in order. */
  ghost predicate Requeued<P>(s: Books<P>, done: set<Key>, queue': seq<Batch<P>>) {
    && |queue'| >= |s.queue| && queue'[|queue'| - |s.queue|..] == s.queue
    && (forall k :: k in done && k in s.descendants && |s.descendants[k]| > 1 ==>
          Requeues(s, k) && Batch(k.batch, Collect(s.proofs, s.descendants[k])) in Added(s, queue'))
    && (forall b :: b in Added(s, queue') ==>
          var k := Key(s.self, b.id); k in done && k in s.descendants && |s.descendants[k]| > 1)
  }

  /** What was put in front of the queue. */
  ghost function Added<P>(s: Books<P>, queue': seq<Batch<P>>): seq<Batch<P>>
    requires |queue'| >= |s.queue|
  {
    queue'[..|queue'| - |s.queue|]
  }

  /** The proofs of the roots among `done` were put out under the ids of their batches. */
  ghost predicate PutOut<P>(s: Books<P>, done: set<Key>, output': seq<Emitted<P>>) {
    && s.output <= output'
    && (forall k :: k in done && k in s.descendants && k in s.aliases && |s.descendants[k]| <= 1 ==>
          k in s.proofs && Emitted(s.aliases[k], s.proofs[k]) in output'[|s.output|..])
    && ((forall k :: k in done && k in s.descendants && |s.descendants[k]| <= 1 ==> k !in s.aliases) ==>
          output' == s.output)
  }

  ghost predicate Consolidated<P>(s: Books<P>, done: set<Key>, s': Books<P>) {
    Left(s, done, s') && Requeued(s, done, s'.queue) && PutOut(s, done, s'.output)
  }

  lemma RequeuesMeans<P>(s: Books<P>, k: Key)
    requires Requeues(s, k)
    ensures k in s.descendants && k.agg == s.self && forall d :: d in s.descendants[k] ==> d in s.proofs
  {
  }

  lemma ConsolidatedNothing<P>(s: Books<P>)
    ensures Consolidated(s, {}, s)
  {
  }

  /** What one visit leaves of the maps. */
  ghost predicate Lessened<P>(s: Books<P>, k: Key, s': Books<P>) {
    && s'.self == s.self
    && (forall j :: j in s'.proofs ==> j in s.proofs && s'.proofs[j] == s.proofs[j])
    && (s'.aliases == s.aliases || s'.aliases == s.aliases - {k})
  }

  lemma RequeueLeaves<P>(s: Books<P>, k: Key)
    requires k in s.descendants && forall d :: d in s.descendants[k] ==> d in s.proofs
    ensures Lessened(s, k, AfterRequeue(s, k)) && AfterRequeue(s, k).descendants == s.descendants - {k}
  {
    hide Collect, KeySet;
  }

  lemma EmitLeaves<P>(s: Books<P>, k: Key)
    requires k in s.aliases && k in s.proofs
    ensures Lessened(s, k, AfterEmit(s, k)) && AfterEmit(s, k).descendants == s.descendants - {k}
  {
  }

  lemma OneMeans<P>(s: Books<P>, k: Key, s': Books<P>)
    requires k in s.descendants && ConsolidatedOne(s, k, s')
    ensures Lessened(s, k, s')
    ensures s'.descendants == if Waits(s, k) then s.descendants else s.descendants - {k}
  {
    hide AfterRequeue, AfterEmit, IsBatch;
    if |s.descendants[k]| > 1 {
      RequeuesMeans(s, k);
      RequeueLeaves(s, k);
    } else if k in s.aliases {
      EmitLeaves(s, k);
    }
  }

  lemma LeftNext<P>(s: Books<P>, done: set<Key>, s': Books<P>, k: Key, s'': Books<P>)
    requires Left(s, done, s') && k in s'.descendants && k !in done && ConsolidatedOne(s', k, s'')
    ensures Left(s, done + {k}, s'')
    ensures s''.descendants.Keys >= s'.descendants.Keys - {k}
  {
    hide ConsolidatedOne;
    assert Waits(s', k) <==> Waits(s, k);
    hide Waits;
    OneMeans(s', k, s'');
  }

  lemma RequeuedNext<P>(s: Books<P>, done: set<Key>, s': Books<P>, k: Key, s'': Books<P>)
    requires Left(s, done, s') && k in s'.descendants && k !in done && ConsolidatedOne(s', k, s'')
    requires Requeued(s, done, s'.queue)
    ensures Requeued(s, done + {k}, s''.queue)
  {
    hide Requeued, KeySet, Waits, IsBatch;
    if |s.descendants[k]| > 1 {
      RequeuesMeans(s', k);
      assert Collect(s'.proofs, s.descendants[k]) == Collect(s.proofs, s.descendants[k]);
      RequeuedMore(s, done, s'.queue, k);
    } else {
      RequeuedSame(s, done, s'.queue, k);
    }
  }

  lemma RequeuedMore<P>(s: Books<P>, done: set<Key>, queue': seq<Batch<P>>, k: Key)
    requires Requeued(s, done, queue') && Requeues(s, k) && |s.descendants[k]| > 1
    ensures Requeued(s, done + {k}, [Batch(k.batch, Collect(s.proofs, s.descendants[k]))] + queue')
  {
    hide IsBatch, Collect;
    var b := Batch(k.batch, Collect(s.proofs, s.descendants[k]));
    assert Added(s, [b] + queue') == [b] + Added(s, queue');
  }

  lemma RequeuedSame<P>(s: Books<P>, done: set<Key>, queue': seq<Batch<P>>, k: Key)
    requires Requeued(s, done, queue') && (k in s.descendants ==> |s.descendants[k]| <= 1)
    ensures Requeued(s, done + {k}, queue')
  {
    hide Requeues, Collect;
  }

  lemma PutOutNext<P>(s: Books<P>, done: set<Key>, s': Books<P>, k: Key, s'': Books<P>)
    requires Left(s, done, s') && k in s'.descendants && k !in done && ConsolidatedOne(s', k, s'')
    requires PutOut(s, done, s'.output)
    ensures PutOut(s, done + {k}, s''.output)
  {
    hide PutOut, Requeues, KeySet, Collect, IsBatch;
    if |s.descendants[k]| <= 1 && k in s'.aliases {
      PutOutMore(s, done, s'.output, k);
    } else {
      PutOutSame(s, done, s'.output, k);
    }
  }

  lemma PutOutMore<P>(s: Books<P>, done: set<Key>, output': seq<Emitted<P>>, k: Key)
    requires PutOut(s, done, output') && k in s.descendants && |s.descendants[k]| <= 1
    requires k in s.aliases && k in s.proofs
    ensures PutOut(s, done + {k}, output' + [Emitted(s.aliases[k], s.proofs[k])])
  {
    var e := Emitted(s.aliases[k], s.proofs[k]);
    assert (output' + [e])[|s.output|..] == output'[|s.output|..] + [e];
  }

  lemma PutOutSame<P>(s: Books<P>, done: set<Key>, output': seq<Emitted<P>>, k: Key)
    requires PutOut(s, done, output') && (k in s.descendants && |s.descendants[k]| <= 1 ==> k !in s.aliases)
    ensures PutOut(s, done + {k}, output')
  {
  }

  lemma ConsolidatedNext<P>(s: Books<P>, done: set<Key>, s': Books<P>, k: Key, s'': Books<P>)
    requires Consolidated(s, done, s') && k in s'.descendants && k !in done && ConsolidatedOne(s', k, s'')
    ensures Consolidated(s, done + {k}, s'')
    ensures s''.descendants.Keys >= s'.descendants.Keys - {k}
  {
    hide Left, Requeued, PutOut, ConsolidatedOne;
    LeftNext(s, done, s', k, s'');
    RequeuedNext(s, done, s', k, s'');
    PutOutNext(s, done, s', k, s'');
  }

  lemma ConsolidatedAll<P>(combine: (P, P) -> P, s: Books<P>, s': Books<P>)
    requires Consolidated(s, s.descendants.Keys, s') && Consistent(combine, s')
    ensures forall k :: k in s'.descendants ==> |s'.descendants[k]| == 1 && k !in s'.aliases
    ensures s.output <= s'.output
    ensures (forall k :: k in s.descendants ==> |s.descendants[k]| == 1 && k !in s.aliases) ==>
      s'.queue == s.queue && s'.output == s.output
  {
    hide Consistent;
    forall k | k in s'.descendants ensures |s'.descendants[k]| == 1 && k !in s'.aliases {
      ConsistentEntry(combine, s', k);
    }
    if s'.queue != s.queue {
      assert Added(s, s'.queue) != [];
      assert Added(s, s'.queue)[0] in Added(s, s'.queue);
    }
  }

  /** What is left of the queue are its own batches, and halves no smaller than `size`. */
  ghost predicate Halved<P>(queue: seq<Batch<P>>, size: nat, queue': seq<Batch<P>>) {
    forall b :: b in queue' ==> b in queue || |b.proofs| >= size
  }

  /** The batches sent are of this size, or smaller ones of the queue as they were. */
  ghost predicate Chunked<P>(queue: seq<Batch<P>>, size: nat, sent: seq<Batch<P>>) {
    forall b :: b in sent ==>
      || |b.proofs| == size
      || (|b.proofs| < size && exists q :: q in queue && q.proofs == b.proofs)
  }

  lemma HalvedRest<P>(queue: seq<Batch<P>>, size: nat)
    requires queue != []
    ensures Halved(queue, size, queue[1..])
  {
  }

  lemma HalvedMore<P>(queue: seq<Batch<P>>, size: nat, queue': seq<Batch<P>>)
    requires queue' != [] && queue'[1..] == queue && |queue'[0].proofs| >= size
    ensures Halved(queue, size, queue')
  {
    assert queue' == [queue'[0]] + queue;
  }

  lemma HalvedTwice<P>(queue: seq<Batch<P>>, size: nat, queue': seq<Batch<P>>, queue'': seq<Batch<P>>)
    requires Halved(queue, size, queue') && Halved(queue', size, queue'')
    ensures Halved(queue, size, queue'')
  {
  }

  lemma NothingChunked<P>(queue: seq<Batch<P>>, size: nat)
    ensures Halved(queue, size, queue) && Chunked(queue, size, [])
  {
  }

  lemma ChunkedMore<P>(queue: seq<Batch<P>>, size: nat, before: seq<Batch<P>>, sent: seq<Batch<P>>, chunk: Batch<P>,
      b: Batch<P>, after: seq<Batch<P>>)
    requires Halved(queue, size, before) && Halved(before, size, after) && Chunked(queue, size, sent)
    requires before != [] && |chunk.proofs| <= size && b.proofs == chunk.proofs
    requires |chunk.proofs| < size ==> chunk == before[0]
    ensures Halved(queue, size, after) && Chunked(queue, size, sent + [b])
  {
    assert before[0] in before;
  }

  lemma FlattenNothing<P>()
    ensures Flatten<P>([]) == []
  {
  }

  lemma {:induction false} FlattenBack<P>(queue: seq<Batch<P>>, b: Batch<P>, rest: seq<P>)
    ensures Flatten(queue + [b]) == Flatten(queue) + b.proofs
    ensures Flatten(queue + [b]) + rest == Flatten(queue) + (b.proofs + rest)
  {
    if queue == [] {
      assert [b][1..] == [];
    } else {
      FlattenBack(queue[1..], b, rest);
      assert (queue + [b])[1..] == queue[1..] + [b];
    }
  }

  function Min(a: nat, b: nat): nat {
    if a <= b then a else b
  }
}
