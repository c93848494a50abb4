/** `MerkleAggregator`: the worker that really combines proofs. One step turns one queued
    batch into its Merkle root; it is a prompt aggregator of the contract. */
module MerkleAggregators {
  import opened MerkleRoot
  import opened AggregatorContract
  import opened Wrappers

  function QueueIds<P>(queue: seq<Batch<P>>): set<nat> {
    set i | 0 <= i < |queue| :: queue[i].id
  }

  lemma QueueIdsOfRest<P>(queue: seq<Batch<P>>)
    requires queue != []
    ensures QueueIds(queue) == {queue[0].id} + QueueIds(queue[1..])
  {
    forall id | id in QueueIds(queue) ensures id in {queue[0].id} + QueueIds(queue[1..]) {
      var i :| 0 <= i < |queue| && queue[i].id == id;
      assert i > 0 ==> queue[1..][i - 1].id == id;
    }
  }

  lemma QueueIdsOfAppend<P>(queue: seq<Batch<P>>, b: Batch<P>)
    ensures QueueIds(queue + [b]) == QueueIds(queue) + {b.id}
  {
    forall id | id in QueueIds(queue) + {b.id} ensures id in QueueIds(queue + [b]) {
      if id in QueueIds(queue) {
        var i :| 0 <= i < |queue| && queue[i].id == id;
        assert (queue + [b])[i].id == id;
      } else {
        assert (queue + [b])[|queue|].id == id;
      }
    }
  }

  /** The number of queued proofs tells whether batches are queued, and there are fewer of these. */
  lemma {:induction false} QueueWeighed<P>(queue: seq<Batch<P>>)
    requires forall b :: b in queue ==> |b.proofs| > 1
    ensures Weighed(QueueIds(queue), QueueTotal(queue), QueueTotal(queue))
  {
    if queue != [] {
      QueueWeighed(queue[1..]);
      QueueIdsOfRest(queue);
    }
  }

  class MerkleAggregator<P> {
    const combine: (P, P) -> P
    var freeBatchIds: nat
    var internalQueue: seq<Batch<P>>
    var completedProofs: seq<Emitted<P>>
    /** The batches pushed and not yet popped. */
    ghost var owed: map<nat, seq<P>>
    /** How often the worker was asked to step and to synchronise. */
    ghost var steps: nat
    ghost var syncs: nat

    /** This worker as its caller sees it. */
    ghost function View(): Aggregator<P>
      reads this
    {
      Aggregator(owed, completedProofs, freeBatchIds, PendingQueueSize(), ProofThroughput(),
                 PendingQueueSize(), true, steps, syncs)
    }

    ghost predicate Valid()
      reads this
    {
      && AggregatorContract.Valid(combine, View())
      && QueueIds(internalQueue) == Open(owed, completedProofs)
      && (forall b :: b in internalQueue ==> b.id in owed && owed[b.id] == b.proofs)
      && (forall i, j :: 0 <= i < j < |internalQueue| ==> internalQueue[i].id != internalQueue[j].id)
    }

    constructor (combine: (P, P) -> P)
      ensures this.combine == combine && Valid() && View() == Aggregator(map[], [], 0, 0, 1.0, 0, true, 0, 0)
    {
      this.combine := combine;
      freeBatchIds, internalQueue, completedProofs, owed := 0, [], [], map[];
      steps, syncs := 0, 0;
    }

    function PendingQueueSize(): nat
      reads this
    {
      QueueTotal(internalQueue)
    }

    function ProofThroughput(): real {
      1.0
    }

    method PushInternalProofs(proofs: seq<P>) returns (batchId: nat)
      requires Valid() && IsBatch(proofs)
      modifies this
      ensures Valid() && Pushed(old(View()), proofs, batchId, View())
      ensures internalQueue == old(internalQueue) + [Batch(batchId, proofs)]
    {
      hide Root, IsPowerOfTwo, Open, QueueIds, Honest, QueueTotal;
      batchId := freeBatchIds;
      HonestPush(combine, owed, completedProofs, freeBatchIds, proofs);
      QueuedIsOwed();
      OpenPush(owed, completedProofs, batchId, proofs);
      QueueIdsOfAppend(internalQueue, Batch(batchId, proofs));
      QueueTotalBack(internalQueue, Batch(batchId, proofs));
      freeBatchIds := freeBatchIds + 1;
      internalQueue := internalQueue + [Batch(batchId, proofs)];
      owed := owed[batchId := proofs];
      QueueWeighed(internalQueue);
    }

    method PopRecursiveProof() returns (e: Option<Emitted<P>>)
      requires Valid()
      modifies this
      ensures Valid() && Popped(old(View()), e, View()) && internalQueue == old(internalQueue)
    {
      hide Root, IsPowerOfTwo, Open, QueueIds;
      e := None;
      if completedProofs != [] {
        e := Some(completedProofs[0]);
        PopKeepsValid(combine, View());
        OpenPop(owed, completedProofs);
        QueuedIsOpen(e.value.id);
        completedProofs := completedProofs[1..];
        owed := owed - {e.value.id};
      }
    }

    lemma QueuedIsOwed()
      requires Valid()
      ensures forall b :: b in internalQueue ==> IsBatch(b.proofs) && b.id < freeBatchIds
      ensures forall i :: 0 <= i < |internalQueue| ==> internalQueue[i].id < freeBatchIds
    {
      hide Root, IsPowerOfTwo, Open, QueueIds;
      assert forall i :: 0 <= i < |internalQueue| ==> internalQueue[i] in internalQueue;
    }

    /** What is ready is not queued. */
    lemma QueuedIsOpen(id: nat)
      requires Valid() && id in Ids(completedProofs)
      ensures forall b :: b in internalQueue ==> b.id != id
    {
      hide Root, IsPowerOfTwo;
      forall b | b in internalQueue ensures b.id != id {
        var i :| 0 <= i < |internalQueue| && internalQueue[i] == b;
        assert b.id in QueueIds(internalQueue);
      }
    }

    /** The root of a batch, layer by layer. */
    method MerkleizeLayers(batch: seq<P>) returns (root: P)
      requires IsPowerOfTwo(|batch|)
      ensures root == Root(combine, batch)
    {
      hide Root, IsPowerOfTwo;
      var currentLayer := batch;
      while |currentLayer| > 1
        invariant IsPowerOfTwo(|currentLayer|) && Root(combine, currentLayer) == Root(combine, batch)
        decreases |currentLayer|
      {
        NextLayerKeepsRoot(combine, currentLayer);
        HalfIsPowerOfTwo(|currentLayer|);
        var nextLayer := [];
        while 2 * |nextLayer| + 1 < |currentLayer|
          invariant |nextLayer| <= |currentLayer| / 2
          invariant nextLayer == NextLayer(combine, currentLayer)[..|nextLayer|]
        {
          var i := 2 * |nextLayer|;
          nextLayer := nextLayer + [combine(currentLayer[i], currentLayer[i + 1])];
        }
        assert nextLayer == NextLayer(combine, currentLayer);
        currentLayer := nextLayer;
      }
      RootOfOne(combine, currentLayer);
      root := currentLayer[0];
    }

    method Step()
      requires Valid()
      modifies this
      ensures Valid() && Stepped(old(View()), View())
      ensures old(internalQueue) != [] ==>
        && internalQueue == old(internalQueue)[1..] && IsPowerOfTwo(|old(internalQueue)[0].proofs|)
        && completedProofs == old(completedProofs)
           + [Emitted(old(internalQueue)[0].id, Root(combine, old(internalQueue)[0].proofs))]
      ensures old(internalQueue) == [] ==> View() == old(View()).(steps := old(steps) + 1)
    {
      hide Root, IsPowerOfTwo, Open, QueueIds, Ids;
      steps := steps + 1;
      if internalQueue != [] {
        var batch := internalQueue[0];
        FrontIsOpen();
        QueuedIsOwed();
        internalQueue := internalQueue[1..];
        var root := MerkleizeLayers(batch.proofs);
        var e := Emitted(batch.id, root);
        OpenFinish(owed, completedProofs, e);
        HonestAppend(combine, owed, completedProofs, batch.id);
        completedProofs := completedProofs + [e];
        QueueWeighed(internalQueue);
      }
    }

    /** There is nothing to synchronise with. */
    method Sync()
      requires Valid()
      modifies this`syncs
      ensures Valid() && Synced(old(View()), View())
    {
      syncs := syncs + 1;
    }

    /** The batch in front is unfinished, and the batches behind it are others. */
    lemma FrontIsOpen()
      requires Valid() && internalQueue != []
      ensures var b := internalQueue[0];
        && b.id in owed && owed[b.id] == b.proofs && b.id in Open(owed, completedProofs)
        && QueueIds(internalQueue[1..]) == QueueIds(internalQueue) - {b.id}
      ensures forall b :: b in internalQueue[1..] ==> b in internalQueue
    {
      hide Root, IsPowerOfTwo;
      assert internalQueue[0] in internalQueue && internalQueue[0].id in QueueIds(internalQueue);
      QueueIdsOfRest(internalQueue);
    }
  }
}
