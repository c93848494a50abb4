/** Whole runs of an aggregator, as its caller sees them. */
module AggregatorRuns {
  import opened MerkleRoot
  import opened AggregatorContract
  import opened Wrappers

  /** What a caller does, and `Elapse`: time passes, in which a worker may make a step. */
  datatype Call<P> =
    | PushCall(proofs: seq<P>) | StepCall | SyncCall | PopCall | InsertCall(sub: Aggregator<P>) | Elapse

  /** Batches are powers of two greater than one. */
  ghost predicate Legal<P>(combine: (P, P) -> P, call: Call<P>) {
    match call
    case PushCall(proofs) => IsBatch(proofs)
    case InsertCall(sub) => Valid(combine, sub)
    case _ => true
  }

  /** Each proof emitted is the root of the batch pushed under its id, and no id is emitted twice. */
  ghost predicate OnlyRoots<P>(combine: (P, P) -> P, pushed: map<nat, seq<P>>, emitted: seq<Emitted<P>>) {
    && DistinctIds(emitted)
    && forall e :: e in emitted ==>
         e.id in pushed && IsBatch(pushed[e.id]) && e.proof == Root(combine, pushed[e.id])
  }

  /** Besides, every batch pushed is either emitted or still owed. */
  ghost predicate History<P>(combine: (P, P) -> P, pushed: map<nat, seq<P>>, emitted: seq<Emitted<P>>,
      s: Aggregator<P>) {
    && OnlyRoots(combine, pushed, emitted)
    && (forall e :: e in emitted ==> e.id !in s.owed)
    && (forall id :: id in s.owed ==> id in pushed && pushed[id] == s.owed[id])
    && (forall id :: id in pushed ==> id < s.nextId && (id in s.owed || id in Ids(emitted)))
  }

  lemma HistoryPush<P>(combine: (P, P) -> P, pushed: map<nat, seq<P>>, emitted: seq<Emitted<P>>, s: Aggregator<P>,
      proofs: seq<P>, id: nat, s': Aggregator<P>)
    requires History(combine, pushed, emitted, s) && Pushed(s, proofs, id, s')
    ensures id !in pushed && History(combine, pushed[id := proofs], emitted, s')
  {
    hide Root, IsPowerOfTwo, Ids;
  }

  lemma HistoryPop<P>(combine: (P, P) -> P, pushed: map<nat, seq<P>>, emitted: seq<Emitted<P>>, s: Aggregator<P>,
      e: Emitted<P>, s': Aggregator<P>)
    requires History(combine, pushed, emitted, s) && Valid(combine, s) && Popped(s, Some(e), s')
    ensures History(combine, pushed, emitted + [e], s')
  {
    hide Root, IsPowerOfTwo, Ids, Valid;
    FirstIsHonest(combine, s);
    IdsOfAppend(emitted, e);
  }

  lemma FirstIsHonest<P>(combine: (P, P) -> P, s: Aggregator<P>)
    requires Valid(combine, s) && s.ready != []
    ensures var e := s.ready[0]; e.id in s.owed && IsBatch(s.owed[e.id]) && e.proof == Root(combine, s.owed[e.id])
  {
    hide Root, IsPowerOfTwo;
    assert s.ready[0] in s.ready;
  }

  lemma HistoryAdvance<P>(combine: (P, P) -> P, pushed: map<nat, seq<P>>, emitted: seq<Emitted<P>>, s: Aggregator<P>,
      s': Aggregator<P>)
    requires History(combine, pushed, emitted, s) && s'.owed == s.owed && s.nextId <= s'.nextId
    ensures History(combine, pushed, emitted, s')
  {
    hide Root, IsPowerOfTwo, Ids;
  }

  /** The batches pushed by a schedule, in order. */
  function Pushes<P>(schedule: seq<Call<P>>): seq<seq<P>> {
    if schedule == [] then []
    else
      var last := schedule[|schedule| - 1];
      Pushes(schedule[..|schedule| - 1]) + if last.PushCall? then [last.proofs] else []
  }

  /** The batches by the ids they were given. */
  function Assigned<P>(ids: seq<nat>, batches: seq<seq<P>>): map<nat, seq<P>>
    requires |ids| == |batches|
  {
    if ids == [] then map[]
    else Assigned(ids[..|ids| - 1], batches[..|ids| - 1])[ids[|ids| - 1] := batches[|ids| - 1]]
  }

  lemma PushesNext<P>(calls: seq<Call<P>>, call: Call<P>)
    ensures call.PushCall? ==> Pushes(calls + [call]) == Pushes(calls) + [call.proofs]
    ensures !call.PushCall? ==> Pushes(calls + [call]) == Pushes(calls)
  {
    assert (calls + [call])[..|calls|] == calls;
  }

  lemma {:induction false} AssignedKeys<P>(ids: seq<nat>, batches: seq<seq<P>>)
    requires |ids| == |batches|
    ensures forall id :: id in ids <==> id in Assigned(ids, batches)
  {
    if ids != [] {
      var n := |ids| - 1;
      AssignedKeys(ids[..n], batches[..n]);
      assert ids == ids[..n] + [ids[n]];
    }
  }

  lemma AssignedNext<P>(ids: seq<nat>, batches: seq<seq<P>>, id: nat, batch: seq<P>)
    requires |ids| == |batches| && id !in Assigned(ids, batches)
    ensures id !in ids && Assigned(ids + [id], batches + [batch]) == Assigned(ids, batches)[id := batch]
  {
    AssignedKeys(ids, batches);
    assert (ids + [id])[..|ids|] == ids && (batches + [batch])[..|ids|] == batches;
  }

  ghost predicate DistinctNats(ids: seq<nat>) {
    forall i, j :: 0 <= i < j < |ids| ==> ids[i] != ids[j]
  }

  // ---------------------------------------------------------------- the log of a run

  /** After these calls: the batches pushed got the distinct `ids`, and what was emitted, and is
      owed, is as it should be. */
  ghost predicate Logged<P>(combine: (P, P) -> P, calls: seq<Call<P>>, ids: seq<nat>, emitted: seq<Emitted<P>>,
      s: Aggregator<P>) {
    && |ids| == |Pushes(calls)| && DistinctNats(ids)
    && History(combine, Assigned(ids, Pushes(calls)), emitted, s)
  }

  lemma LoggedMeans<P>(combine: (P, P) -> P, calls: seq<Call<P>>, ids: seq<nat>, emitted: seq<Emitted<P>>,
      s: Aggregator<P>)
    requires Logged(combine, calls, ids, emitted, s)
    ensures |ids| == |Pushes(calls)| && DistinctNats(ids)
    ensures OnlyRoots(combine, Assigned(ids, Pushes(calls)), emitted)
  {
  }

  lemma LoggedNothing<P>(combine: (P, P) -> P, s: Aggregator<P>)
    requires s.owed == map[]
    ensures Logged(combine, [], [], [], s)
  {
  }

  lemma LoggedPush<P>(combine: (P, P) -> P, calls: seq<Call<P>>, ids: seq<nat>, emitted: seq<Emitted<P>>,
      s: Aggregator<P>, proofs: seq<P>, id: nat, s': Aggregator<P>)
    requires Logged(combine, calls, ids, emitted, s) && Pushed(s, proofs, id, s')
    ensures Logged(combine, calls + [PushCall(proofs)], ids + [id], emitted, s')
  {
    hide History, Pushed, Pushes, Assigned;
    PushesNext(calls, PushCall(proofs));
    HistoryPush(combine, Assigned(ids, Pushes(calls)), emitted, s, proofs, id, s');
    AssignedNext(ids, Pushes(calls), id, proofs);
  }

  lemma LoggedAdvance<P>(combine: (P, P) -> P, calls: seq<Call<P>>, call: Call<P>, ids: seq<nat>,
      emitted: seq<Emitted<P>>, s: Aggregator<P>, s': Aggregator<P>)
    requires Logged(combine, calls, ids, emitted, s) && !call.PushCall?
    requires s' == s || Advanced(s, s')
    ensures Logged(combine, calls + [call], ids, emitted, s')
  {
    hide History, Pushes, Assigned;
    PushesNext(calls, call);
    HistoryAdvance(combine, Assigned(ids, Pushes(calls)), emitted, s, s');
  }

  /** A new sub-aggregator changes nothing about what is owed. */
  lemma LoggedInsert<P>(combine: (P, P) -> P, calls: seq<Call<P>>, sub: Aggregator<P>, ids: seq<nat>,
      emitted: seq<Emitted<P>>, s: Aggregator<P>, s': Aggregator<P>)
    requires Logged(combine, calls, ids, emitted, s) && s'.owed == s.owed && s.nextId <= s'.nextId
    ensures Logged(combine, calls + [InsertCall(sub)], ids, emitted, s')
  {
    hide History, Pushes, Assigned;
    PushesNext(calls, InsertCall(sub));
    HistoryAdvance(combine, Assigned(ids, Pushes(calls)), emitted, s, s');
  }

  lemma LoggedPop<P>(combine: (P, P) -> P, calls: seq<Call<P>>, ids: seq<nat>, emitted: seq<Emitted<P>>,
      s: Aggregator<P>, e: Option<Emitted<P>>, s': Aggregator<P>)
    requires Logged(combine, calls, ids, emitted, s) && Valid(combine, s) && Popped(s, e, s')
    ensures Logged(combine, calls + [PopCall], ids, emitted + if e.Some? then [e.value] else [], s')
  {
    hide History, Pushes, Assigned, Valid;
    PushesNext(calls, PopCall);
    if e.Some? {
      HistoryPop(combine, Assigned(ids, Pushes(calls)), emitted, s, e.value, s');
    } else {
      NothingPopped(s, s');
      assert emitted + [] == emitted;
    }
  }

  lemma NothingPopped<P>(s: Aggregator<P>, s': Aggregator<P>)
    requires Popped(s, None, s')
    ensures s' == s
  {
  }
}
