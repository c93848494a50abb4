/** Teams at the other end of a thread or a socket: as long as their workers get to run, all
    that is pushed comes out. */
module RemoteTeams {
  import opened MerkleRoot
  import opened AggregatorContract
  import opened AggregatorRuns
  import opened AggregatorTeams
  import opened RemoteAggregators

  /** The drive loop of the aggregator's users, around a worker or a team of any shape that a
      thread or a server runs. */
  method AggregateRemotely<P(!new)>(combine: (P, P) -> P, crew: Crew, batches: seq<seq<P>>)
    returns (ids: seq<nat>, emitted: seq<Emitted<P>>)
    requires Staffed(crew) && forall i :: 0 <= i < |batches| ==> IsBatch(batches[i])
    ensures DistinctNats(ids) && AllDelivered(combine, ids, batches, emitted)
  {
    hide RemoteAggregator.Valid, Valid, IsPowerOfTwo, Root, Delivered, Staffed, IsBatch, Running;
    IdleIsValid(combine, crew);
    var remote := new RemoteAggregator(combine, AggregatorTeams.Idle(crew));
    NothingRequested(remote.WorkerState());
    ids := PushAllRemotely(remote, batches);
    emitted := [];
    for i := 0 to |batches|
      invariant fresh(remote) && remote.combine == combine && remote.Valid()
      invariant Running(remote.WorkerState()) && remote.inner.prompt
      invariant |emitted| == i && Delivered(combine, ids, batches, remote.owed, emitted)
    {
      ghost var owed := remote.owed;
      SomethingLeft(combine, ids, batches, owed, emitted);
      var e := remote.NextProof();
      DeliveredNext(combine, ids, batches, owed, emitted, e);
      emitted := emitted + [e];
    }
    NothingLeft(combine, ids, batches, remote.owed, emitted);
  }

  method PushAllRemotely<P(!new)>(remote: RemoteAggregator<P>, batches: seq<seq<P>>) returns (ids: seq<nat>)
    requires remote.Valid() && Running(remote.WorkerState()) && remote.inner.prompt && remote.owed == map[]
    requires forall i :: 0 <= i < |batches| ==> IsBatch(batches[i])
    modifies remote
    ensures remote.Valid() && Running(remote.WorkerState()) && remote.inner.prompt
    ensures DistinctNats(ids) && Delivered(remote.combine, ids, batches, remote.owed, [])
  {
    hide RemoteAggregator.Valid, Valid, IsPowerOfTwo, Root, Delivered, IsBatch, Running;
    ids := [];
    NothingPushed(remote.combine, remote.owed);
    for i := 0 to |batches|
      invariant remote.Valid() && Running(remote.WorkerState()) && remote.inner.prompt
      invariant DistinctNats(ids) && Delivered(remote.combine, ids, batches[..i], remote.owed, [])
    {
      ghost var owed, w := remote.owed, remote.WorkerState();
      var id := remote.PushInternalProofs(batches[i]);
      PushedNext(remote.combine, ids, batches[..i], owed, id, batches[i]);
      StillRunning(w, PushProofs(id, batches[i]));
      assert batches[..i] + [batches[i]] == batches[..i + 1];
      ids := ids + [id];
    }
    assert batches[..|batches|] == batches;
  }

  lemma NothingRequested<P>(w: Worker<P>)
    requires w.requests == [] && w.phase.Idle?
    ensures Running(w)
  {
  }

  lemma StillRunning<P>(w: Worker<P>, r: Request<P>)
    requires Running(w) && !r.Shutdown?
    ensures Running(w.(requests := w.requests + [r]))
  {
  }
}
