/** Teams: aggregators whose members are workers or teams themselves. With a slow enough
    member in every team, all that is pushed comes out. */
module AggregatorTeams {
  import opened MerkleRoot
  import opened AggregatorContract
  import opened Wrappers
  import opened AggregatorRuns
  import opened AggregationForest
  import opened AggregationBooks
  import opened AggregationMeasure
  import opened RecursiveAggregators

  datatype Crew = Worker | Team(members: seq<Crew>)

  /** A worker makes one proof per step, a team as many as its members. */
  function Rate(crew: Crew): (r: real)
    ensures r == 0.0 || r >= 1.0
    decreases crew
  {
    match crew
    case Worker => 1.0
    case Team(members) => Rates(members)
  }

  function Rates(members: seq<Crew>): (r: real)
    ensures r == 0.0 || r >= 1.0
    decreases members
  {
    if members == [] then 0.0
    else Rates(members[..|members| - 1]) + Rate(members[|members| - 1])
  }

  predicate TakesTwo(crew: Crew) {
    1.0 <= Rate(crew) < 2.0
  }

  /** In every team somebody is slow enough to take a batch of two proofs. */
  predicate Staffed(crew: Crew) {
    match crew
    case Worker => true
    case Team(members) =>
      && (exists i :: 0 <= i < |members| && TakesTwo(members[i]))
      && (forall i :: 0 <= i < |members| ==> Staffed(members[i]))
  }

  /** A crew without work, as seen by the team it joins. */
  function Idle<P>(crew: Crew): Aggregator<P> {
    Aggregator(map[], [], 0, 0, Rate(crew), 0, Staffed(crew), 0, 0)
  }

  lemma IdleIsValid<P>(combine: (P, P) -> P, crew: Crew)
    ensures Valid(combine, Idle<P>(crew))
  {
  }

  /** The members of a team under the ids they were given. */
  ghost predicate Joined<P>(subs: map<nat, Aggregator<P>>, members: seq<Crew>) {
    && (forall a :: a in subs <==> 1 <= a <= |members|)
    && (forall i :: 0 <= i < |members| ==> subs[i + 1] == Idle(members[i]))
  }

  lemma JoinedNext<P>(subs: map<nat, Aggregator<P>>, members: seq<Crew>, crew: Crew)
    requires Joined(subs, members)
    ensures Joined(subs[|members| + 1 := Idle(crew)], members + [crew])
  {
    hide Idle;
  }

  lemma {:induction false} JoinedLoad<P>(subs: map<nat, Aggregator<P>>, members: seq<Crew>, n: nat)
    requires Joined(subs, members) && n <= |members|
    ensures SubsPending(subs, n + 1) == 0 && SubsWeight(subs, n + 1) == 0
    ensures SubsThroughput(subs, n + 1) == Rates(members[..n])
  {
    if n > 0 {
      JoinedLoad(subs, members, n - 1);
      assert subs[n] == Idle(members[n - 1]) && members[..n][..n - 1] == members[..n - 1];
    } else {
      assert SubsThroughput(subs, 0) == 0.0 && SubsPending(subs, 0) == 0 && SubsWeight(subs, 0) == 0;
    }
  }

  lemma JoinedDriven<P>(subs: map<nat, Aggregator<P>>, members: seq<Crew>)
    requires Joined(subs, members)
    ensures Collected(subs) && (Driven(subs) <==> Staffed(Team(members)))
  {
    forall i | 0 <= i < |members| ensures i + 1 in subs && subs[i + 1] == Idle(members[i]) {
    }
    assert forall a :: a in subs ==> subs[a] == Idle(members[a - 1]);
  }

  /** A team without work is to its caller what its rate and its staff say, whatever its
      members are; so it may join another team as `Idle(Team(members))`. */
  method Build<P>(combine: (P, P) -> P, members: seq<Crew>) returns (team: RecursiveAggregator<P>)
    ensures fresh(team) && team.combine == combine && team.Valid()
    ensures team.View() == Idle(Team(members)) && Collected(team.subAggregators)
    ensures Driven(team.subAggregators) <==> Staffed(Team(members))
    ensures Joined(team.subAggregators, members) && team.Unused()
  {
    hide Idle, Staffed, Rates, Joined, Valid, SubsPending, SubsThroughput, SubsWeight, Driven, Collected, Consistent,
      Settled;
    team := new RecursiveAggregator(combine);
    NobodyJoined<P>();
    for i := 0 to |members|
      invariant fresh(team) && team.combine == combine && team.Valid()
      invariant team.Unused() && team.freeAggregatorIds == i + 1 && Joined(team.subAggregators, members[..i])
    {
      IdleIsValid(combine, members[i]);
      JoinedNext(team.subAggregators, members[..i], members[i]);
      assert members[..i] + [members[i]] == members[..i + 1];
      var _ := team.InsertSubAggregator(Idle(members[i]));
    }
    assert members[..|members|] == members;
    JoinedLoad(team.subAggregators, members, |members|);
    JoinedDriven(team.subAggregators, members);
    TeamIsIdle(members, team.View());
  }

  lemma NobodyJoined<P>()
    ensures Joined<P>(map[], [])
  {
  }

  lemma TeamIsIdle<P>(members: seq<Crew>, v: Aggregator<P>)
    requires v == Aggregator(map[], [], 0, 0, Rates(members), 0, Staffed(Team(members)), 0, 0)
    ensures v == Idle(Team(members))
  {
  }

  // ---------------------------------------------------------------- the drive loop

  /** What was pushed is owed or was emitted, as the root of its batch. */
  ghost predicate Delivered<P>(combine: (P, P) -> P, ids: seq<nat>, batches: seq<seq<P>>, owed: map<nat, seq<P>>,
      emitted: seq<Emitted<P>>) {
    && |ids| == |batches|
    && (forall i :: 0 <= i < |ids| ==> IsBatch(batches[i]))
    && (forall i :: 0 <= i < |ids| ==>
          if ids[i] in owed then owed[ids[i]] == batches[i]
          else Emitted(ids[i], Root(combine, batches[i])) in emitted)
    && |owed| + |emitted| == |batches|
  }

  /** Each batch came out under its id as its Merkle root, and nothing else did. */
  ghost predicate AllDelivered<P>(combine: (P, P) -> P, ids: seq<nat>, batches: seq<seq<P>>,
      emitted: seq<Emitted<P>>) {
    && |ids| == |batches| == |emitted|
    && forall i :: 0 <= i < |ids| ==>
         IsBatch(batches[i]) && Emitted(ids[i], Root(combine, batches[i])) in emitted
  }

  lemma DeliveredNext<P>(combine: (P, P) -> P, ids: seq<nat>, batches: seq<seq<P>>, owed: map<nat, seq<P>>,
      emitted: seq<Emitted<P>>, e: Emitted<P>)
    requires Delivered(combine, ids, batches, owed, emitted)
    requires e.id in owed && IsBatch(owed[e.id]) && e.proof == Root(combine, owed[e.id])
    ensures Delivered(combine, ids, batches, owed - {e.id}, emitted + [e])
  {
    hide Root, IsPowerOfTwo;
    assert owed.Keys == (owed - {e.id}).Keys + {e.id};
    forall i | 0 <= i < |ids| && ids[i] !in owed - {e.id}
      ensures Emitted(ids[i], Root(combine, batches[i])) in emitted + [e]
    {
      if ids[i] == e.id {
        assert e in emitted + [e];
      } else {
        assert Emitted(ids[i], Root(combine, batches[i])) in emitted;
      }
    }
  }

  lemma PushedNext<P>(combine: (P, P) -> P, ids: seq<nat>, batches: seq<seq<P>>, owed: map<nat, seq<P>>, id: nat,
      batch: seq<P>)
    requires Delivered(combine, ids, batches, owed, []) && id !in owed && IsBatch(batch)
    ensures id !in ids && Delivered(combine, ids + [id], batches + [batch], owed[id := batch], [])
  {
    hide Root, IsPowerOfTwo;
    assert owed[id := batch].Keys == owed.Keys + {id};
  }

  method PushAll<P>(team: RecursiveAggregator<P>, batches: seq<seq<P>>) returns (ids: seq<nat>)
    requires team.Valid() && Driven(team.subAggregators) && Collected(team.subAggregators) && team.owed == map[]
    requires forall i :: 0 <= i < |batches| ==> IsBatch(batches[i])
    modifies team
    ensures team.Valid() && Driven(team.subAggregators) && Collected(team.subAggregators)
    ensures DistinctNats(ids) && Delivered(team.combine, ids, batches, team.owed, [])
  {
    hide RecursiveAggregator.Valid, RecursiveAggregator.View, Valid, IsPowerOfTwo, Root, Driven, Collected, Delivered,
      IsBatch, Pushed;
    ids := [];
    NothingPushed(team.combine, team.owed);
    for i := 0 to |batches|
      invariant team.Valid() && Driven(team.subAggregators) && Collected(team.subAggregators)
      invariant DistinctNats(ids) && Delivered(team.combine, ids, batches[..i], team.owed, [])
    {
      ghost var owed := team.owed;
      var id := team.PushInternalProofs(batches[i]);
      PushedNext(team.combine, ids, batches[..i], owed, id, batches[i]);
      assert batches[..i] + [batches[i]] == batches[..i + 1];
      ids := ids + [id];
    }
    assert batches[..|batches|] == batches;
  }

  /** The drive loop of the aggregator's users, with every batch of theirs: push, and step until
      all proofs came out. It ends, and each batch's Merkle root came out under its id. */
  method AggregateBatches<P>(combine: (P, P) -> P, members: seq<Crew>, batches: seq<seq<P>>)
    returns (ids: seq<nat>, emitted: seq<Emitted<P>>)
    requires Staffed(Team(members)) && forall i :: 0 <= i < |batches| ==> IsBatch(batches[i])
    ensures DistinctNats(ids) && AllDelivered(combine, ids, batches, emitted)
  {
    hide RecursiveAggregator.Valid, Valid, IsPowerOfTwo, Root, Driven, Collected, Delivered, Staffed, IsBatch;
    var team := Build(combine, members);
    IdleOwesNothing(team.View(), Team(members));
    ids := PushAll(team, batches);
    emitted := [];
    for i := 0 to |batches|
      invariant fresh(team) && team.combine == combine && team.Valid()
      invariant Driven(team.subAggregators) && Collected(team.subAggregators)
      invariant |emitted| == i && Delivered(combine, ids, batches, team.owed, emitted)
    {
      ghost var owed := team.owed;
      SomethingLeft(combine, ids, batches, owed, emitted);
      var e := team.NextProof();
      DeliveredNext(combine, ids, batches, owed, emitted, e);
      emitted := emitted + [e];
    }
    NothingLeft(combine, ids, batches, team.owed, emitted);
  }

  lemma IdleOwesNothing<P>(v: Aggregator<P>, crew: Crew)
    requires v == Idle(crew)
    ensures v.owed == map[]
  {
  }

  lemma NothingPushed<P>(combine: (P, P) -> P, owed: map<nat, seq<P>>)
    requires owed == map[]
    ensures Delivered(combine, [], [], owed, [])
  {
  }

  lemma SomethingLeft<P>(combine: (P, P) -> P, ids: seq<nat>, batches: seq<seq<P>>, owed: map<nat, seq<P>>,
      emitted: seq<Emitted<P>>)
    requires Delivered(combine, ids, batches, owed, emitted) && |emitted| < |batches|
    ensures owed != map[]
  {
    hide Root, IsPowerOfTwo;
  }

  lemma NothingLeft<P>(combine: (P, P) -> P, ids: seq<nat>, batches: seq<seq<P>>, owed: map<nat, seq<P>>,
      emitted: seq<Emitted<P>>)
    requires Delivered(combine, ids, batches, owed, emitted) && |emitted| == |batches|
    ensures AllDelivered(combine, ids, batches, emitted)
  {
    hide Root, IsPowerOfTwo;
    assert owed == map[];
  }

  /** The drive loop of the aggregator's users, if it is given up after `limit` steps: a team
      whose members are well staffed but may all be too fast. After more steps than there are
      proofs in the batch it is decided: no number of further steps will help. With a slow
      enough member the proof is there by then. */
  method DriveTeam<P>(combine: (P, P) -> P, members: seq<Crew>, batch: seq<P>, limit: nat, more: nat)
    returns (e: Option<Emitted<P>>, late: Option<Emitted<P>>)
    requires IsBatch(batch) && forall i :: 0 <= i < |members| ==> Staffed(members[i])
    ensures e.Some? ==> e.value.proof == Root(combine, batch)
    ensures late.Some? ==> late.value.proof == Root(combine, batch)
    ensures e.Some? || limit > |batch| ==> late == None
    ensures Staffed(Team(members)) && limit > |batch| ==> e.Some?
    ensures TooFewForAll(members, |batch|) ==> e == None && late == None
  {
    hide RecursiveAggregator.Valid, Valid, Root, Driven, Collected, Staffed, Joined, Unable, IsBatch, IsPowerOfTwo,
      TooFewForAll;
    var team := Build(combine, members);
    JoinedPrompt(team.subAggregators, members, |batch|);
    var id := team.PushInternalProofs(batch);
    assert id in team.owed;
    e, late := None, None;
    e := team.Drive(limit);
    if e.None? {
      late := team.Drive(more);
    }
  }

  /** For every member that makes proofs at all the batch is too small. */
  predicate TooFewForAll(members: seq<Crew>, pending: nat) {
    forall i :: 0 <= i < |members| && Rate(members[i]) != 0.0 ==> pending < 2 * Rate(members[i]).Floor
  }

  lemma JoinedPrompt<P>(subs: map<nat, Aggregator<P>>, members: seq<Crew>, pending: nat)
    requires Joined(subs, members) && forall i :: 0 <= i < |members| ==> Staffed(members[i])
    ensures AllPrompt(subs) && (TooFewForAll(members, pending) ==> Unable(subs, pending))
  {
    hide Staffed, Rate;
    assert forall a :: a in subs ==> subs[a] == Idle(members[a - 1]);
  }

  /** In a team without a slow enough member, however well its members are staffed, a batch of
      two never comes out: no number of steps will do. */
  method TwoNeverComeOut<P>(combine: (P, P) -> P, members: seq<Crew>, batch: seq<P>, steps: nat)
    returns (e: Option<Emitted<P>>)
    requires |batch| == 2
    requires forall i :: 0 <= i < |members| ==> Staffed(members[i]) && !TakesTwo(members[i])
    ensures e == None
  {
    hide Root, Staffed;
    assert IsPowerOfTwo(2);
    TwoAreTooFew(members);
    var never;
    e, never := DriveTeam(combine, members, batch, steps, 0);
  }

  /** Two are too few for every member exactly if none is slow enough. */
  lemma TwoAreTooFew(members: seq<Crew>)
    ensures TooFewForAll(members, 2) <==> forall i :: 0 <= i < |members| ==> !TakesTwo(members[i])
  {
    hide Rate;
    forall i | 0 <= i < |members|
      ensures (Rate(members[i]) != 0.0 ==> 2 < 2 * Rate(members[i]).Floor) <==> !TakesTwo(members[i])
    {
      RateIsLegal(members[i]);
    }
  }

  lemma RateIsLegal(crew: Crew)
    ensures Rate(crew) == 0.0 || Rate(crew) >= 1.0
  {
  }

  /** One batch, and any number of workers. */
  method AggregateWithWorkers<P>(combine: (P, P) -> P, batch: seq<P>, workers: nat) returns (proof: P)
    requires IsBatch(batch) && workers > 0
    ensures proof == Root(combine, batch)
  {
    hide Root, IsPowerOfTwo;
    var members := seq(workers, _ => Worker);
    WorkersAreStaff(members);
    var ids, emitted := AggregateBatches(combine, members, [batch]);
    assert [batch][0] == batch;
    return emitted[0].proof;
  }

  lemma WorkersAreStaff(members: seq<Crew>)
    requires members != [] && forall i :: 0 <= i < |members| ==> members[i] == Worker
    ensures Staffed(Team(members))
  {
    assert TakesTwo(members[0]);
  }
}
