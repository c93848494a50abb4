/** The `Aggregator` trait as seen by its caller.

    `Box<dyn Aggregator>` is an owned value, so a boxed sub-aggregator is modelled by the
    state its caller can observe. The predicates say what every implementation promises;
    the methods below promise no more than that, so whoever uses them is proved correct for
    all implementations. */
module AggregatorContract {
  import opened MerkleRoot
  import opened Wrappers

  datatype Batch<P> = Batch(id: nat, proofs: seq<P>)

  datatype Emitted<P> = Emitted(id: nat, proof: P)

  /** `owed`: batches pushed and not yet popped; `ready`: proofs waiting to be popped;
      `pending`: the reported pending queue size; `prompt`: its steps
      bring an aggregator with pending proofs nearer to its end, and nothing unfinished goes
      unreported; `left`: how far away that end is; `steps` and `syncs`: how often it was asked
      to step and to synchronise. */
  datatype Aggregator<P> = Aggregator(
    owed: map<nat, seq<P>>,
    ready: seq<Emitted<P>>,
    nextId: nat,
    pending: nat,
    throughput: real,
    left: nat,
    prompt: bool,
    steps: nat,
    syncs: nat)

  /** The queued proofs, in order. */
  function Flatten<P>(queue: seq<Batch<P>>): seq<P> {
    if queue == [] then [] else queue[0].proofs + Flatten(queue[1..])
  }

  function QueueTotal<P>(queue: seq<Batch<P>>): (n: nat)
    ensures n == |Flatten(queue)|
  {
    if queue == [] then 0 else |queue[0].proofs| + QueueTotal(queue[1..])
  }

  lemma {:induction false} QueueTotalBack<P>(queue: seq<Batch<P>>, b: Batch<P>)
    ensures QueueTotal(queue + [b]) == QueueTotal(queue) + |b.proofs|
  {
    if queue == [] {
      assert [b][1..] == [];
    } else {
      QueueTotalBack(queue[1..], b);
      assert (queue + [b])[1..] == queue[1..] + [b];
    }
  }

  predicate IsBatch<P>(proofs: seq<P>) {
    |proofs| > 1 && IsPowerOfTwo(|proofs|)
  }

  function Ids<P>(es: seq<Emitted<P>>): set<nat> {
    set i | 0 <= i < |es| :: es[i].id
  }

  lemma IdsOfAppend<P>(es: seq<Emitted<P>>, e: Emitted<P>)
    ensures Ids(es + [e]) == Ids(es) + {e.id}
  {
    forall id | id in Ids(es) + {e.id} ensures id in Ids(es + [e]) {
      if id in Ids(es) {
        var i :| 0 <= i < |es| && es[i].id == id;
        assert (es + [e])[i].id == id;
      } else {
        assert (es + [e])[|es|].id == id;
      }
    }
  }

  lemma IdsOfRest<P>(es: seq<Emitted<P>>)
    requires es != []
    ensures Ids(es) == {es[0].id} + Ids(es[1..])
  {
    forall id | id in Ids(es) ensures id in {es[0].id} + Ids(es[1..]) {
      var i :| 0 <= i < |es| && es[i].id == id;
      assert i > 0 ==> es[1..][i - 1].id == id;
    }
  }

  ghost predicate DistinctIds<P>(es: seq<Emitted<P>>) {
    forall i, j :: 0 <= i < j < |es| ==> es[i].id != es[j].id
  }

  /** Every waiting proof is the root of the batch pushed under its id, at most one each. */
  ghost predicate Honest<P>(combine: (P, P) -> P, owed: map<nat, seq<P>>, ready: seq<Emitted<P>>) {
    && (forall id :: id in owed ==> IsBatch(owed[id]))
    && (forall e :: e in ready ==> e.id in owed && e.proof == Root(combine, owed[e.id]))
    && DistinctIds(ready)
  }

  /** The batches that have not been finished. */
  function Open<P>(owed: map<nat, seq<P>>, ready: seq<Emitted<P>>): set<nat> {
    set id | id in owed && id !in Ids(ready)
  }

  /** If anything is unfinished then something is reported as pending, and then there is more
      work left than there are unfinished batches. */
  ghost predicate Weighed(unfinished: set<nat>, pending: nat, left: nat) {
    (unfinished != {} ==> pending > 0) && (pending > 0 ==> |unfinished| < left)
  }

  ghost predicate Valid<P>(combine: (P, P) -> P, s: Aggregator<P>) {
    && Honest(combine, s.owed, s.ready)
    && (forall id :: id in s.owed ==> id < s.nextId)
    && (s.throughput == 0.0 || s.throughput >= 1.0)
    && (s.prompt ==> Weighed(Open(s.owed, s.ready), s.pending, s.left))
  }

  /** A prompt aggregator stays prompt and keeps its throughput. */
  ghost predicate SameKind<P>(s: Aggregator<P>, s': Aggregator<P>) {
    s.prompt ==> s'.prompt && s'.throughput == s.throughput
  }

  ghost predicate Pushed<P>(s: Aggregator<P>, proofs: seq<P>, id: nat, s': Aggregator<P>) {
    && s.nextId <= id < s'.nextId
    && s'.owed == s.owed[id := proofs]
    && s'.ready == s.ready && s'.steps == s.steps && s'.syncs == s.syncs
    && SameKind(s, s')
    && (s.prompt ==> s'.pending == s.pending + |proofs| && s'.left == s.left + |proofs|)
  }

  /** What `step` and `sync` may do: finish owed batches, and never take a proof back. */
  ghost predicate Advanced<P>(s: Aggregator<P>, s': Aggregator<P>) {
    && s'.owed == s.owed
    && s.ready <= s'.ready
    && s.nextId <= s'.nextId
    && SameKind(s, s')
  }

  /** What a step of a prompt aggregator achieves. */
  ghost predicate Nearer<P>(s: Aggregator<P>, s': Aggregator<P>) {
    s.prompt ==> Weight(s') <= Weight(s) && (s.pending > 0 ==> Weight(s') < Weight(s))
  }

  /** The aggregator was asked to make a step, and to synchronise, which means nothing to a
      prompt one. */
  ghost predicate Stepped<P>(s: Aggregator<P>, s': Aggregator<P>) {
    Advanced(s, s') && Nearer(s, s') && s'.steps == s.steps + 1 && s'.syncs == s.syncs
  }

  ghost predicate Synced<P>(s: Aggregator<P>, s': Aggregator<P>) {
    && Advanced(s, s') && s'.steps == s.steps && s'.syncs == s.syncs + 1
    && (s.prompt ==> s' == s.(syncs := s.syncs + 1))
  }

  ghost predicate Popped<P>(s: Aggregator<P>, e: Option<Emitted<P>>, s': Aggregator<P>) {
    match e
    case None => s.ready == [] && s' == s
    case Some(v) => s.ready != [] && v == s.ready[0] && s' == s.(owed := s.owed - {v.id}, ready := s.ready[1..])
  }

  /** The work left, and the proofs waiting to be collected. */
  ghost function Weight<P>(s: Aggregator<P>): nat {
    s.left + |s.ready|
  }

  /** Some sub-aggregator has work. */
  ghost predicate Busy<P>(subs: map<nat, Aggregator<P>>) {
    exists a :: a in subs && subs[a].pending > 0
  }

  ghost predicate AllPrompt<P>(subs: map<nat, Aggregator<P>>) {
    forall a :: a in subs ==> subs[a].prompt
  }

  ghost predicate NothingOwed<P>(subs: map<nat, Aggregator<P>>) {
    forall a :: a in subs ==> subs[a].owed == map[]
  }

  /** Every finished proof of a prompt sub-aggregator has been taken. */
  ghost predicate Collected<P>(subs: map<nat, Aggregator<P>>) {
    forall a :: a in subs && subs[a].prompt ==> subs[a].ready == []
  }

  /** A new batch is unfinished. */
  lemma OpenPush<P>(owed: map<nat, seq<P>>, ready: seq<Emitted<P>>, id: nat, proofs: seq<P>)
    requires id !in Ids(ready)
    ensures Open(owed[id := proofs], ready) == Open(owed, ready) + {id}
  {
    hide Ids;
  }

  /** A finished batch is not. */
  lemma OpenFinish<P>(owed: map<nat, seq<P>>, ready: seq<Emitted<P>>, e: Emitted<P>)
    ensures Open(owed, ready + [e]) == Open(owed, ready) - {e.id}
  {
    IdsOfAppend(ready, e);
    hide Ids;
  }

  /** Whether a batch that was popped was finished no longer matters. */
  lemma OpenPop<P>(owed: map<nat, seq<P>>, ready: seq<Emitted<P>>)
    requires ready != []
    ensures Open(owed - {ready[0].id}, ready[1..]) == Open(owed, ready)
  {
    IdsOfRest(ready);
    hide Ids;
  }

  lemma HonestPush<P>(combine: (P, P) -> P, owed: map<nat, seq<P>>, ready: seq<Emitted<P>>, id: nat, proofs: seq<P>)
    requires Honest(combine, owed, ready) && id !in owed && IsBatch(proofs)
    ensures Honest(combine, owed[id := proofs], ready) && id !in Ids(ready)
  {
    hide Root, IsPowerOfTwo;
  }

  lemma HonestAppend<P>(combine: (P, P) -> P, owed: map<nat, seq<P>>, ready: seq<Emitted<P>>, id: nat)
    requires Honest(combine, owed, ready) && id in Open(owed, ready)
    ensures Honest(combine, owed, ready + [Emitted(id, Root(combine, owed[id]))])
  {
    hide Root, IsPowerOfTwo;
    assert forall i :: 0 <= i < |ready| ==> ready[i].id in Ids(ready);
  }

  /** Some finished proofs were popped, and nothing else happened. */
  ghost predicate Taken<P>(s: Aggregator<P>, s': Aggregator<P>) {
    && s' == s.(owed := s'.owed, ready := s'.ready) && |s'.ready| <= |s.ready|
    && forall id :: id in s'.owed ==> id in s.owed && s'.owed[id] == s.owed[id]
  }

  /** The aggregator was asked to make one step and to synchronise once, and every proof that
      it had finished then was taken. */
  ghost predicate Worked<P>(s: Aggregator<P>, s': Aggregator<P>) {
    && s'.steps == s.steps + 1 && s'.syncs == s.syncs + 1 && s'.ready == []
    && s.nextId <= s'.nextId && SameKind(s, s')
    && (forall id :: id in s'.owed ==> id in s.owed && s'.owed[id] == s.owed[id])
    && Nearer(s, s')
  }

  lemma TakenNothing<P>(s: Aggregator<P>)
    ensures Taken(s, s)
  {
  }

  lemma TakenTwice<P>(s: Aggregator<P>, s': Aggregator<P>, s'': Aggregator<P>)
    requires Taken(s, s') && Taken(s', s'')
    ensures Taken(s, s'')
  {
  }

  lemma TakenWorked<P>(s: Aggregator<P>, stepped: Aggregator<P>, synced: Aggregator<P>, s': Aggregator<P>)
    requires Stepped(s, stepped) && Synced(stepped, synced) && Taken(synced, s') && s'.ready == []
    ensures Worked(s, s')
  {
  }

  method Push<P>(combine: (P, P) -> P, s: Aggregator<P>, proofs: seq<P>) returns (s': Aggregator<P>, id: nat)
    requires Valid(combine, s) && IsBatch(proofs)
    ensures Valid(combine, s') && Pushed(s, proofs, id, s')
  {
    hide Root, IsPowerOfTwo, Open, Honest;
    var gap :| 0 <= gap;
    id := s.nextId + gap;
    HonestPush(combine, s.owed, s.ready, id, proofs);
    OpenPush(s.owed, s.ready, id, proofs);
    s' := s.(owed := s.owed[id := proofs], nextId := id + 1,
             pending := s.pending + |proofs|, left := s.left + |proofs|);
    if !s.prompt {
      s' := Fluctuate(combine, s');
    }
  }

  /** A remote aggregator may report any load. */
  method Fluctuate<P>(combine: (P, P) -> P, s: Aggregator<P>) returns (s': Aggregator<P>)
    requires Valid(combine, s) && !s.prompt
    ensures Valid(combine, s') && s' == s.(pending := s'.pending, throughput := s'.throughput)
  {
    var pending :| 0 <= pending;
    var throughput: real := *;
    s' := s.(pending := pending, throughput := if throughput < 1.0 then 0.0 else throughput);
  }

  /** Any number of owed batches, or all of them, in any order. */
  method FinishSome<P>(combine: (P, P) -> P, s: Aggregator<P>, all: bool) returns (ready: seq<Emitted<P>>)
    requires Honest(combine, s.owed, s.ready)
    ensures Honest(combine, s.owed, ready) && s.ready <= ready
    ensures |ready| + |Open(s.owed, ready)| == |s.ready| + |Open(s.owed, s.ready)|
    ensures all ==> Open(s.owed, ready) == {}
  {
    hide Root, IsPowerOfTwo, Open, Ids;
    ready := s.ready;
    var more: bool := *;
    while (more || all) && Open(s.owed, ready) != {}
      invariant Honest(combine, s.owed, ready) && s.ready <= ready
      invariant |ready| + |Open(s.owed, ready)| == |s.ready| + |Open(s.owed, s.ready)|
      decreases |Open(s.owed, ready)|
    {
      var id :| id in Open(s.owed, ready);
      ready := Finish(combine, s.owed, ready, id);
      more := *;
    }
  }

  method Finish<P>(combine: (P, P) -> P, owed: map<nat, seq<P>>, ready: seq<Emitted<P>>, id: nat)
    returns (ready': seq<Emitted<P>>)
    requires Honest(combine, owed, ready) && id in Open(owed, ready)
    ensures Honest(combine, owed, ready') && ready' == ready + [Emitted(id, Root(combine, owed[id]))]
    ensures Open(owed, ready') == Open(owed, ready) - {id}
  {
    HonestAppend(combine, owed, ready, id);
    OpenFinish(owed, ready, Emitted(id, Root(combine, owed[id])));
    ready' := ready + [Emitted(id, Root(combine, owed[id]))];
  }

  /** A prompt aggregator with pending proofs gets nearer to its end, by finishing batches or
      by preparing to. */
  method Step<P>(combine: (P, P) -> P, s: Aggregator<P>) returns (s': Aggregator<P>)
    requires Valid(combine, s)
    ensures Valid(combine, s') && Stepped(s, s')
  {
    hide Root, IsPowerOfTwo, Open, Honest;
    if s.prompt {
      s' := s;
      if s.pending > 0 {
        var ready := FinishSome(combine, s, false);
        var left := Leave(s.left - (|ready| - |s.ready|), |Open(s.owed, ready)|);
        if left.None? {
          ready := FinishSome(combine, s, true);
          left := Some(0);
        }
        var pending: nat := *;
        var idle := left.value == 0 || (Open(s.owed, ready) == {} && pending == 0);
        s' := s.(ready := ready, left := left.value,
                 pending := if idle then 0 else if pending == 0 then 1 else pending);
      }
    } else {
      s' := FinishAny(combine, s);
    }
    s' := s'.(steps := s.steps + 1);
  }

  /** Less than `total` and more than `batches`, if there is room. */
  method Leave(total: int, batches: nat) returns (left: Option<nat>)
    ensures left.Some? ==> batches < left.value < total
  {
    left := None;
    if batches + 1 < total {
      var n: nat :| batches < n < total;
      left := Some(n);
    }
  }

  method Sync<P>(combine: (P, P) -> P, s: Aggregator<P>) returns (s': Aggregator<P>)
    requires Valid(combine, s)
    ensures Valid(combine, s') && Synced(s, s')
  {
    hide Root, IsPowerOfTwo, Open, Honest;
    s' := s;
    if !s.prompt {
      s' := FinishAny(combine, s);
    }
    s' := s'.(syncs := s.syncs + 1);
  }

  method FinishAny<P>(combine: (P, P) -> P, s: Aggregator<P>) returns (s': Aggregator<P>)
    requires Valid(combine, s) && !s.prompt
    ensures Valid(combine, s') && Advanced(s, s') && s'.steps == s.steps && s'.syncs == s.syncs
  {
    hide Root, IsPowerOfTwo, Open, Honest;
    var ready := FinishSome(combine, s, false);
    s' := Fluctuate(combine, s.(ready := ready));
  }

  /** Taking the first waiting proof leaves a valid aggregator that no longer owes its batch. */
  lemma PopKeepsValid<P>(combine: (P, P) -> P, s: Aggregator<P>)
    requires Valid(combine, s) && s.ready != []
    ensures Valid(combine, s.(owed := s.owed - {s.ready[0].id}, ready := s.ready[1..]))
  {
    hide Root, IsPowerOfTwo, Open;
    OpenPop(s.owed, s.ready);
    assert forall e :: e in s.ready[1..] ==> e in s.ready;
  }

  method Pop<P>(combine: (P, P) -> P, s: Aggregator<P>) returns (s': Aggregator<P>, e: Option<Emitted<P>>)
    requires Valid(combine, s)
    ensures Valid(combine, s') && Popped(s, e, s')
  {
    if s.ready == [] {
      return s, None;
    }
    PopKeepsValid(combine, s);
    e := Some(s.ready[0]);
    s' := s.(owed := s.owed - {e.value.id}, ready := s.ready[1..]);
  }
}
