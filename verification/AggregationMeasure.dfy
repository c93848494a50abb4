/** How much work a `RecursiveAggregator` has left: the queued proofs, the work left at its
    sub-aggregators, and the pieces waiting to be merged. While anything is pending, there is
    more of it than there are unfinished batches. */
module AggregationMeasure {
  import opened MerkleRoot
  import opened AggregatorContract
  import opened Wrappers
  import opened AggregationForest
  import opened AggregationBooks

  /** Weight of the sub-aggregators with ids below `n`. */
  ghost function SubsWeight<P>(subs: map<nat, Aggregator<P>>, n: nat): nat {
    if n == 0 then 0 else SubsWeight(subs, n - 1) + if n - 1 in subs then Weight(subs[n - 1]) else 0
  }

  lemma {:induction false} SubsWeightUpdate<P>(subs: map<nat, Aggregator<P>>, n: nat, a: nat, s: Aggregator<P>)
    requires a in subs
    ensures SubsWeight(subs[a := s], n) == SubsWeight(subs, n) + if a < n then Weight(s) - Weight(subs[a]) else 0
  {
    if n > 0 {
      SubsWeightUpdate(subs, n - 1, a, s);
    }
  }

  ghost function Work<P>(s: Books<P>): nat {
    |Flatten(s.queue)| + SubsWeight(s.subs, s.nextAgg) + |s.proofs|
  }

  // ---------------------------------------------------------------- the number of leaves

  /** Every split has two children of its own. */
  lemma {:induction false} ParentsCount(self: nat, parents: map<Key, Key>, children: map<Key, Pair>)
    requires Tree(self, parents, children)
    ensures |parents| == 2 * |children|
    decreases |children|
  {
    if children == map[] {
      assert parents.Keys == {};
    } else {
      var p :| p in children;
      var l, r := children[p].left, children[p].right;
      TreeLinks(self, parents, children, p);
      MergeTree(self, parents, children, p);
      hide Tree;
      assert children.Keys == (children - {p}).Keys + {p};
      assert parents.Keys == (parents - {l, r}).Keys + {l, r};
      ParentsCount(self, parents - {l, r}, children - {p});
    }
  }

  ghost function Image(roots: map<nat, Key>): set<Key> {
    set id | id in roots :: roots[id]
  }

  lemma {:induction false} ImageSize(aliases: map<Key, nat>, roots: map<nat, Key>)
    requires forall id :: id in roots ==> RootId(aliases, roots[id]) == id
    ensures |Image(roots)| == |roots|
    decreases |roots|
  {
    if roots != map[] {
      var id :| id in roots;
      ImageSize(aliases, roots - {id});
      hide RootId;
      assert roots.Keys == (roots - {id}).Keys + {id};
      assert Image(roots) == Image(roots - {id}) + {roots[id]};
      assert roots[id] !in Image(roots - {id});
    }
  }

  lemma DisjointSizes<T>(a: set<T>, b: set<T>)
    requires a !! b
    ensures |a + b| == |a| + |b|
  {
  }

  lemma SubsetSize<T>(a: set<T>, b: set<T>)
    requires a <= b
    ensures |a| <= |b|
  {
    DisjointSizes(a, b - a);
    assert a + (b - a) == b;
  }

  /** There are at least as many leaves, queued, in flight or resolved, as roots. */
  lemma LeavesCount(self: nat, live: set<Key>, parents: map<Key, Key>, children: map<Key, Pair>,
      queued: set<Key>, flying: set<Key>, resolved: set<Key>, aliases: map<Key, nat>, roots: map<nat, Key>)
    requires Shape(self, live, parents, children, queued, flying, resolved, aliases, roots)
    ensures |roots| <= |queued| + |flying| + |resolved|
  {
    ParentsCount(self, parents, children);
    hide Tree;
    RootsAreApart(self, live, parents, aliases, roots);
    hide Rooted;
    ImageSize(aliases, roots);
    DisjointSizes(parents.Keys, Image(roots));
    SubsetSize(parents.Keys + Image(roots), live);
    PlacedSize(live, children.Keys, queued, flying, resolved);
  }

  lemma RootsAreApart(self: nat, live: set<Key>, parents: map<Key, Key>, aliases: map<Key, nat>, roots: map<nat, Key>)
    requires Rooted(self, live, parents, aliases, roots)
    ensures parents.Keys !! Image(roots) && parents.Keys + Image(roots) <= live
    ensures forall id :: id in roots ==> RootId(aliases, roots[id]) == id
  {
    hide RootId, Ours;
  }

  lemma PlacedSize(live: set<Key>, split: set<Key>, queued: set<Key>, flying: set<Key>, resolved: set<Key>)
    requires Placed(live, split, queued, flying, resolved)
    ensures |live| == |split| + |queued| + |flying| + |resolved|
  {
    DisjointSizes(split, queued);
    DisjointSizes(split + queued, flying);
    DisjointSizes(split + queued + flying, resolved);
  }

  // ---------------------------------------------------------------- the work in each place

  lemma {:induction false} QueueWork<P>(self: nat, queue: seq<Batch<P>>)
    requires forall b :: b in queue ==> |b.proofs| > 1
    ensures |QueueKeys(self, queue)| <= |Flatten(queue)|
    ensures queue != [] ==> |QueueKeys(self, queue)| < |Flatten(queue)|
  {
    if queue != [] {
      var k := Key(self, queue[0].id);
      QueueWork(self, queue[1..]);
      assert forall b :: b in queue <==> b == queue[0] || b in queue[1..];
      assert QueueKeys(self, queue) == {k} + QueueKeys(self, queue[1..]);
      hide QueueKeys;
      assert |queue[0].proofs| > 1;
    }
  }

  /** The keys of the batches that sub-aggregator `a` holds. */
  ghost function HeldKeys(a: nat, ids: set<nat>): set<Key> {
    set id | id in ids :: Key(a, id)
  }

  lemma {:induction false} HeldSize(a: nat, ids: set<nat>)
    ensures |HeldKeys(a, ids)| == |ids|
    decreases |ids|
  {
    if ids != {} {
      var id :| id in ids;
      HeldSize(a, ids - {id});
      assert HeldKeys(a, ids) == HeldKeys(a, ids - {id}) + {Key(a, id)};
    }
  }

  lemma {:induction false} IdsSize<P>(es: seq<Emitted<P>>)
    ensures |Ids(es)| <= |es|
  {
    if es != [] {
      IdsSize(es[1..]);
      IdsOfRest(es);
    }
  }

  /** A prompt sub-aggregator weighs at least as much as it holds batches. */
  lemma HeldWork<P>(combine: (P, P) -> P, s: Aggregator<P>)
    requires Valid(combine, s) && s.prompt
    ensures |s.owed.Keys| <= Weight(s)
    ensures s.pending > 0 ==> |s.owed.Keys| < Weight(s)
  {
    hide Root, IsPowerOfTwo, Honest;
    var done := s.owed.Keys - Open(s.owed, s.ready);
    DisjointSizes(done, Open(s.owed, s.ready));
    assert done + Open(s.owed, s.ready) == s.owed.Keys;
    SubsetSize(done, Ids(s.ready));
    IdsSize(s.ready);
  }

  /** The keys in flight at the sub-aggregators with ids below `n`. */
  ghost function FlightBelow<P>(subs: map<nat, Aggregator<P>>, n: nat): set<Key> {
    if n == 0 then {}
    else FlightBelow(subs, n - 1) + if n - 1 in subs then HeldKeys(n - 1, subs[n - 1].owed.Keys) else {}
  }

  lemma {:induction false} FlightBelowHas<P>(subs: map<nat, Aggregator<P>>, n: nat)
    ensures forall a, id :: a in subs && a < n && id in subs[a].owed ==> Key(a, id) in FlightBelow(subs, n)
  {
    if n > 0 {
      FlightBelowHas(subs, n - 1);
    }
  }

  lemma {:induction false} FlightWork<P>(combine: (P, P) -> P, subs: map<nat, Aggregator<P>>, n: nat, busy: nat)
    requires SubsValid(combine, subs) && AllPrompt(subs)
    ensures |FlightBelow(subs, n)| <= SubsWeight(subs, n)
    ensures busy in subs && busy < n && subs[busy].pending > 0 ==> |FlightBelow(subs, n)| < SubsWeight(subs, n)
  {
    hide *;
    FlightStep(subs, n);
    if n > 0 {
      FlightWork(combine, subs, n - 1, busy);
      if n - 1 in subs {
        HeldAt(combine, subs, n - 1);
      }
    }
  }

  lemma FlightStep<P>(subs: map<nat, Aggregator<P>>, n: nat)
    ensures n == 0 ==> FlightBelow(subs, n) == {}
    ensures n > 0 && n - 1 !in subs ==>
      FlightBelow(subs, n) == FlightBelow(subs, n - 1) && SubsWeight(subs, n) == SubsWeight(subs, n - 1)
    ensures n > 0 && n - 1 in subs ==>
      && |FlightBelow(subs, n)| <= |FlightBelow(subs, n - 1)| + |HeldKeys(n - 1, subs[n - 1].owed.Keys)|
      && SubsWeight(subs, n) == SubsWeight(subs, n - 1) + Weight(subs[n - 1])
  {
    hide HeldKeys, Weight;
    if n > 0 && n - 1 in subs {
      UnionSize(FlightBelow(subs, n - 1), HeldKeys(n - 1, subs[n - 1].owed.Keys));
    }
  }

  lemma HeldAt<P>(combine: (P, P) -> P, subs: map<nat, Aggregator<P>>, a: nat)
    requires SubsValid(combine, subs) && AllPrompt(subs) && a in subs
    ensures |HeldKeys(a, subs[a].owed.Keys)| <= Weight(subs[a])
    ensures subs[a].pending > 0 ==> |HeldKeys(a, subs[a].owed.Keys)| < Weight(subs[a])
  {
    hide Valid, HeldKeys, Weight;
    HeldWork(combine, subs[a]);
    HeldSize(a, subs[a].owed.Keys);
  }

  lemma UnionSize<T>(a: set<T>, b: set<T>)
    ensures |a + b| <= |a| + |b|
  {
    DisjointSizes(a, b - a);
    SubsetSize(b - a, b);
    assert a + (b - a) == a + b;
  }

  /** With single pieces only, a resolved key is a stored proof. */
  lemma ResolvedWork<P>(combine: (P, P) -> P, self: nat, descendants: map<Key, seq<Key>>, proofs: map<Key, P>,
      spec: map<Key, P>)
    requires Resolved(combine, self, descendants, proofs, spec)
    requires forall k :: k in descendants ==> |descendants[k]| == 1
    ensures |descendants| <= |proofs|
  {
    hide Root, IsPowerOfTwo;
    forall k | k in descendants ensures k in proofs {
      assert Entry(combine, self, proofs, spec, k, descendants[k]) && descendants[k] == [k];
    }
    SubsetSize(descendants.Keys, proofs.Keys);
  }

  /** While anything is pending, there is more work than there are unfinished batches. */
  lemma MoreWorkThanBatches<P>(combine: (P, P) -> P, s: Books<P>)
    requires Consistent(combine, s) && AllPrompt(s.subs) && (s.queue != [] || Busy(s.subs))
    requires forall k :: k in s.descendants ==> |s.descendants[k]| == 1
    ensures |s.roots| < Work(s)
  {
    hide Shape, ChildValues, FlightValues, Resolved, Partition, RootValues, Valid, Honest, Accounted, DistinctBatches,
      Root, IsPowerOfTwo, FlightKeys, QueueKeys, SubsWeight, Flatten;
    LeavesCount(s.self, s.spec.Keys, s.parents, s.children, QueueKeys(s.self, s.queue), FlightKeys(s.subs),
                s.descendants.Keys, s.aliases, s.roots);
    assert forall b :: b in s.queue ==> Produces(combine, s.spec, Key(s.self, b.id), b.proofs);
    QueueWork(s.self, s.queue);
    var busy: nat := if Busy(s.subs) then var a :| a in s.subs && s.subs[a].pending > 0; a else 0;
    FlightWork(combine, s.subs, s.nextAgg, busy);
    AllBelow(s.subs, s.nextAgg);
    ResolvedWork(combine, s.self, s.descendants, s.proofs, s.spec);
  }

  lemma AllBelow<P>(subs: map<nat, Aggregator<P>>, n: nat)
    requires forall a :: a in subs ==> a < n
    ensures |FlightKeys(subs)| <= |FlightBelow(subs, n)|
  {
    FlightBelowHas(subs, n);
    hide FlightBelow;
    SubsetSize(FlightKeys(subs), FlightBelow(subs, n));
  }

  // ---------------------------------------------------------------- no work

  /** Sub-aggregators without pending proofs and an empty queue leave no batch unfinished. */
  lemma IdleIsDone<P>(combine: (P, P) -> P, s: Books<P>)
    requires Consistent(combine, s) && s.queue == [] && Settled(s.children, s.descendants, {})
    requires AllPrompt(s.subs) && Collected(s.subs) && !Busy(s.subs)
    requires forall k :: k in s.descendants ==> |s.descendants[k]| == 1 && k !in s.aliases
    ensures s.roots == map[]
  {
    hide Tree, Rooted, ChildValues, QueueValues, FlightValues, RootValues, Partition, Settled, Root, IsPowerOfTwo;
    forall a | a in s.subs ensures s.subs[a].owed == map[] {
      NothingHeld(combine, s.subs[a]);
    }
    NothingOwedIsDone(combine, s);
  }

  lemma NothingOwedIsDone<P>(combine: (P, P) -> P, s: Books<P>)
    requires Consistent(combine, s) && s.queue == [] && Settled(s.children, s.descendants, {})
    requires NothingOwed(s.subs)
    requires forall k :: k in s.descendants ==> |s.descendants[k]| == 1 && k !in s.aliases
    ensures s.roots == map[]
  {
    hide Tree, Rooted, ChildValues, QueueValues, FlightValues, RootValues, Partition, Settled, Root, IsPowerOfTwo;
    assert QueueKeys(s.self, s.queue) == {} && FlightKeys(s.subs) == {};
    IdleMeansDone(combine, s.self, s.spec.Keys, s.parents, s.children, s.aliases, s.descendants, s.proofs, s.spec,
                  s.roots);
  }

  /** A prompt aggregator without pending proofs, whose finished proofs were taken, holds nothing. */
  lemma NothingHeld<P>(combine: (P, P) -> P, s: Aggregator<P>)
    requires Valid(combine, s) && s.prompt && s.pending == 0 && s.ready == []
    ensures s.owed == map[]
  {
    hide Root, IsPowerOfTwo, Honest;
    assert Ids(s.ready) == {};
    assert forall id :: id in s.owed ==> id in Open(s.owed, s.ready);
  }
}
