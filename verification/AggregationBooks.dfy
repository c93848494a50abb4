/** The state of `RecursiveAggregator` and the elementary updates of `push`, `pop` and
    `step` as functions on it; each keeps the invariant `Consistent`. */
module AggregationBooks {
  import opened MerkleRoot
  import opened AggregatorContract
  import opened Wrappers
  import opened AggregationForest

  // ---------------------------------------------------------------- the whole state

  /** The fields of `RecursiveAggregator`, with `queue` the batches to be handed out, and
      three that only the proof needs: what the caller is owed, what each live key has to
      produce, and the key that now stands for each batch still to be emitted. */
  datatype Books<P> = Books(
    self: nat, nextAgg: nat, nextId: nat,
    queue: seq<Batch<P>>,
    parents: map<Key, Key>, children: map<Key, Pair>, aliases: map<Key, nat>,
    descendants: map<Key, seq<Key>>, proofs: map<Key, P>,
    subs: map<nat, Aggregator<P>>,
    output: seq<Emitted<P>>,
    owed: map<nat, seq<P>>, spec: map<Key, P>, roots: map<nat, Key>)

  ghost predicate Shaped<P>(s: Books<P>) {
    Shape(s.self, s.spec.Keys, s.parents, s.children, QueueKeys(s.self, s.queue), FlightKeys(s.subs),
          s.descendants.Keys, s.aliases, s.roots)
  }

  ghost predicate Valued<P>(combine: (P, P) -> P, s: Books<P>) {
    Values(combine, s.self, s.queue, s.children, s.subs, s.descendants, s.proofs, s.spec, s.owed, s.roots)
  }

  ghost predicate Numbered<P>(s: Books<P>) {
    Identified(s.self, s.nextAgg, s.nextId, s.subs, s.spec.Keys, s.proofs.Keys, s.owed.Keys)
  }

  ghost predicate Consistent<P>(combine: (P, P) -> P, s: Books<P>) {
    && Shaped(s) && Valued(combine, s) && Numbered(s) && DistinctBatches(s.queue)
    && SubsValid(combine, s.subs) && Accounted(s.owed, s.roots, s.output) && Honest(combine, s.owed, s.output)
  }

  /** The batch at the front of the queue is replaced by its two halves. */
  ghost function AfterSplit<P>(combine: (P, P) -> P, s: Books<P>): Books<P>
    requires s.queue != [] && IsBatch(s.queue[0].proofs) && |s.queue[0].proofs| > 2
  {
    var half := |s.queue[0].proofs| / 2;
    var first := Batch(s.nextId + 1, s.queue[0].proofs[..half]);
    var second := Batch(s.nextId, s.queue[0].proofs[half..]);
    var q := Key(s.self, s.queue[0].id);
    var k := Key(s.self, first.id);
    var k1 := Key(s.self, second.id);
    s.(nextId := s.nextId + 2,
       queue := [first] + ([second] + s.queue[1..]),
       parents := s.parents[k := q][k1 := q],
       children := s.children[q := Pair(k, k1)],
       spec := s.spec[k := Root(combine, first.proofs)][k1 := Root(combine, second.proofs)])
  }

  lemma SplitShaped<P>(combine: (P, P) -> P, s: Books<P>)
    requires Shaped(s) && Numbered(s) && DistinctBatches(s.queue)
    requires s.queue != [] && IsBatch(s.queue[0].proofs) && |s.queue[0].proofs| > 2
    ensures var s' := AfterSplit(combine, s); Shaped(s') && Numbered(s') && DistinctBatches(s'.queue)
  {
    hide Shape, Identified, QueueKeys, FlightKeys, DistinctBatches, Root, IsPowerOfTwo, IsBatch;
    var rest, s' := s.queue[1..], AfterSplit(combine, s);
    var q, k, k1 := Key(s.self, s.queue[0].id), Key(s.self, s.nextId + 1), Key(s.self, s.nextId);
    var queued := QueueKeys(s.self, s.queue);
    IdentifiedFresh(s.self, s.nextAgg, s.nextId, s.subs, s.spec.Keys, s.proofs.Keys, s.owed.Keys);
    ShapeKeys(s.self, s.spec.Keys, s.parents, s.children, queued, FlightKeys(s.subs), s.descendants.Keys, s.aliases,
        s.roots);
    QueueRest(s.self, s.queue);
    QueueFront(s.self, rest, s'.queue[1]);
    QueueFront(s.self, [s'.queue[1]] + rest, s'.queue[0]);
    assert s'.spec.Keys == s.spec.Keys + {k, k1};
    assert QueueKeys(s.self, s'.queue) == queued - {q} + {k, k1};
    ShapeSplit(s.self, s.spec.Keys, s.parents, s.children, queued, FlightKeys(s.subs), s.descendants.Keys,
               s.aliases, s.roots, q, k, k1);
    IdentifiedFrame(s.self, s.nextAgg, s.nextId, s'.nextId, s.subs, s.spec.Keys, s'.spec.Keys,
                    s.proofs.Keys, s.proofs.Keys, s.owed.Keys, s.owed.Keys);
  }

  lemma SplitValued<P>(combine: (P, P) -> P, s: Books<P>)
    requires Shaped(s) && Numbered(s) && DistinctBatches(s.queue) && Valued(combine, s)
    requires s.queue != [] && IsBatch(s.queue[0].proofs) && |s.queue[0].proofs| > 2
    ensures Valued(combine, AfterSplit(combine, s))
    ensures Settled(s.children, s.descendants, {}) ==>
      Settled(AfterSplit(combine, s).children, s.descendants, {})
  {
    hide Shape, Values, Identified, QueueKeys, FlightKeys, DistinctBatches, Settled, Root, IsPowerOfTwo, IsBatch;
    var k, k1 := Key(s.self, s.nextId + 1), Key(s.self, s.nextId);
    IdentifiedFresh(s.self, s.nextAgg, s.nextId, s.subs, s.spec.Keys, s.proofs.Keys, s.owed.Keys);
    ShapeKeys(s.self, s.spec.Keys, s.parents, s.children, QueueKeys(s.self, s.queue), FlightKeys(s.subs),
              s.descendants.Keys, s.aliases, s.roots);
    QueueRest(s.self, s.queue);
    assert s.queue == [s.queue[0]] + s.queue[1..];
    ValuesSplit(combine, s.self, s.queue[1..], s.children, s.subs, s.descendants, s.proofs, s.spec, s.owed, s.roots,
                s.queue[0], |s.queue[0].proofs| / 2, k.batch, k1.batch);
    if Settled(s.children, s.descendants, {}) {
      SettledSplit(s.children, s.descendants, Key(s.self, s.queue[0].id), k, k1);
    }
  }

  lemma SplitKeeps<P>(combine: (P, P) -> P, s: Books<P>)
    requires Consistent(combine, s) && s.queue != [] && |s.queue[0].proofs| > 2
    ensures IsBatch(s.queue[0].proofs) && Consistent(combine, AfterSplit(combine, s))
    ensures Settled(s.children, s.descendants, {}) ==>
      Settled(AfterSplit(combine, s).children, s.descendants, {})
  {
    hide Shaped, Valued, Numbered, DistinctBatches, SubsValid, Honest, Accounted, Settled, IsBatch;
    ConsistentFront(combine, s);
    SplitShaped(combine, s);
    SplitValued(combine, s);
  }

  // ---------------------------------------------------------------- sending to a sub-aggregator

  /** The batch at the front of the queue now belongs to sub-aggregator `a`, which calls it `id`. */
  ghost function AfterSend<P>(s: Books<P>, a: nat, sub: Aggregator<P>, id: nat): Books<P>
    requires s.queue != [] && Key(s.self, s.queue[0].id) in s.spec
    requires forall c :: c in s.parents ==> s.parents[c] in s.children
  {
    var q, k := Key(s.self, s.queue[0].id), Key(a, id);
    Rehomed(s.(queue := s.queue[1..], subs := s.subs[a := sub], spec := (s.spec - {q})[k := s.spec[q]]), q, k)
  }

  /** In the forest, key `k` takes the place of `q`. */
  ghost function Rehomed<P>(s: Books<P>, q: Key, k: Key): Books<P>
    requires forall c :: c in s.parents ==> s.parents[c] in s.children
  {
    if q in s.parents then
      s.(parents := (s.parents - {q})[k := s.parents[q]],
         children := s.children[s.parents[q] := Renamed(s.children[s.parents[q]], q, k)])
    else
      s.(aliases := s.aliases[k := q.batch], roots := s.roots[q.batch := k])
  }

  lemma AfterSendOutside<P>(combine: (P, P) -> P, s: Books<P>, a: nat, sub: Aggregator<P>, id: nat)
    requires Sends(combine, s, a, sub, id) && SubsValid(combine, s.subs) && Valid(combine, sub)
    ensures var s' := AfterSend(s, a, sub, id);
      && s'.owed == s.owed && s'.output == s.output && s'.descendants == s.descendants && SubsValid(combine, s'.subs)
  {
    hide Valid, Pushed, Renamed, SubsValid;
    SubsValidUpdate(combine, s.subs, a, sub);
  }

  lemma SubsValidUpdate<P>(combine: (P, P) -> P, subs: map<nat, Aggregator<P>>, a: nat, sub: Aggregator<P>)
    requires SubsValid(combine, subs) && Valid(combine, sub)
    ensures SubsValid(combine, subs[a := sub])
  {
    hide Valid;
  }

  lemma ConsistentFront<P>(combine: (P, P) -> P, s: Books<P>)
    requires Consistent(combine, s) && s.queue != []
    ensures IsBatch(s.queue[0].proofs) && Key(s.self, s.queue[0].id) in s.spec
    ensures forall c :: c in s.parents ==> s.parents[c] in s.children
  {
    assert Produces(combine, s.spec, Key(s.self, s.queue[0].id), s.queue[0].proofs);
  }

  lemma ConsistentSub<P>(combine: (P, P) -> P, s: Books<P>, a: nat)
    requires Consistent(combine, s) && a in s.subs
    ensures Valid(combine, s.subs[a]) && a < s.nextAgg
  {
  }

  lemma IdentifiedPush<P>(self: nat, nextAgg: nat, nextId: nat, subs: map<nat, Aggregator<P>>,
      live: set<Key>, solved: set<Key>, owed: set<nat>, q: Key, a: nat, proofs: seq<P>, id: nat, sub: Aggregator<P>)
    requires Identified(self, nextAgg, nextId, subs, live, solved, owed)
    requires a in subs && Pushed(subs[a], proofs, id, sub)
    ensures Identified(self, nextAgg, nextId, subs[a := sub], live - {q} + {Key(a, id)}, solved, owed)
    ensures a != self && Key(a, id) !in live
  {
    FlightPush(subs, a, proofs, id, sub);
  }

  lemma ValuesSend<P>(combine: (P, P) -> P, self: nat, queue: seq<Batch<P>>, parents: map<Key, Key>,
      children: map<Key, Pair>, subs: map<nat, Aggregator<P>>, descendants: map<Key, seq<Key>>, proofs: map<Key, P>,
      spec: map<Key, P>, owed: map<nat, seq<P>>, roots: map<nat, Key>,
      current: Batch<P>, a: nat, sub: Aggregator<P>, id: nat)
    requires Values(combine, self, [current] + queue, children, subs, descendants, proofs, spec, owed, roots)
    requires Tree(self, parents, children)
    requires var q := Key(self, current.id);
      && q !in children && q !in QueueKeys(self, queue) && q !in descendants && q !in FlightKeys(subs)
      && QueueKeys(self, queue) + FlightKeys(subs) + descendants.Keys + roots.Values <= spec.Keys
      && (if q in parents then q !in roots.Values else q.batch in roots && roots[q.batch] == q)
    requires Key(a, id) !in spec && a != self && a in subs && Pushed(subs[a], current.proofs, id, sub)
    requires forall i :: i in roots && i != current.id ==> roots[i] != Key(self, current.id)
    ensures
      var q, k := Key(self, current.id), Key(a, id);
      && q in spec
      && var spec' := (spec - {q})[k := spec[q]];
      && if q in parents
        then Values(combine, self, queue, children[parents[q] := Renamed(children[parents[q]], q, k)],
                    subs[a := sub], descendants, proofs, spec', owed, roots)
        else Values(combine, self, queue, children, subs[a := sub], descendants, proofs, spec', owed,
                    roots[q.batch := k])
  {
    hide Root, IsPowerOfTwo, IsBatch, ChildValues, QueueValues, FlightValues, Resolved, Partition, Tree;
    var q, k := Key(self, current.id), Key(a, id);
    QueueValuesFront(combine, self, queue, spec, current);
    var spec' := (spec - {q})[k := spec[q]];
    ChildValuesRename(combine, self, parents, children, spec, q, k);
    QueueValuesFrame(combine, self, queue, spec, spec');
    FlightValuesFrame(combine, subs, spec, spec');
    FlightValuesPush(combine, subs, spec', a, current.proofs, id, sub);
    ResolvedFrame(combine, self, descendants, proofs, spec, spec');
    RootValuesRename(combine, roots, owed, spec, q, k);
  }

  lemma RootValuesRename<P>(combine: (P, P) -> P, roots: map<nat, Key>, owed: map<nat, seq<P>>, spec: map<Key, P>,
      q: Key, k: Key)
    requires RootValues(combine, roots, owed, spec) && q in spec && k !in spec
    requires forall i :: i in roots && i != q.batch ==> roots[i] != q
    ensures
      var spec' := (spec - {q})[k := spec[q]];
      && (q !in roots.Values ==> RootValues(combine, roots, owed, spec'))
      && (q.batch in roots && roots[q.batch] == q ==> RootValues(combine, roots[q.batch := k], owed, spec'))
  {
    hide Root, IsPowerOfTwo, IsBatch;
    forall i | i in roots ensures Produces(combine, spec, roots[i], owed[i]) {
    }
  }

  ghost predicate Sends<P>(combine: (P, P) -> P, s: Books<P>, a: nat, sub: Aggregator<P>, id: nat) {
    && s.queue != [] && Key(s.self, s.queue[0].id) in s.spec
    && (forall c :: c in s.parents ==> s.parents[c] in s.children)
    && a in s.subs && Pushed(s.subs[a], s.queue[0].proofs, id, sub)
  }

  lemma AfterSendParts<P>(combine: (P, P) -> P, s: Books<P>, a: nat, sub: Aggregator<P>, id: nat)
    requires Sends(combine, s, a, sub, id)
    ensures var q, k, s' := Key(s.self, s.queue[0].id), Key(a, id), AfterSend(s, a, sub, id);
      && s'.queue == s.queue[1..] && s'.subs == s.subs[a := sub]
      && s'.spec == (s.spec - {q})[k := s.spec[q]] && s'.spec.Keys == s.spec.Keys - {q} + {k}
      && s'.self == s.self && s'.nextAgg == s.nextAgg && s'.nextId == s.nextId
      && s'.descendants == s.descendants && s'.proofs == s.proofs && s'.owed == s.owed
      && (if q in s.parents then
            && s'.parents == (s.parents - {q})[k := s.parents[q]] && s'.aliases == s.aliases && s'.roots == s.roots
            && s'.children == s.children[s.parents[q] := Renamed(s.children[s.parents[q]], q, k)]
          else
            && s'.parents == s.parents && s'.children == s.children
            && s'.aliases == s.aliases[k := q.batch] && s'.roots == s.roots[q.batch := k])
  {
    hide Pushed, Renamed, Rehomed;
    var q, k := Key(s.self, s.queue[0].id), Key(a, id);
    RenamedKeys(s.spec, q, k);
    RehomedParts(s.(queue := s.queue[1..], subs := s.subs[a := sub], spec := (s.spec - {q})[k := s.spec[q]]), q, k);
  }

  lemma RehomedParts<P>(s: Books<P>, q: Key, k: Key)
    requires forall c :: c in s.parents ==> s.parents[c] in s.children
    ensures Rehomed(s, q, k) == s.(parents := Rehomed(s, q, k).parents, children := Rehomed(s, q, k).children,
                                   aliases := Rehomed(s, q, k).aliases, roots := Rehomed(s, q, k).roots)
    ensures var s' := Rehomed(s, q, k);
      if q in s.parents then
        && s'.parents == (s.parents - {q})[k := s.parents[q]] && s'.aliases == s.aliases && s'.roots == s.roots
        && s'.children == s.children[s.parents[q] := Renamed(s.children[s.parents[q]], q, k)]
      else
        && s'.parents == s.parents && s'.children == s.children
        && s'.aliases == s.aliases[k := q.batch] && s'.roots == s.roots[q.batch := k]
  {
    hide Renamed;
  }

  lemma RenamedKeys<P>(spec: map<Key, P>, q: Key, k: Key)
    requires q in spec
    ensures (spec - {q})[k := spec[q]].Keys == spec.Keys - {q} + {k}
  {
  }

  lemma SendShaped<P>(combine: (P, P) -> P, s: Books<P>, a: nat, sub: Aggregator<P>, id: nat)
    requires Sends(combine, s, a, sub, id)
    requires Shaped(s) && Numbered(s) && DistinctBatches(s.queue)
    ensures var s' := AfterSend(s, a, sub, id); Shaped(s') && Numbered(s') && DistinctBatches(s'.queue)
  {
    hide Shape, Identified, QueueKeys, FlightKeys, DistinctBatches, Pushed, AfterSend;
    var q, k := Key(s.self, s.queue[0].id), Key(a, id);
    AfterSendParts(combine, s, a, sub, id);
    var queued, flying := QueueKeys(s.self, s.queue), FlightKeys(s.subs);
    QueueRest(s.self, s.queue);
    FlightPush(s.subs, a, s.queue[0].proofs, id, sub);
    IdentifiedPush(s.self, s.nextAgg, s.nextId, s.subs, s.spec.Keys, s.proofs.Keys, s.owed.Keys,
                   q, a, s.queue[0].proofs, id, sub);
    ShapeSend(s.self, s.spec.Keys, s.parents, s.children, queued, flying, s.descendants.Keys, s.aliases, s.roots, q, k);
  }

  lemma SendValued<P>(combine: (P, P) -> P, s: Books<P>, a: nat, sub: Aggregator<P>, id: nat)
    requires Sends(combine, s, a, sub, id)
    requires Shaped(s) && Numbered(s) && DistinctBatches(s.queue) && Valued(combine, s)
    ensures Valued(combine, AfterSend(s, a, sub, id))
    ensures AfterSend(s, a, sub, id).roots.Keys == s.roots.Keys
  {
    hide Values, Identified, QueueKeys, FlightKeys, DistinctBatches, Pushed, Tree, Rooted, Renamed, AfterSend;
    var q := Key(s.self, s.queue[0].id);
    AfterSendParts(combine, s, a, sub, id);
    assert s.queue == [s.queue[0]] + s.queue[1..];
    ShapeKeys(s.self, s.spec.Keys, s.parents, s.children, QueueKeys(s.self, s.queue), FlightKeys(s.subs),
              s.descendants.Keys, s.aliases, s.roots);
    QueueRest(s.self, s.queue);
    IdentifiedPush(s.self, s.nextAgg, s.nextId, s.subs, s.spec.Keys, s.proofs.Keys, s.owed.Keys,
                   q, a, s.queue[0].proofs, id, sub);
    RootOfKey(s.self, s.spec.Keys, s.parents, s.aliases, s.roots, q);
    ValuesSend(combine, s.self, s.queue[1..], s.parents, s.children, s.subs, s.descendants, s.proofs, s.spec,
               s.owed, s.roots, s.queue[0], a, sub, id);
  }

  lemma SendSettled<P>(combine: (P, P) -> P, s: Books<P>, a: nat, sub: Aggregator<P>, id: nat)
    requires Sends(combine, s, a, sub, id)
    requires Shaped(s) && Numbered(s) && Settled(s.children, s.descendants, {})
    ensures Settled(AfterSend(s, a, sub, id).children, s.descendants, {})
  {
    hide Identified, QueueKeys, FlightKeys, Pushed, Tree, Rooted, Settled;
    IdentifiedPush(s.self, s.nextAgg, s.nextId, s.subs, s.spec.Keys, s.proofs.Keys, s.owed.Keys,
                   Key(s.self, s.queue[0].id), a, s.queue[0].proofs, id, sub);
    SettledRename(s.self, s.parents, s.children, s.descendants, Key(s.self, s.queue[0].id), Key(a, id));
  }

  lemma SendKeeps<P>(combine: (P, P) -> P, s: Books<P>, a: nat, sub: Aggregator<P>, id: nat)
    requires Consistent(combine, s) && s.queue != []
    requires a in s.subs && Pushed(s.subs[a], s.queue[0].proofs, id, sub) && Valid(combine, sub)
    ensures Sends(combine, s, a, sub, id)
    ensures Consistent(combine, AfterSend(s, a, sub, id))
    ensures AfterSend(s, a, sub, id).roots.Keys == s.roots.Keys
    ensures Settled(s.children, s.descendants, {}) ==>
      Settled(AfterSend(s, a, sub, id).children, s.descendants, {})
  {
    hide Shaped, Valued, Numbered, DistinctBatches, Honest, Accounted, Settled, Valid, IsBatch, Pushed, AfterSend,
      SubsValid;
    ConsistentFront(combine, s);
    AfterSendOutside(combine, s, a, sub, id);
    SendShaped(combine, s, a, sub, id);
    SendValued(combine, s, a, sub, id);
    AccountedFrame(s.owed, s.roots, AfterSend(s, a, sub, id).roots, s.output);
    if Settled(s.children, s.descendants, {}) {
      SendSettled(combine, s, a, sub, id);
    }
  }

  lemma AccountedFrame<P>(owed: map<nat, seq<P>>, roots: map<nat, Key>, roots': map<nat, Key>, output: seq<Emitted<P>>)
    requires Accounted(owed, roots, output) && roots'.Keys == roots.Keys
    ensures Accounted(owed, roots', output)
  {
  }

  lemma RootOfKey(self: nat, live: set<Key>, parents: map<Key, Key>, aliases: map<Key, nat>, roots: map<nat, Key>,
      q: Key)
    requires Rooted(self, live, parents, aliases, roots) && q in live && q.agg == self
    ensures if q in parents then q !in roots.Values else q.batch in roots && roots[q.batch] == q
    ensures forall i :: i in roots && i != q.batch ==> roots[i] != q
  {
  }

  lemma SettledRename(self: nat, parents: map<Key, Key>, children: map<Key, Pair>, descendants: map<Key, seq<Key>>,
      q: Key, k: Key)
    requires Tree(self, parents, children) && Settled(children, descendants, {}) && k !in descendants
    ensures q in parents ==>
      && parents[q] in children
      && Settled(children[parents[q] := Renamed(children[parents[q]], q, k)], descendants, {})
  {
  }

  // ---------------------------------------------------------------- sub-aggregators at work

  lemma AdvanceKeeps<P>(combine: (P, P) -> P, s: Books<P>, a: nat, sub: Aggregator<P>)
    requires Consistent(combine, s) && a in s.subs && Advanced(s.subs[a], sub) && Valid(combine, sub)
    ensures Consistent(combine, s.(subs := s.subs[a := sub]))
  {
    hide Shape, ChildValues, QueueValues, FlightValues, Resolved, Partition, RootValues, FlightKeys;
    hide DistinctBatches, Honest, Accounted, Valid;
    FlightAdvance(s.subs, a, sub);
    FlightValuesShrink(combine, s.subs, s.spec, a, sub);
    IdentifiedAdvance(s.self, s.nextAgg, s.nextId, s.subs, s.spec.Keys, s.proofs.Keys, s.owed.Keys, a, sub);
  }

  lemma IdentifiedAdvance<P>(self: nat, nextAgg: nat, nextId: nat, subs: map<nat, Aggregator<P>>,
      live: set<Key>, solved: set<Key>, owed: set<nat>, a: nat, sub: Aggregator<P>)
    requires Identified(self, nextAgg, nextId, subs, live, solved, owed)
    requires a in subs && sub.owed == subs[a].owed && subs[a].nextId <= sub.nextId
    ensures Identified(self, nextAgg, nextId, subs[a := sub], live, solved, owed)
  {
    FlightAdvance(subs, a, sub);
  }

  /** A finished proof is popped from `a` and kept as a piece of its own. */
  ghost function AfterCollect<P>(s: Books<P>, a: nat, sub: Aggregator<P>, e: Emitted<P>): Books<P> {
    var k := Key(a, e.id);
    s.(subs := s.subs[a := sub], proofs := s.proofs[k := e.proof], descendants := s.descendants[k := [k]])
  }

  ghost predicate Collects<P>(combine: (P, P) -> P, s: Books<P>, a: nat, sub: Aggregator<P>, e: Emitted<P>) {
    a in s.subs && Popped(s.subs[a], Some(e), sub) && Valid(combine, s.subs[a]) && Valid(combine, sub)
  }

  lemma IdentifiedCollect<P>(self: nat, nextAgg: nat, nextId: nat, subs: map<nat, Aggregator<P>>,
      live: set<Key>, solved: set<Key>, owed: set<nat>, a: nat, e: Emitted<P>, sub: Aggregator<P>)
    requires Identified(self, nextAgg, nextId, subs, live, solved, owed)
    requires a in subs && Popped(subs[a], Some(e), sub) && Key(a, e.id) in live
    ensures Identified(self, nextAgg, nextId, subs[a := sub], live, solved + {Key(a, e.id)}, owed)
  {
    FlightPop(subs, a, e, sub);
    hide FlightKeys;
    assert sub.nextId == subs[a].nextId;
  }

  lemma FirstReady<P>(combine: (P, P) -> P, subs: map<nat, Aggregator<P>>, a: nat)
    requires a in subs && Valid(combine, subs[a]) && subs[a].ready != []
    ensures var e := subs[a].ready[0];
      e.id in subs[a].owed && e.proof == Root(combine, subs[a].owed[e.id]) && Key(a, e.id) in FlightKeys(subs)
  {
    hide Root, IsPowerOfTwo;
    assert subs[a].ready[0] in subs[a].ready;
  }

  lemma CollectShaped<P>(combine: (P, P) -> P, s: Books<P>, a: nat, sub: Aggregator<P>, e: Emitted<P>)
    requires Shaped(s) && Numbered(s) && Collects(combine, s, a, sub, e)
    ensures var s' := AfterCollect(s, a, sub, e); Shaped(s') && Numbered(s')
    ensures var k := Key(a, e.id); k !in s.descendants && k !in s.proofs && k.agg != s.self && k in s.spec
    ensures e.id in s.subs[a].owed && e.proof == Root(combine, s.subs[a].owed[e.id])
  {
    hide Shape, QueueKeys, FlightKeys, Root, IsPowerOfTwo, Identified, Valid;
    var k := Key(a, e.id);
    FirstReady(combine, s.subs, a);
    IdentifiedFresh(s.self, s.nextAgg, s.nextId, s.subs, s.spec.Keys, s.proofs.Keys, s.owed.Keys);
    FlightPop(s.subs, a, e, sub);
    ShapeCollect(s.self, s.spec.Keys, s.parents, s.children, QueueKeys(s.self, s.queue), FlightKeys(s.subs),
                 s.descendants.Keys, s.aliases, s.roots, k);
    IdentifiedCollect(s.self, s.nextAgg, s.nextId, s.subs, s.spec.Keys, s.proofs.Keys, s.owed.Keys, a, e, sub);
    assert (s.descendants[k := [k]]).Keys == s.descendants.Keys + {k};
    assert (s.proofs[k := e.proof]).Keys == s.proofs.Keys + {k};
  }

  lemma CollectValued<P>(combine: (P, P) -> P, s: Books<P>, a: nat, sub: Aggregator<P>, e: Emitted<P>)
    requires Valued(combine, s) && Collects(combine, s, a, sub, e)
    requires var k := Key(a, e.id); k !in s.descendants && k !in s.proofs && k.agg != s.self && k in s.spec
    requires e.id in s.subs[a].owed && IsBatch(s.subs[a].owed[e.id]) && e.proof == Root(combine, s.subs[a].owed[e.id])
    ensures Valued(combine, AfterCollect(s, a, sub, e))
  {
    hide ChildValues, QueueValues, Resolved, Partition, RootValues, Root, IsPowerOfTwo, Valid;
    var k := Key(a, e.id);
    assert Produces(combine, s.spec, k, s.subs[a].owed[e.id]);
    ResolveOne(combine, s.self, s.descendants, s.proofs, s.spec, k, e.proof);
    FlightValuesShrink(combine, s.subs, s.spec, a, sub);
  }

  lemma CollectKeeps<P>(combine: (P, P) -> P, s: Books<P>, a: nat, sub: Aggregator<P>, e: Emitted<P>)
    requires Consistent(combine, s) && a in s.subs && Popped(s.subs[a], Some(e), sub) && Valid(combine, sub)
    ensures Consistent(combine, AfterCollect(s, a, sub, e))
    ensures Key(a, e.id) !in s.proofs && Key(a, e.id) !in s.children
    ensures Settled(s.children, s.descendants, {}) ==>
      Settled(s.children, AfterCollect(s, a, sub, e).descendants, ParentOf(s.parents, Key(a, e.id)))
  {
    hide Shape, Valued, Numbered, DistinctBatches, Honest, Accounted, Valid, Root, IsPowerOfTwo, Settled, Tree;
    assert Collects(combine, s, a, sub, e);
    ValidEntry(combine, s.subs[a]);
    CollectShaped(combine, s, a, sub, e);
    CollectValued(combine, s, a, sub, e);
    ShapedTree(s);
    if Settled(s.children, s.descendants, {}) {
      SettledCollect(s.self, s.parents, s.children, s.descendants, Key(a, e.id));
    }
  }

  lemma ShapedTree<P>(s: Books<P>)
    requires Shaped(s)
    ensures Tree(s.self, s.parents, s.children)
    ensures s.children.Keys !! s.descendants.Keys
    ensures forall k :: k in s.spec && k.agg != s.self ==> k !in s.children
  {
  }

  lemma ValidEntry<P>(combine: (P, P) -> P, s: Aggregator<P>)
    requires Valid(combine, s) && s.ready != []
    ensures s.ready[0].id in s.owed && IsBatch(s.owed[s.ready[0].id])
  {
    assert s.ready[0] in s.ready;
  }

  function ParentOf(parents: map<Key, Key>, k: Key): set<Key> {
    if k in parents then {parents[k]} else {}
  }

  lemma SettledCollect(self: nat, parents: map<Key, Key>, children: map<Key, Pair>, descendants: map<Key, seq<Key>>,
      k: Key)
    requires Tree(self, parents, children) && Settled(children, descendants, {})
    ensures Settled(children, descendants[k := [k]], ParentOf(parents, k))
  {
    forall p | p in children && p !in ParentOf(parents, k)
      ensures !Mergeable(descendants[k := [k]], children[p].left, children[p].right)
    {
      assert Link(self, parents, p, children[p].left) && Link(self, parents, p, children[p].right);
    }
  }

  // ---------------------------------------------------------------- merging siblings

  /** Two resolved siblings with equally many descendants become one resolved parent. */
  ghost function AfterMerge<P>(s: Books<P>, p: Key): Books<P>
    requires p in s.children && s.children[p].left in s.descendants && s.children[p].right in s.descendants
  {
    var a, b := s.children[p].left, s.children[p].right;
    s.(children := s.children - {p}, parents := s.parents - {a, b}, spec := s.spec - {a, b},
       descendants := Merged(s.descendants, a, b, p))
  }

  lemma MergeShaped<P>(s: Books<P>, p: Key)
    requires Shaped(s) && Numbered(s)
    requires p in s.children && s.children[p].left in s.descendants && s.children[p].right in s.descendants
    ensures var s' := AfterMerge(s, p); Shaped(s') && Numbered(s')
    ensures p.agg == s.self && s.children[p].left != s.children[p].right && p !in s.descendants
    ensures s.children[p].left !in s.children && s.children[p].right !in s.children
  {
    hide Shape, Identified, QueueKeys, FlightKeys, Tree;
    var a, b := s.children[p].left, s.children[p].right;
    var s' := AfterMerge(s, p);
    ShapeKeys(s.self, s.spec.Keys, s.parents, s.children, QueueKeys(s.self, s.queue), FlightKeys(s.subs),
              s.descendants.Keys, s.aliases, s.roots);
    ShapedTree(s);
    TreeLinks(s.self, s.parents, s.children, p);
    assert s'.spec.Keys == s.spec.Keys - {a, b};
    assert s'.descendants.Keys == s.descendants.Keys - {a, b} + {p};
    ShapeMerge(s.self, s.spec.Keys, s.parents, s.children, QueueKeys(s.self, s.queue), FlightKeys(s.subs),
               s.descendants.Keys, s.aliases, s.roots, p);
    IdentifiedFrame(s.self, s.nextAgg, s.nextId, s.nextId, s.subs, s.spec.Keys, s'.spec.Keys,
                    s.proofs.Keys, s.proofs.Keys, s.owed.Keys, s.owed.Keys);
  }

  lemma MergeValued<P>(combine: (P, P) -> P, s: Books<P>, p: Key)
    requires Shaped(s) && Valued(combine, s)
    requires p in s.children && Mergeable(s.descendants, s.children[p].left, s.children[p].right)
    requires p.agg == s.self && s.children[p].left != s.children[p].right && p !in s.descendants
    requires s.children[p].left !in s.children && s.children[p].right !in s.children
    ensures Valued(combine, AfterMerge(s, p))
  {
    hide Tree, Rooted, QueueKeys, FlightKeys, ChildValues, QueueValues, FlightValues, Resolved, Partition, RootValues;
    hide Joined, Merged;
    var a, b := s.children[p].left, s.children[p].right;
    var spec' := s.spec - {a, b};
    ShapedTree(s);
    TreeLinks(s.self, s.parents, s.children, p);
    RootsHaveNoParents(s.self, s.spec.Keys, s.parents, s.aliases, s.roots);
    ChildJoined(combine, s.children, s.spec, p);
    ChildValuesMerge(combine, s.self, s.parents, s.children, s.spec, p);
    QueueValuesFrame(combine, s.self, s.queue, s.spec, spec');
    FlightValuesFrame(combine, s.subs, s.spec, spec');
    MergeResolved(combine, s.self, s.descendants, s.proofs, s.spec, a, b, p);
    MergePartition(s.descendants, s.proofs, a, b, p);
    RootValuesFrame(combine, s.roots, s.owed, s.spec, spec');
  }

  lemma RootsHaveNoParents(self: nat, live: set<Key>, parents: map<Key, Key>, aliases: map<Key, nat>,
      roots: map<nat, Key>)
    requires Rooted(self, live, parents, aliases, roots)
    ensures roots.Values <= live && roots.Values !! parents.Keys
  {
  }

  lemma ChildJoined<P>(combine: (P, P) -> P, children: map<Key, Pair>, spec: map<Key, P>, p: Key)
    requires ChildValues(combine, children, spec) && p in children
    ensures Joined(combine, spec, p, children[p].left, children[p].right)
  {
  }

  lemma MergeKeeps<P>(combine: (P, P) -> P, s: Books<P>, p: Key)
    requires Consistent(combine, s) && p in s.children
    requires Mergeable(s.descendants, s.children[p].left, s.children[p].right)
    ensures Consistent(combine, AfterMerge(s, p))
    ensures Settled(s.children, s.descendants, {p}) ==>
      Settled(AfterMerge(s, p).children, AfterMerge(s, p).descendants, ParentOf(AfterMerge(s, p).parents, p))
  {
    hide Shaped, Valued, Numbered, DistinctBatches, SubsValid, Honest, Accounted, Settled, Tree;
    MergeShaped(s, p);
    MergeValued(combine, s, p);
    ShapedTree(s);
    ShapedTree(AfterMerge(s, p));
    if Settled(s.children, s.descendants, {p}) {
      SettledMerge(s.self, s.parents, s.children, s.descendants, p);
    }
  }

  lemma SettledMerge(self: nat, parents: map<Key, Key>, children: map<Key, Pair>, descendants: map<Key, seq<Key>>,
      p: Key)
    requires p in children && Settled(children, descendants, {p})
    requires children[p].left in descendants && children[p].right in descendants
    requires Tree(self, parents - {children[p].left, children[p].right}, children - {p})
    ensures Settled(children - {p}, Merged(descendants, children[p].left, children[p].right, p),
                    ParentOf(parents - {children[p].left, children[p].right}, p))
  {
    var a, b := children[p].left, children[p].right;
    forall p' | p' in children - {p} && p' !in ParentOf(parents - {a, b}, p)
      ensures !Mergeable(Merged(descendants, a, b, p), children[p'].left, children[p'].right)
    {
      assert Link(self, parents - {a, b}, p', children[p'].left) && Link(self, parents - {a, b}, p',
          children[p'].right);
    }
  }

  // ---------------------------------------------------------------- consolidating

  /** Several merged pieces become a batch of their own, at the front of the queue. */
  ghost function AfterRequeue<P>(s: Books<P>, k: Key): Books<P>
    requires k in s.descendants && forall d :: d in s.descendants[k] ==> d in s.proofs
  {
    s.(queue := [Batch(k.batch, Collect(s.proofs, s.descendants[k]))] + s.queue,
       descendants := s.descendants - {k}, proofs := s.proofs - KeySet(s.descendants[k]))
  }

  ghost predicate Requeues<P>(s: Books<P>, k: Key) {
    && k in s.descendants && k.agg == s.self
    && IsBatch(s.descendants[k]) && forall d :: d in s.descendants[k] ==> d in s.proofs
  }

  lemma EntryOf<P>(combine: (P, P) -> P, s: Books<P>, k: Key)
    requires Valued(combine, s) && k in s.descendants
    ensures Entry(combine, s.self, s.proofs, s.spec, k, s.descendants[k])
    ensures |s.descendants[k]| > 1 ==> Requeues(s, k)
    ensures |s.descendants[k]| == 1 ==> s.descendants[k] == [k] && k in s.proofs && s.spec[k] == s.proofs[k]
  {
    assert Entry(combine, s.self, s.proofs, s.spec, k, s.descendants[k]);
    if |s.descendants[k]| == 1 {
      assert Collect(s.proofs, s.descendants[k])[0] == s.proofs[k];
    }
  }

  lemma RequeueShaped<P>(s: Books<P>, k: Key)
    requires Shaped(s) && Numbered(s) && DistinctBatches(s.queue) && Requeues(s, k)
    ensures var s' := AfterRequeue(s, k); Shaped(s') && Numbered(s') && DistinctBatches(s'.queue)
  {
    hide Tree, Rooted, QueueKeys, FlightKeys, DistinctBatches, Identified, IsBatch;
    QueueFront(s.self, s.queue, AfterRequeue(s, k).queue[0]);
    IdentifiedFrame(s.self, s.nextAgg, s.nextId, s.nextId, s.subs, s.spec.Keys, s.spec.Keys,
                    s.proofs.Keys, AfterRequeue(s, k).proofs.Keys, s.owed.Keys, s.owed.Keys);
  }

  lemma RequeueKeeps<P>(combine: (P, P) -> P, s: Books<P>, k: Key)
    requires Consistent(combine, s) && Requeues(s, k)
    ensures Consistent(combine, AfterRequeue(s, k))
    ensures Settled(s.children, s.descendants, {}) ==> Settled(s.children, AfterRequeue(s, k).descendants, {})
    ensures |s.proofs| == |AfterRequeue(s, k).proofs| + |s.descendants[k]|
  {
    hide Shape, Identified, QueueKeys, FlightKeys, DistinctBatches, SubsValid, Honest, Accounted;
    hide ChildValues, QueueValues, FlightValues, Resolved, Partition, RootValues, Root, IsPowerOfTwo, Settled;
    EntryOf(combine, s, k);
    RequeueShaped(s, k);
    ForgetOne(combine, s.self, s.descendants, s.proofs, s.spec, k);
    QueueValuesFront(combine, s.self, s.queue, s.spec, AfterRequeue(s, k).queue[0]);
    if Settled(s.children, s.descendants, {}) {
      SettledForget(s.children, s.descendants, k);
    }
  }

  lemma SettledForget(children: map<Key, Pair>, descendants: map<Key, seq<Key>>, k: Key)
    requires Settled(children, descendants, {})
    ensures Settled(children, descendants - {k}, {})
  {
    forall p | p in children
      ensures !Mergeable(descendants - {k}, children[p].left, children[p].right)
    {
      assert !Mergeable(descendants, children[p].left, children[p].right);
    }
  }

  /** A finished root leaves under the id its batch was pushed with. */
  ghost function AfterEmit<P>(s: Books<P>, k: Key): Books<P>
    requires k in s.aliases && k in s.proofs
  {
    s.(aliases := s.aliases - {k}, descendants := s.descendants - {k}, proofs := s.proofs - {k},
       output := s.output + [Emitted(s.aliases[k], s.proofs[k])],
       spec := s.spec - {k}, roots := s.roots - {s.aliases[k]})
  }

  lemma EmitShaped<P>(s: Books<P>, k: Key)
    requires Shaped(s) && Numbered(s) && k in s.aliases && k in s.descendants && k in s.proofs
    ensures var s' := AfterEmit(s, k); Shaped(s') && Numbered(s')
    ensures s.aliases[k] in s.roots && s.roots[s.aliases[k]] == k
  {
    hide Shape, QueueKeys, FlightKeys, Identified;
    ShapeEmit(s.self, s.spec.Keys, s.parents, s.children, QueueKeys(s.self, s.queue), FlightKeys(s.subs),
              s.descendants.Keys, s.aliases, s.roots, k);
    IdentifiedFrame(s.self, s.nextAgg, s.nextId, s.nextId, s.subs, s.spec.Keys, AfterEmit(s, k).spec.Keys,
                    s.proofs.Keys, AfterEmit(s, k).proofs.Keys, s.owed.Keys, s.owed.Keys);
    assert AfterEmit(s, k).spec.Keys == s.spec.Keys - {k};
    assert AfterEmit(s, k).descendants.Keys == s.descendants.Keys - {k};
  }

  lemma EmitValued<P>(combine: (P, P) -> P, s: Books<P>, k: Key)
    requires Shaped(s) && Valued(combine, s)
    requires k in s.aliases && k in s.descendants && k in s.proofs && s.descendants[k] == [k]
    requires s.aliases[k] in s.roots && s.roots[s.aliases[k]] == k
    ensures Valued(combine, AfterEmit(s, k))
  {
    hide ChildValues, QueueValues, FlightValues, Resolved, Partition, RootValues, Root, IsPowerOfTwo, IsBatch;
    hide Shape, QueueKeys, FlightKeys;
    var spec' := s.spec - {k};
    ForgetOne(combine, s.self, s.descendants, s.proofs, s.spec, k);
    assert KeySet(s.descendants[k]) == {k};
    ShapeKeys(s.self, s.spec.Keys, s.parents, s.children, QueueKeys(s.self, s.queue), FlightKeys(s.subs),
              s.descendants.Keys, s.aliases, s.roots);
    RootHasNoParent(s, k);
    ResolvedFrame(combine, s.self, s.descendants - {k}, s.proofs - {k}, s.spec, spec');
    QueueValuesFrame(combine, s.self, s.queue, s.spec, spec');
    FlightValuesFrame(combine, s.subs, s.spec, spec');
    ChildValuesWithout(combine, s.children, s.spec, k);
    RootValuesWithout(combine, s.roots, s.owed, s.spec, s.aliases[k], k);
  }

  lemma RootHasNoParent<P>(s: Books<P>, k: Key)
    requires Shaped(s) && k in s.aliases
    ensures forall p :: p in s.children ==> s.children[p].left != k && s.children[p].right != k
    ensures forall id :: id in s.roots && s.roots[id] == k ==> id == s.aliases[k]
  {
    hide Tree, Placed;
    forall p | p in s.children ensures s.children[p].left != k && s.children[p].right != k {
      TreeLinks(s.self, s.parents, s.children, p);
    }
  }

  lemma RootValuesWithout<P>(combine: (P, P) -> P, roots: map<nat, Key>, owed: map<nat, seq<P>>, spec: map<Key, P>,
      id: nat, k: Key)
    requires RootValues(combine, roots, owed, spec)
    requires forall i :: i in roots && roots[i] == k ==> i == id
    ensures RootValues(combine, roots - {id}, owed, spec - {k})
  {
    forall i | i in roots - {id} ensures i in owed && Produces(combine, spec - {k}, roots[i], owed[i]) {
      assert Produces(combine, spec, roots[i], owed[i]);
    }
  }

  lemma ChildValuesWithout<P>(combine: (P, P) -> P, children: map<Key, Pair>, spec: map<Key, P>, k: Key)
    requires ChildValues(combine, children, spec) && k !in children
    requires forall p :: p in children ==> children[p].left != k && children[p].right != k
    ensures ChildValues(combine, children, spec - {k})
  {
    forall p | p in children ensures Joined(combine, spec - {k}, p, children[p].left, children[p].right) {
      assert Joined(combine, spec, p, children[p].left, children[p].right);
    }
  }

  /** The proof that leaves is the root of the batch owed under its id, which was not
      emitted before. */
  lemma EmitHonest<P>(combine: (P, P) -> P, owed: map<nat, seq<P>>, roots: map<nat, Key>, output: seq<Emitted<P>>,
      spec: map<Key, P>, id: nat, proof: P)
    requires Honest(combine, owed, output) && Accounted(owed, roots, output)
    requires RootValues(combine, roots, owed, spec) && id in roots && spec[roots[id]] == proof
    ensures Honest(combine, owed, output + [Emitted(id, proof)])
    ensures Accounted(owed, roots - {id}, output + [Emitted(id, proof)])
  {
    hide Root, IsPowerOfTwo;
    var e := Emitted(id, proof);
    IdsOfAppend(output, e);
    assert forall x :: x in output + [e] <==> x in output || x == e;
    assert forall i :: 0 <= i < |output| ==> output[i].id in Ids(output);
  }

  lemma EmitKeeps<P>(combine: (P, P) -> P, s: Books<P>, k: Key)
    requires Consistent(combine, s) && k in s.aliases && k in s.descendants && |s.descendants[k]| == 1
    ensures k in s.proofs && Consistent(combine, AfterEmit(s, k))
    ensures Settled(s.children, s.descendants, {}) ==> Settled(s.children, AfterEmit(s, k).descendants, {})
    ensures |s.proofs| == |AfterEmit(s, k).proofs| + 1
  {
    hide Shaped, Values, Numbered, DistinctBatches, SubsValid, Honest, Accounted, Settled, Root, IsPowerOfTwo;
    EntryOf(combine, s, k);
    EmitShaped(s, k);
    EmitValued(combine, s, k);
    ValuesRoots(combine, s);
    EmitHonest(combine, s.owed, s.roots, s.output, s.spec, s.aliases[k], s.proofs[k]);
    if Settled(s.children, s.descendants, {}) {
      SettledForget(s.children, s.descendants, k);
    }
    assert s.proofs.Keys == (s.proofs - {k}).Keys + {k};
  }

  lemma ValuesRoots<P>(combine: (P, P) -> P, s: Books<P>)
    requires Valued(combine, s)
    ensures RootValues(combine, s.roots, s.owed, s.spec)
  {
  }

  // ---------------------------------------------------------------- the caller

  ghost function AfterPush<P>(combine: (P, P) -> P, s: Books<P>, proofs: seq<P>): Books<P>
    requires IsBatch(proofs)
  {
    var k := Key(s.self, s.nextId);
    s.(nextId := s.nextId + 1, queue := s.queue + [Batch(s.nextId, proofs)], owed := s.owed[s.nextId := proofs],
       spec := s.spec[k := Root(combine, proofs)], roots := s.roots[s.nextId := k])
  }

  lemma PushShaped<P>(combine: (P, P) -> P, s: Books<P>, proofs: seq<P>)
    requires Shaped(s) && Numbered(s) && DistinctBatches(s.queue) && IsBatch(proofs) && s.nextId !in s.roots
    ensures var s' := AfterPush(combine, s, proofs); Shaped(s') && Numbered(s') && DistinctBatches(s'.queue)
  {
    hide Shape, QueueKeys, FlightKeys, DistinctBatches, Identified, Root, IsPowerOfTwo;
    var k, s' := Key(s.self, s.nextId), AfterPush(combine, s, proofs);
    IdentifiedFresh(s.self, s.nextAgg, s.nextId, s.subs, s.spec.Keys, s.proofs.Keys, s.owed.Keys);
    ShapeKeys(s.self, s.spec.Keys, s.parents, s.children, QueueKeys(s.self, s.queue), FlightKeys(s.subs),
              s.descendants.Keys, s.aliases, s.roots);
    QueueBack(s.self, s.queue, Batch(s.nextId, proofs));
    ShapePush(s.self, s.spec.Keys, s.parents, s.children, QueueKeys(s.self, s.queue), FlightKeys(s.subs),
              s.descendants.Keys, s.aliases, s.roots, s.nextId);
    assert s'.spec.Keys == s.spec.Keys + {k};
    IdentifiedFrame(s.self, s.nextAgg, s.nextId, s'.nextId, s.subs, s.spec.Keys, s'.spec.Keys,
                    s.proofs.Keys, s.proofs.Keys, s.owed.Keys, s'.owed.Keys);
  }

  lemma PushValued<P>(combine: (P, P) -> P, s: Books<P>, proofs: seq<P>)
    requires Shaped(s) && Numbered(s) && Valued(combine, s) && IsBatch(proofs)
    ensures Valued(combine, AfterPush(combine, s, proofs))
  {
    hide Shape, QueueKeys, FlightKeys, ChildValues, QueueValues, FlightValues, Resolved, Partition, Identified,
      RootValues;
    hide Root, IsPowerOfTwo, IsBatch;
    var k, s' := Key(s.self, s.nextId), AfterPush(combine, s, proofs);
    IdentifiedFresh(s.self, s.nextAgg, s.nextId, s.subs, s.spec.Keys, s.proofs.Keys, s.owed.Keys);
    ShapeKeys(s.self, s.spec.Keys, s.parents, s.children, QueueKeys(s.self, s.queue), FlightKeys(s.subs),
              s.descendants.Keys, s.aliases, s.roots);
    QueueValuesFrame(combine, s.self, s.queue, s.spec, s'.spec);
    QueueValuesBack(combine, s.self, s.queue, s'.spec, Batch(s.nextId, proofs));
    ChildValuesFrame(combine, s.children, s.spec, s'.spec);
    FlightValuesFrame(combine, s.subs, s.spec, s'.spec);
    ResolvedFrame(combine, s.self, s.descendants, s.proofs, s.spec, s'.spec);
    RootValuesFrame(combine, s.roots, s.owed, s.spec, s'.spec);
    RootValuesPush(combine, s.roots, s.owed, s'.spec, s.nextId, k, proofs);
  }

  lemma RootValuesPush<P>(combine: (P, P) -> P, roots: map<nat, Key>, owed: map<nat, seq<P>>, spec: map<Key, P>,
      id: nat, k: Key, proofs: seq<P>)
    requires RootValues(combine, roots, owed, spec) && Produces(combine, spec, k, proofs)
    ensures RootValues(combine, roots[id := k], owed[id := proofs], spec)
  {
    hide Produces;
  }

  lemma QueueValuesBack<P>(combine: (P, P) -> P, self: nat, queue: seq<Batch<P>>, spec: map<Key, P>, b: Batch<P>)
    requires QueueValues(combine, self, queue, spec) && Produces(combine, spec, Key(self, b.id), b.proofs)
    ensures QueueValues(combine, self, queue + [b], spec)
  {
  }

  lemma ChildValuesFrame<P>(combine: (P, P) -> P, children: map<Key, Pair>, spec: map<Key, P>, spec': map<Key, P>)
    requires ChildValues(combine, children, spec) && Agree(spec, spec', spec.Keys)
    ensures ChildValues(combine, children, spec')
  {
    forall p | p in children ensures Joined(combine, spec', p, children[p].left, children[p].right) {
      assert Joined(combine, spec, p, children[p].left, children[p].right);
    }
  }

  lemma PushHonest<P>(combine: (P, P) -> P, owed: map<nat, seq<P>>, roots: map<nat, Key>, output: seq<Emitted<P>>,
      id: nat, k: Key, proofs: seq<P>)
    requires Honest(combine, owed, output) && Accounted(owed, roots, output) && id !in owed && IsBatch(proofs)
    ensures Honest(combine, owed[id := proofs], output)
    ensures Accounted(owed[id := proofs], roots[id := k], output)
  {
    assert (owed[id := proofs]).Keys == owed.Keys + {id};
    assert (roots[id := k]).Keys == roots.Keys + {id};
  }

  lemma PushKeeps<P>(combine: (P, P) -> P, s: Books<P>, proofs: seq<P>)
    requires Consistent(combine, s) && IsBatch(proofs)
    ensures Consistent(combine, AfterPush(combine, s, proofs))
    ensures s.nextId !in s.owed
  {
    hide Shaped, Valued, Identified, DistinctBatches, SubsValid, Honest, Root, IsPowerOfTwo;
    IdentifiedFresh(s.self, s.nextAgg, s.nextId, s.subs, s.spec.Keys, s.proofs.Keys, s.owed.Keys);
    PushShaped(combine, s, proofs);
    PushValued(combine, s, proofs);
    PushHonest(combine, s.owed, s.roots, s.output, s.nextId, Key(s.self, s.nextId), proofs);
  }

  lemma PopHonest<P>(combine: (P, P) -> P, owed: map<nat, seq<P>>, roots: map<nat, Key>, output: seq<Emitted<P>>)
    requires Honest(combine, owed, output) && Accounted(owed, roots, output) && output != []
    ensures output[0].id in owed && IsBatch(owed[output[0].id]) && output[0].id !in roots
    ensures output[0].proof == Root(combine, owed[output[0].id])
    ensures Honest(combine, owed - {output[0].id}, output[1..])
    ensures Accounted(owed - {output[0].id}, roots, output[1..])
  {
    hide Root, IsPowerOfTwo, Ids;
    assert output[0] in output && forall e :: e in output[1..] ==> e in output;
    IdsOfRest(output);
    FirstIsApart(output);
    assert (owed - {output[0].id}).Keys == owed.Keys - {output[0].id};
  }

  lemma FirstIsApart<P>(output: seq<Emitted<P>>)
    requires output != [] && DistinctIds(output)
    ensures output[0].id !in Ids(output[1..]) && DistinctIds(output[1..])
    ensures forall e :: e in output[1..] ==> e.id != output[0].id
  {
  }

  lemma RootValuesPop<P>(combine: (P, P) -> P, roots: map<nat, Key>, owed: map<nat, seq<P>>, spec: map<Key, P>, id: nat)
    requires RootValues(combine, roots, owed, spec) && id !in roots
    ensures RootValues(combine, roots, owed - {id}, spec)
  {
    hide Produces;
  }

  lemma PopKeeps<P>(combine: (P, P) -> P, s: Books<P>)
    requires Consistent(combine, s) && s.output != []
    ensures s.output[0].id in s.owed && IsBatch(s.owed[s.output[0].id])
    ensures s.output[0].proof == Root(combine, s.owed[s.output[0].id])
    ensures Consistent(combine, s.(output := s.output[1..], owed := s.owed - {s.output[0].id}))
  {
    hide Shape, ChildValues, QueueValues, FlightValues, Resolved, Partition, RootValues, Identified, DistinctBatches;
    hide SubsValid, Honest, Accounted, Root, IsPowerOfTwo, IsBatch, QueueKeys, FlightKeys;
    var id := s.output[0].id;
    PopHonest(combine, s.owed, s.roots, s.output);
    RootValuesPop(combine, s.roots, s.owed, s.spec, id);
    IdentifiedFrame(s.self, s.nextAgg, s.nextId, s.nextId, s.subs, s.spec.Keys, s.spec.Keys,
                    s.proofs.Keys, s.proofs.Keys, s.owed.Keys, (s.owed - {id}).Keys);
  }

  /** An aggregator without batches. */
  lemma EmptyIsConsistent<P>(combine: (P, P) -> P, s: Books<P>)
    requires s == Books(s.self, s.nextAgg, s.nextId, [], map[], map[], map[], map[], map[], map[], [], map[], map[],
        map[])
    requires s.self < s.nextAgg
    ensures Consistent(combine, s) && Settled(s.children, s.descendants, {})
  {
    hide Root, IsPowerOfTwo;
  }

  /** What the batches that sub-aggregator `a` already holds have to produce. */
  ghost function Foreign<P>(combine: (P, P) -> P, a: nat, held: map<nat, seq<P>>): map<Key, P> {
    map id | id in held && IsBatch(held[id]) :: Key(a, id) := Root(combine, held[id])
  }

  /** A new sub-aggregator, with whatever others gave it to do. Its finished proofs will be
      stored like all others, but they belong to no batch of ours. */
  ghost function AfterInsert<P>(combine: (P, P) -> P, s: Books<P>, sub: Aggregator<P>): Books<P> {
    s.(nextAgg := s.nextAgg + 1, subs := s.subs[s.nextAgg := sub],
       spec := s.spec + Foreign(combine, s.nextAgg, sub.owed))
  }

  lemma ForeignIsNew<P>(combine: (P, P) -> P, s: Books<P>, sub: Aggregator<P>)
    requires Shaped(s) && Numbered(s) && Valid(combine, sub)
    ensures forall id :: id in sub.owed ==> IsBatch(sub.owed[id])
    ensures s.nextAgg != s.self && s.nextAgg !in s.subs && Foreign(combine, s.nextAgg, sub.owed).Keys !! s.spec.Keys
    ensures forall k :: k in Foreign(combine, s.nextAgg, sub.owed) ==>
      k.agg == s.nextAgg && k.batch in sub.owed && k.batch < sub.nextId
  {
    hide Shape, Root, IsPowerOfTwo, FlightKeys;
  }

  lemma InsertShaped<P>(combine: (P, P) -> P, s: Books<P>, sub: Aggregator<P>)
    requires Shaped(s) && Numbered(s) && Valid(combine, sub)
    ensures var s' := AfterInsert(combine, s, sub); Shaped(s') && Numbered(s')
  {
    hide Tree, Rooted, Placed, Identified, QueueKeys, FlightKeys, Root, IsPowerOfTwo, Valid, Foreign;
    ForeignIsNew(combine, s, sub);
    var s', foreign := AfterInsert(combine, s, sub), Foreign(combine, s.nextAgg, sub.owed).Keys;
    FlightInsert(combine, s.subs, s.nextAgg, sub);
    assert s'.spec.Keys == s.spec.Keys + foreign;
    InsertRooted(s.self, s.spec.Keys, s.parents, s.aliases, s.roots, foreign);
    InsertPlaced(s.spec.Keys, s.children.Keys, QueueKeys(s.self, s.queue), FlightKeys(s.subs), s.descendants.Keys,
                 foreign);
    InsertIdentified(s.self, s.nextAgg, s.nextId, s.subs, s.spec.Keys, s.proofs.Keys, s.owed.Keys, sub, foreign);
  }

  lemma InsertRooted(self: nat, live: set<Key>, parents: map<Key, Key>, aliases: map<Key, nat>, roots: map<nat, Key>,
      foreign: set<Key>)
    requires Rooted(self, live, parents, aliases, roots) && foreign !! live
    requires forall k :: k in foreign ==> k.agg != self
    ensures Rooted(self, live + foreign, parents, aliases, roots)
  {
  }

  lemma InsertPlaced(live: set<Key>, split: set<Key>, queued: set<Key>, flying: set<Key>, resolved: set<Key>,
      foreign: set<Key>)
    requires Placed(live, split, queued, flying, resolved) && foreign !! live
    ensures Placed(live + foreign, split, queued, flying + foreign, resolved)
  {
  }

  lemma InsertIdentified<P>(self: nat, nextAgg: nat, nextId: nat, subs: map<nat, Aggregator<P>>,
      live: set<Key>, solved: set<Key>, owed: set<nat>, sub: Aggregator<P>, foreign: set<Key>)
    requires Identified(self, nextAgg, nextId, subs, live, solved, owed)
    requires forall k :: k in foreign ==> k.agg == nextAgg && k.batch in sub.owed && k.batch < sub.nextId
    ensures Identified(self, nextAgg + 1, nextId, subs[nextAgg := sub], live + foreign, solved, owed)
  {
  }

  lemma FlightInsert<P>(combine: (P, P) -> P, subs: map<nat, Aggregator<P>>, a: nat, sub: Aggregator<P>)
    requires a !in subs
    requires forall id :: id in sub.owed ==> IsBatch(sub.owed[id])
    ensures FlightKeys(subs[a := sub]) == FlightKeys(subs) + Foreign(combine, a, sub.owed).Keys
  {
    hide Root, IsPowerOfTwo;
  }

  lemma InsertValued<P>(combine: (P, P) -> P, s: Books<P>, sub: Aggregator<P>)
    requires Shaped(s) && Numbered(s) && Valued(combine, s) && Valid(combine, sub)
    ensures Valued(combine, AfterInsert(combine, s, sub))
  {
    hide Shape, Identified, QueueKeys, FlightKeys, ChildValues, QueueValues, FlightValues, Resolved, Partition,
      RootValues, Root, IsPowerOfTwo, Valid, Foreign;
    ForeignIsNew(combine, s, sub);
    var s' := AfterInsert(combine, s, sub);
    ShapeKeys(s.self, s.spec.Keys, s.parents, s.children, QueueKeys(s.self, s.queue), FlightKeys(s.subs),
              s.descendants.Keys, s.aliases, s.roots);
    QueueValuesFrame(combine, s.self, s.queue, s.spec, s'.spec);
    ChildValuesFrame(combine, s.children, s.spec, s'.spec);
    FlightValuesFrame(combine, s.subs, s.spec, s'.spec);
    FlightValuesInsert(combine, s.subs, s.spec, s.nextAgg, sub);
    ResolvedFrame(combine, s.self, s.descendants, s.proofs, s.spec, s'.spec);
    RootValuesFrame(combine, s.roots, s.owed, s.spec, s'.spec);
  }

  lemma FlightValuesInsert<P>(combine: (P, P) -> P, subs: map<nat, Aggregator<P>>, spec: map<Key, P>, a: nat,
      sub: Aggregator<P>)
    requires a !in subs
    requires forall id :: id in sub.owed ==> IsBatch(sub.owed[id])
    requires FlightValues(combine, subs, spec + Foreign(combine, a, sub.owed))
    ensures FlightValues(combine, subs[a := sub], spec + Foreign(combine, a, sub.owed))
  {
    hide Root, IsPowerOfTwo;
    var spec' := spec + Foreign(combine, a, sub.owed);
    forall id | id in sub.owed ensures Produces(combine, spec', Key(a, id), sub.owed[id]) {
      assert Key(a, id) in Foreign(combine, a, sub.owed);
    }
  }

  lemma InsertKeeps<P>(combine: (P, P) -> P, s: Books<P>, sub: Aggregator<P>)
    requires Consistent(combine, s) && Valid(combine, sub)
    ensures s.nextAgg !in s.subs && Consistent(combine, AfterInsert(combine, s, sub))
  {
    hide Shaped, Valued, Numbered, DistinctBatches, SubsValid, Honest, Accounted, Valid, Root, IsPowerOfTwo, Foreign;
    ForeignIsNew(combine, s, sub);
    InsertShaped(combine, s, sub);
    InsertValued(combine, s, sub);
    SubsValidUpdate(combine, s.subs, s.nextAgg, sub);
  }
}
