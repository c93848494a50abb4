/** The bookkeeping of `RecursiveAggregator`: which batch was split into which, where each
    piece is, and what has to come out of it. Each predicate constrains a few of the
    aggregator's maps; the lemmas show what every elementary update of `step` keeps. */
module AggregationForest {
  import opened MerkleRoot
  import opened AggregatorContract
  import opened Wrappers

  /** A batch id qualified by the aggregator that issued it. */
  datatype Key = Key(agg: nat, batch: nat)

  datatype Pair = Pair(left: Key, right: Key)

  // ---------------------------------------------------------------- the tree of splits

  ghost predicate Link(self: nat, parents: map<Key, Key>, p: Key, c: Key) {
    c in parents && parents[c] == p && (c.agg == self ==> c.batch > p.batch)
  }

  /** `proof_parents` and `proof_children` are mutually inverse, and splitting goes from
      older to newer ids. */
  ghost predicate Tree(self: nat, parents: map<Key, Key>, children: map<Key, Pair>) {
    && (forall p :: p in children ==>
        && p.agg == self && children[p].left != children[p].right
        && Link(self, parents, p, children[p].left) && Link(self, parents, p, children[p].right))
    && (forall c :: c in parents ==>
        parents[c] in children && (c == children[parents[c]].left || c == children[parents[c]].right))
  }

  lemma SplitTree(self: nat, parents: map<Key, Key>, children: map<Key, Pair>, q: Key, first: Key, second: Key)
    requires Tree(self, parents, children)
    requires q.agg == self && q !in children && first != second
    requires first !in parents && first.batch > q.batch
    requires second !in parents && second.batch > q.batch
    ensures Tree(self, parents[first := q][second := q], children[q := Pair(first, second)])
  {
  }

  /** The pair of children once `q` is known as `k`. */
  function Renamed(pair: Pair, q: Key, k: Key): Pair {
    if pair.left == q then pair.(left := k)
    else if pair.right == q then pair.(right := k)
    else pair
  }

  lemma RenameTree(self: nat, parents: map<Key, Key>, children: map<Key, Pair>, q: Key, k: Key)
    requires Tree(self, parents, children)
    requires q in parents && k !in parents && k.agg != self
    ensures parents[q] in children
    ensures Tree(self, (parents - {q})[k := parents[q]],
                 children[parents[q] := Renamed(children[parents[q]], q, k)])
  {
    var parents' := (parents - {q})[k := parents[q]];
    var children' := children[parents[q] := Renamed(children[parents[q]], q, k)];
    forall p | p in children'
      ensures p.agg == self && children'[p].left != children'[p].right
      ensures Link(self, parents', p, children'[p].left) && Link(self, parents', p, children'[p].right)
    {
      TreeLinks(self, parents, children, p);
      assert Link(self, parents, p, children[p].left) && Link(self, parents, p, children[p].right);
    }
  }

  lemma TreeLinks(self: nat, parents: map<Key, Key>, children: map<Key, Pair>, p: Key)
    requires Tree(self, parents, children) && p in children
    ensures p.agg == self && children[p].left != children[p].right
    ensures children[p].left in parents && parents[children[p].left] == p
    ensures children[p].right in parents && parents[children[p].right] == p
  {
    assert Link(self, parents, p, children[p].left) && Link(self, parents, p, children[p].right);
  }

  lemma MergeTree(self: nat, parents: map<Key, Key>, children: map<Key, Pair>, p: Key)
    requires Tree(self, parents, children) && p in children
    ensures Tree(self, parents - {children[p].left, children[p].right}, children - {p})
  {
  }

  // ---------------------------------------------------------------- places

  ghost function QueueKeys<P>(self: nat, queue: seq<Batch<P>>): set<Key> {
    set b | b in queue :: Key(self, b.id)
  }

  ghost predicate DistinctBatches<P>(queue: seq<Batch<P>>) {
    forall i, j :: 0 <= i < j < |queue| ==> queue[i].id != queue[j].id
  }

  ghost function FlightKeys<P>(subs: map<nat, Aggregator<P>>): set<Key> {
    set a, id | a in subs && id in subs[a].owed :: Key(a, id)
  }

  /** Each live key is in exactly one place: split, queued, in flight or resolved. */
  ghost predicate Placed(live: set<Key>, split: set<Key>, queued: set<Key>, flying: set<Key>, resolved: set<Key>) {
    && live == split + queued + flying + resolved
    && split !! queued && split !! flying && split !! resolved
    && queued !! flying && queued !! resolved && flying !! resolved
  }

  lemma QueueRest<P>(self: nat, queue: seq<Batch<P>>)
    requires queue != [] && DistinctBatches(queue)
    ensures DistinctBatches(queue[1..])
    ensures Key(self, queue[0].id) in QueueKeys(self, queue)
    ensures QueueKeys(self, queue[1..]) == QueueKeys(self, queue) - {Key(self, queue[0].id)}
  {
    assert queue[0] in queue;
    assert forall b :: b in queue <==> b == queue[0] || b in queue[1..];
  }

  lemma QueueFront<P>(self: nat, queue: seq<Batch<P>>, b: Batch<P>)
    requires DistinctBatches(queue) && Key(self, b.id) !in QueueKeys(self, queue)
    ensures DistinctBatches([b] + queue)
    ensures QueueKeys(self, [b] + queue) == QueueKeys(self, queue) + {Key(self, b.id)}
  {
    assert forall x :: x in [b] + queue <==> x == b || x in queue;
    forall i | 0 <= i < |queue| ensures queue[i].id != b.id {
      assert queue[i] in queue;
    }
  }

  lemma QueueBack<P>(self: nat, queue: seq<Batch<P>>, b: Batch<P>)
    requires DistinctBatches(queue) && Key(self, b.id) !in QueueKeys(self, queue)
    ensures DistinctBatches(queue + [b])
    ensures QueueKeys(self, queue + [b]) == QueueKeys(self, queue) + {Key(self, b.id)}
  {
    assert forall x :: x in queue + [b] <==> x == b || x in queue;
    forall i | 0 <= i < |queue| ensures queue[i].id != b.id {
      assert queue[i] in queue;
    }
  }

  lemma FlightPush<P>(subs: map<nat, Aggregator<P>>, a: nat, proofs: seq<P>, id: nat, s: Aggregator<P>)
    requires a in subs && Pushed(subs[a], proofs, id, s)
    ensures FlightKeys(subs[a := s]) == FlightKeys(subs) + {Key(a, id)}
  {
  }

  lemma FlightPop<P>(subs: map<nat, Aggregator<P>>, a: nat, e: Emitted<P>, s: Aggregator<P>)
    requires a in subs && Popped(subs[a], Some(e), s)
    ensures FlightKeys(subs[a := s]) == FlightKeys(subs) - {Key(a, e.id)}
  {
  }

  lemma FlightAdvance<P>(subs: map<nat, Aggregator<P>>, a: nat, s: Aggregator<P>)
    requires a in subs && s.owed == subs[a].owed
    ensures FlightKeys(subs[a := s]) == FlightKeys(subs)
  {
  }

  /** A key in use carries an id that was issued before. */
  ghost predicate Issued<P>(self: nat, nextId: nat, subs: map<nat, Aggregator<P>>, k: Key) {
    if k.agg == self then k.batch < nextId else k.agg in subs && k.batch < subs[k.agg].nextId
  }

  /** Ids in use were issued before, so ids still to be issued are fresh. */
  ghost predicate Identified<P>(self: nat, nextAgg: nat, nextId: nat, subs: map<nat, Aggregator<P>>,
      live: set<Key>, solved: set<Key>, owed: set<nat>) {
    && self < nextAgg && self !in subs
    && (forall a :: a in subs ==> a < nextAgg)
    && (forall id :: id in owed ==> id < nextId)
    && (forall k :: k in live ==> Issued(self, nextId, subs, k))
    && (forall k :: k in solved ==> Issued(self, nextId, subs, k) && k.agg != self && k !in FlightKeys(subs))
  }

  lemma IdentifiedFresh<P>(self: nat, nextAgg: nat, nextId: nat, subs: map<nat, Aggregator<P>>,
      live: set<Key>, solved: set<Key>, owed: set<nat>)
    requires Identified(self, nextAgg, nextId, subs, live, solved, owed)
    ensures self !in subs && nextId !in owed && nextAgg !in subs && self < nextAgg
    ensures forall k :: k in live && k.agg == self ==> k.batch < nextId
    ensures forall k :: k in live && k.agg != self ==> k.agg in subs && k.batch < subs[k.agg].nextId
    ensures forall k :: k in solved ==> k.agg in subs && k.batch < subs[k.agg].nextId
    ensures solved !! FlightKeys(subs)
  {
  }

  /** Nothing about the ids changes while keys are renamed, dropped or issued properly. */
  lemma IdentifiedFrame<P>(self: nat, nextAgg: nat, nextId: nat, nextId': nat, subs: map<nat, Aggregator<P>>,
      live: set<Key>, live': set<Key>, solved: set<Key>, solved': set<Key>, owed: set<nat>, owed': set<nat>)
    requires Identified(self, nextAgg, nextId, subs, live, solved, owed)
    requires nextId <= nextId' && solved' <= solved
    requires forall k :: k in live' && k !in live ==> k.agg == self && k.batch < nextId'
    requires forall id :: id in owed' && id !in owed ==> id < nextId'
    ensures Identified(self, nextAgg, nextId', subs, live', solved', owed')
  {
  }

  // ---------------------------------------------------------------- values

  ghost predicate Joined<P>(combine: (P, P) -> P, spec: map<Key, P>, p: Key, a: Key, b: Key) {
    p in spec && a in spec && b in spec && spec[p] == combine(spec[a], spec[b])
  }

  /** `spec` is what each live key has to produce: a split key joins its halves, ... */
  ghost predicate ChildValues<P>(combine: (P, P) -> P, children: map<Key, Pair>, spec: map<Key, P>) {
    forall p :: p in children ==> Joined(combine, spec, p, children[p].left, children[p].right)
  }

  ghost predicate Produces<P>(combine: (P, P) -> P, spec: map<Key, P>, k: Key, proofs: seq<P>) {
    IsBatch(proofs) && k in spec && spec[k] == Root(combine, proofs)
  }

  /** ... a queued batch is a batch with that root, ... */
  ghost predicate QueueValues<P>(combine: (P, P) -> P, self: nat, queue: seq<Batch<P>>, spec: map<Key, P>) {
    forall b :: b in queue ==> Produces(combine, spec, Key(self, b.id), b.proofs)
  }

  /** ... and so is a batch in flight. */
  ghost predicate FlightValues<P>(combine: (P, P) -> P, subs: map<nat, Aggregator<P>>, spec: map<Key, P>) {
    forall a, id :: a in subs && id in subs[a].owed ==> Produces(combine, spec, Key(a, id), subs[a].owed[id])
  }

  ghost predicate SubsValid<P>(combine: (P, P) -> P, subs: map<nat, Aggregator<P>>) {
    forall a :: a in subs ==> Valid(combine, subs[a])
  }

  lemma ChildValuesRename<P>(combine: (P, P) -> P, self: nat, parents: map<Key, Key>, children: map<Key, Pair>,
      spec: map<Key, P>, q: Key, k: Key)
    requires ChildValues(combine, children, spec) && Tree(self, parents, children)
    requires q in spec && q !in children && k !in spec && k != q
    ensures var spec' := (spec - {q})[k := spec[q]];
      if q in parents
      then ChildValues(combine, children[parents[q] := Renamed(children[parents[q]], q, k)], spec')
      else ChildValues(combine, children, spec')
  {
    var spec' := (spec - {q})[k := spec[q]];
    forall p | p in children ensures
        var pair := if q in parents && p == parents[q] then Renamed(children[p], q, k) else children[p];
        Joined(combine, spec', p, pair.left, pair.right)
    {
      assert Joined(combine, spec, p, children[p].left, children[p].right);
    }
  }

  lemma ChildValuesMerge<P>(combine: (P, P) -> P, self: nat, parents: map<Key, Key>, children: map<Key, Pair>,
      spec: map<Key, P>, p: Key)
    requires ChildValues(combine, children, spec) && Tree(self, parents, children) && p in children
    requires children[p].left !in children && children[p].right !in children
    ensures ChildValues(combine, children - {p}, spec - {children[p].left, children[p].right})
  {
    var spec' := spec - {children[p].left, children[p].right};
    forall p' | p' in children && p' != p
      ensures Joined(combine, spec', p', children[p'].left, children[p'].right)
    {
      assert Joined(combine, spec, p', children[p'].left, children[p'].right);
    }
  }

  /** Both maps give the same value to each of the keys. */
  ghost predicate Agree<P>(spec: map<Key, P>, spec': map<Key, P>, keys: set<Key>) {
    forall k :: k in keys ==> k in spec && k in spec' && spec'[k] == spec[k]
  }

  lemma QueueValuesFrame<P>(combine: (P, P) -> P, self: nat, queue: seq<Batch<P>>, spec: map<Key, P>,
      spec': map<Key, P>)
    requires QueueValues(combine, self, queue, spec) && Agree(spec, spec', QueueKeys(self, queue))
    ensures QueueValues(combine, self, queue, spec')
  {
    forall b | b in queue ensures Produces(combine, spec', Key(self, b.id), b.proofs) {
      assert Key(self, b.id) in QueueKeys(self, queue);
      assert Produces(combine, spec, Key(self, b.id), b.proofs);
    }
  }

  lemma FlightValuesFrame<P>(combine: (P, P) -> P, subs: map<nat, Aggregator<P>>, spec: map<Key, P>, spec': map<Key, P>)
    requires FlightValues(combine, subs, spec) && Agree(spec, spec', FlightKeys(subs))
    ensures FlightValues(combine, subs, spec')
  {
    forall a, id | a in subs && id in subs[a].owed ensures Produces(combine, spec', Key(a, id), subs[a].owed[id]) {
      assert Key(a, id) in FlightKeys(subs);
      assert Produces(combine, spec, Key(a, id), subs[a].owed[id]);
    }
  }

  lemma FlightValuesPush<P>(combine: (P, P) -> P, subs: map<nat, Aggregator<P>>, spec: map<Key, P>,
      a: nat, proofs: seq<P>, id: nat, s: Aggregator<P>)
    requires FlightValues(combine, subs, spec) && a in subs && Pushed(subs[a], proofs, id, s)
    requires Produces(combine, spec, Key(a, id), proofs)
    ensures FlightValues(combine, subs[a := s], spec)
  {
  }

  lemma FlightValuesShrink<P>(combine: (P, P) -> P, subs: map<nat, Aggregator<P>>, spec: map<Key, P>, a: nat,
      s: Aggregator<P>)
    requires FlightValues(combine, subs, spec) && a in subs
    requires forall id :: id in s.owed ==> id in subs[a].owed && s.owed[id] == subs[a].owed[id]
    ensures FlightValues(combine, subs[a := s], spec)
  {
  }

  /** The halves of a batch produce what joins to the root of the batch. */
  lemma HalvesProduce<P>(combine: (P, P) -> P, proofs: seq<P>, half: nat)
    requires IsBatch(proofs) && |proofs| > 2 && half == |proofs| / 2
    ensures IsBatch(proofs[..half]) && IsBatch(proofs[half..])
    ensures Root(combine, proofs) == combine(Root(combine, proofs[..half]), Root(combine, proofs[half..]))
  {
    RootOfHalves(combine, proofs[..half], proofs[half..]);
    assert proofs == proofs[..half] + proofs[half..];
  }

  lemma QueueValuesFront<P>(combine: (P, P) -> P, self: nat, queue: seq<Batch<P>>, spec: map<Key, P>, b: Batch<P>)
    ensures QueueValues(combine, self, [b] + queue, spec) <==>
      QueueValues(combine, self, queue, spec) && Produces(combine, spec, Key(self, b.id), b.proofs)
  {
    hide Produces;
    assert forall x :: x in [b] + queue <==> x == b || x in queue;
  }

  lemma ChildValuesSplit<P>(combine: (P, P) -> P, children: map<Key, Pair>, spec: map<Key, P>, spec': map<Key, P>,
      q: Key, first: Key, second: Key)
    requires ChildValues(combine, children, spec) && Agree(spec, spec', spec.Keys)
    requires Joined(combine, spec', q, first, second)
    ensures ChildValues(combine, children[q := Pair(first, second)], spec')
  {
    forall p | p in children && p != q ensures Joined(combine, spec', p, children[p].left, children[p].right) {
      assert Joined(combine, spec, p, children[p].left, children[p].right);
    }
  }

  // ---------------------------------------------------------------- resolved pieces

  function Collect<P>(proofs: map<Key, P>, ks: seq<Key>): (ps: seq<P>)
    requires forall k :: k in ks ==> k in proofs
    ensures |ps| == |ks| && forall i :: 0 <= i < |ps| ==> ps[i] == proofs[ks[i]]
  {
    seq(|ks|, i requires 0 <= i < |ks| => proofs[ks[i]])
  }

  function KeySet(ks: seq<Key>): set<Key> {
    set k | k in ks
  }

  ghost predicate NoDuplicates(ks: seq<Key>) {
    forall i, j :: 0 <= i < j < |ks| ==> ks[i] != ks[j]
  }

  /** The proofs listed for `k` are a complete batch whose root is the one `k` has to produce. */
  ghost predicate Entry<P>(combine: (P, P) -> P, self: nat, proofs: map<Key, P>, spec: map<Key, P>, k: Key,
      ds: seq<Key>) {
    && IsPowerOfTwo(|ds|) && NoDuplicates(ds)
    && (forall d :: d in ds ==> d in proofs)
    && k in spec && spec[k] == Root(combine, Collect(proofs, ds))
    && (if |ds| == 1 then ds == [k] && k.agg != self else k.agg == self)
  }

  /** `proof_descendants` partitions the keys of `sub_recursive_proofs` into disjoint lists. */
  ghost predicate Partition<P>(descendants: map<Key, seq<Key>>, proofs: map<Key, P>) {
    && (forall k, k', d ::
          (k in descendants && k' in descendants && d in descendants[k] && d in descendants[k']) ==> k == k')
    && (forall k, d :: k in descendants && d in descendants[k] ==> d in proofs)
    && (forall d :: d in proofs ==> exists k :: k in descendants && d in descendants[k])
  }

  ghost predicate Resolved<P>(combine: (P, P) -> P, self: nat, descendants: map<Key, seq<Key>>, proofs: map<Key, P>,
      spec: map<Key, P>) {
    forall k :: k in descendants ==> Entry(combine, self, proofs, spec, k, descendants[k])
  }

  lemma EntryFrame<P>(combine: (P, P) -> P, self: nat, proofs: map<Key, P>, spec: map<Key, P>,
      proofs': map<Key, P>, spec': map<Key, P>, k: Key, ds: seq<Key>)
    requires Entry(combine, self, proofs, spec, k, ds)
    requires forall d :: d in ds ==> d in proofs' && proofs'[d] == proofs[d]
    requires k in spec' && spec'[k] == spec[k]
    ensures Entry(combine, self, proofs', spec', k, ds)
  {
    assert Collect(proofs, ds) == Collect(proofs', ds);
  }

  lemma ResolvedFrame<P>(combine: (P, P) -> P, self: nat, descendants: map<Key, seq<Key>>, proofs: map<Key, P>,
      spec: map<Key, P>, spec': map<Key, P>)
    requires Resolved(combine, self, descendants, proofs, spec) && Agree(spec, spec', descendants.Keys)
    ensures Resolved(combine, self, descendants, proofs, spec')
  {
    forall k | k in descendants ensures Entry(combine, self, proofs, spec', k, descendants[k]) {
      EntryFrame(combine, self, proofs, spec, proofs, spec', k, descendants[k]);
    }
  }

  lemma ResolveOne<P>(combine: (P, P) -> P, self: nat, descendants: map<Key, seq<Key>>, proofs: map<Key, P>,
      spec: map<Key, P>, k: Key, proof: P)
    requires Resolved(combine, self, descendants, proofs, spec) && Partition(descendants, proofs)
    requires k !in descendants && k !in proofs && k.agg != self && k in spec && spec[k] == proof
    ensures Resolved(combine, self, descendants[k := [k]], proofs[k := proof], spec)
    ensures Partition(descendants[k := [k]], proofs[k := proof])
  {
    var descendants', proofs' := descendants[k := [k]], proofs[k := proof];
    forall k' | k' in descendants' ensures Entry(combine, self, proofs', spec, k', descendants'[k']) {
      if k' == k {
        assert Collect(proofs', [k]) == [proof];
      } else {
        EntryFrame(combine, self, proofs, spec, proofs', spec, k', descendants[k']);
      }
    }
    forall d | d in proofs' ensures exists k' :: k' in descendants' && d in descendants'[k'] {
      if d == k {
        assert d in descendants'[k];
      } else {
        var k' :| k' in descendants && d in descendants[k'];
        assert d in descendants'[k'];
      }
    }
  }

  function Merged(descendants: map<Key, seq<Key>>, a: Key, b: Key, p: Key): map<Key, seq<Key>>
    requires a in descendants && b in descendants
  {
    (descendants - {a, b})[p := descendants[a] + descendants[b]]
  }

  lemma MergePartition<P>(descendants: map<Key, seq<Key>>, proofs: map<Key, P>, a: Key, b: Key, p: Key)
    requires Partition(descendants, proofs)
    requires a in descendants && b in descendants && a != b && p !in descendants
    ensures Partition(Merged(descendants, a, b, p), proofs)
  {
    var descendants' := Merged(descendants, a, b, p);
    forall d | d in proofs ensures exists k :: k in descendants' && d in descendants'[k] {
      var k :| k in descendants && d in descendants[k];
      var k' := if k == a || k == b then p else k;
      assert d in descendants'[k'];
    }
    assert forall d :: d in descendants'[p] <==> d in descendants[a] || d in descendants[b];
  }

  lemma MergeEntry<P>(combine: (P, P) -> P, self: nat, proofs: map<Key, P>, spec: map<Key, P>,
      a: Key, ds: seq<Key>, b: Key, es: seq<Key>, p: Key)
    requires Entry(combine, self, proofs, spec, a, ds) && Entry(combine, self, proofs, spec, b, es)
    requires |ds| == |es| && p.agg == self && Joined(combine, spec, p, a, b)
    requires forall d :: d in ds ==> d !in es
    ensures Entry(combine, self, proofs, spec, p, ds + es)
  {
    hide Root, IsPowerOfTwo, NoDuplicates;
    RootOfHalves(combine, Collect(proofs, ds), Collect(proofs, es));
    assert Collect(proofs, ds + es) == Collect(proofs, ds) + Collect(proofs, es);
    NoDuplicatesAppend(ds, es);
  }

  lemma NoDuplicatesAppend(ds: seq<Key>, es: seq<Key>)
    requires NoDuplicates(ds) && NoDuplicates(es) && forall d :: d in ds ==> d !in es
    ensures NoDuplicates(ds + es)
  {
    forall i, j | 0 <= i < j < |ds + es| ensures (ds + es)[i] != (ds + es)[j] {
      if i < |ds| <= j {
        assert ds[i] in ds && es[j - |ds|] in es;
      }
    }
  }

  lemma MergeResolved<P>(combine: (P, P) -> P, self: nat, descendants: map<Key, seq<Key>>, proofs: map<Key, P>,
      spec: map<Key, P>, a: Key, b: Key, p: Key)
    requires Resolved(combine, self, descendants, proofs, spec) && Partition(descendants, proofs)
    requires a in descendants && b in descendants && |descendants[a]| == |descendants[b]|
    requires a != b && p !in descendants && p.agg == self && Joined(combine, spec, p, a, b)
    ensures Resolved(combine, self, Merged(descendants, a, b, p), proofs, spec - {a, b})
  {
    var descendants', spec' := Merged(descendants, a, b, p), spec - {a, b};
    MergeEntry(combine, self, proofs, spec, a, descendants[a], b, descendants[b], p);
    forall k | k in descendants' ensures Entry(combine, self, proofs, spec', k, descendants'[k]) {
      EntryFrame(combine, self, proofs, spec, proofs, spec', k, descendants'[k]);
    }
  }

  /** A list leaves the resolved pieces together with its proofs. */
  lemma ForgetOne<P>(combine: (P, P) -> P, self: nat, descendants: map<Key, seq<Key>>, proofs: map<Key, P>,
      spec: map<Key, P>, k: Key)
    requires Resolved(combine, self, descendants, proofs, spec) && Partition(descendants, proofs)
    requires k in descendants
    ensures Resolved(combine, self, descendants - {k}, proofs - KeySet(descendants[k]), spec)
    ensures Partition(descendants - {k}, proofs - KeySet(descendants[k]))
    ensures |proofs| == |proofs - KeySet(descendants[k])| + |descendants[k]|
  {
    var descendants', proofs' := descendants - {k}, proofs - KeySet(descendants[k]);
    forall k' | k' in descendants' ensures Entry(combine, self, proofs', spec, k', descendants'[k']) {
      EntryFrame(combine, self, proofs, spec, proofs', spec, k', descendants[k']);
    }
    forall d | d in proofs' ensures exists k' :: k' in descendants' && d in descendants'[k'] {
      var k' :| k' in descendants && d in descendants[k'];
      assert d in descendants'[k'];
    }
    KeySetSize(descendants[k]);
    assert proofs.Keys == proofs'.Keys + KeySet(descendants[k]);
  }

  lemma {:induction false} KeySetSize(ks: seq<Key>)
    requires NoDuplicates(ks)
    ensures |KeySet(ks)| == |ks|
  {
    if ks != [] {
      KeySetSize(ks[1..]);
      assert forall k :: k in ks <==> k == ks[0] || k in ks[1..];
      assert KeySet(ks) == {ks[0]} + KeySet(ks[1..]);
    }
  }

  // ---------------------------------------------------------------- roots

  /** The caller's batch that a parentless key stands for. */
  ghost function RootId(aliases: map<Key, nat>, k: Key): nat {
    if k in aliases then aliases[k] else k.batch
  }

  /** A batch of the caller's: it was pushed here, or is known at a sub-aggregator by an alias. */
  predicate Ours(self: nat, aliases: map<Key, nat>, k: Key) {
    k in aliases || k.agg == self
  }

  /** The live keys without a parent are, one-to-one, the caller's batches in `roots`, and
      batches that a sub-aggregator had been given by somebody else. */
  ghost predicate Rooted(self: nat, live: set<Key>, parents: map<Key, Key>, aliases: map<Key, nat>,
      roots: map<nat, Key>) {
    && (forall k :: k in live && k !in parents && Ours(self, aliases, k) ==>
        RootId(aliases, k) in roots && roots[RootId(aliases, k)] == k)
    && (forall id :: id in roots ==>
        && roots[id] in live && roots[id] !in parents && Ours(self, aliases, roots[id])
        && RootId(aliases, roots[id]) == id)
    && (forall k :: k in aliases ==> k in live && k !in parents && k.agg != self)
    && (forall k :: k in parents ==> k in live)
  }

  /** What the caller is owed is either still being worked on or ready, never both. */
  ghost predicate Accounted<P>(owed: map<nat, seq<P>>, roots: map<nat, Key>, output: seq<Emitted<P>>) {
    owed.Keys == roots.Keys + Ids(output) && roots.Keys !! Ids(output)
  }

  ghost predicate RootValues<P>(combine: (P, P) -> P, roots: map<nat, Key>, owed: map<nat, seq<P>>, spec: map<Key, P>) {
    forall id :: id in roots ==> id in owed && Produces(combine, spec, roots[id], owed[id])
  }

  lemma RootedKeys(self: nat, live: set<Key>, parents: map<Key, Key>, aliases: map<Key, nat>, roots: map<nat, Key>)
    requires Rooted(self, live, parents, aliases, roots)
    ensures roots.Values <= live && parents.Keys <= live && aliases.Keys <= live
  {
  }

  lemma RootValuesFrame<P>(combine: (P, P) -> P, roots: map<nat, Key>, owed: map<nat, seq<P>>, spec: map<Key, P>,
      spec': map<Key, P>)
    requires RootValues(combine, roots, owed, spec) && Agree(spec, spec', roots.Values)
    ensures RootValues(combine, roots, owed, spec')
  {
    forall id | id in roots ensures id in owed && Produces(combine, spec', roots[id], owed[id]) {
      assert Produces(combine, spec, roots[id], owed[id]);
    }
  }

  lemma PushRooted(self: nat, live: set<Key>, parents: map<Key, Key>, aliases: map<Key, nat>, roots: map<nat, Key>,
      id: nat)
    requires Rooted(self, live, parents, aliases, roots)
    requires Key(self, id) !in live && id !in roots
    ensures Rooted(self, live + {Key(self, id)}, parents, aliases, roots[id := Key(self, id)])
  {
  }

  lemma SplitRooted(self: nat, live: set<Key>, parents: map<Key, Key>, aliases: map<Key, nat>, roots: map<nat, Key>,
      q: Key, first: Key, second: Key)
    requires Rooted(self, live, parents, aliases, roots)
    requires first !in live && second !in live
    ensures Rooted(self, live + {first, second}, parents[first := q][second := q], aliases, roots)
  {
  }

  lemma RenameRooted(self: nat, live: set<Key>, parents: map<Key, Key>, aliases: map<Key, nat>, roots: map<nat, Key>,
      q: Key, k: Key)
    requires Rooted(self, live, parents, aliases, roots)
    requires q in live && q.agg == self && k !in live && k.agg != self
    ensures q in parents ==>
      Rooted(self, live - {q} + {k}, (parents - {q})[k := parents[q]], aliases, roots)
    ensures q !in parents ==>
      && q.batch in roots && roots[q.batch] == q
      && Rooted(self, live - {q} + {k}, parents, aliases[k := q.batch], roots[q.batch := k])
  {
  }

  lemma MergeRooted(self: nat, live: set<Key>, parents: map<Key, Key>, aliases: map<Key, nat>, roots: map<nat, Key>,
      a: Key, b: Key)
    requires Rooted(self, live, parents, aliases, roots) && a in parents && b in parents
    ensures Rooted(self, live - {a, b}, parents - {a, b}, aliases, roots)
  {
  }

  lemma EmitRooted(self: nat, live: set<Key>, parents: map<Key, Key>, aliases: map<Key, nat>, roots: map<nat, Key>,
      k: Key)
    requires Rooted(self, live, parents, aliases, roots) && k in aliases
    ensures Rooted(self, live - {k}, parents, aliases - {k}, roots - {aliases[k]})
    ensures aliases[k] in roots && roots[aliases[k]] == k
  {
  }

  // ---------------------------------------------------------------- the forest as a whole

  /** Where every key is and how keys hang together. */
  ghost predicate Shape(self: nat, live: set<Key>, parents: map<Key, Key>, children: map<Key, Pair>,
      queued: set<Key>, flying: set<Key>, resolved: set<Key>, aliases: map<Key, nat>, roots: map<nat, Key>) {
    && Tree(self, parents, children)
    && Placed(live, children.Keys, queued, flying, resolved)
    && Rooted(self, live, parents, aliases, roots)
  }

  /** Every place holds what its key has to produce. */
  ghost predicate Values<P>(combine: (P, P) -> P, self: nat, queue: seq<Batch<P>>, children: map<Key, Pair>,
      subs: map<nat, Aggregator<P>>, descendants: map<Key, seq<Key>>, proofs: map<Key, P>, spec: map<Key, P>,
      owed: map<nat, seq<P>>, roots: map<nat, Key>) {
    && ChildValues(combine, children, spec)
    && QueueValues(combine, self, queue, spec)
    && FlightValues(combine, subs, spec)
    && Resolved(combine, self, descendants, proofs, spec) && Partition(descendants, proofs)
    && RootValues(combine, roots, owed, spec)
  }

  lemma ShapeKeys(self: nat, live: set<Key>, parents: map<Key, Key>, children: map<Key, Pair>,
      queued: set<Key>, flying: set<Key>, resolved: set<Key>, aliases: map<Key, nat>, roots: map<nat, Key>)
    requires Shape(self, live, parents, children, queued, flying, resolved, aliases, roots)
    ensures children.Keys + queued + flying + resolved + roots.Values + parents.Keys + aliases.Keys <= live
    ensures queued !! flying && queued !! resolved && flying !! resolved && children.Keys !! queued + flying + resolved
  {
    RootedKeys(self, live, parents, aliases, roots);
  }

  lemma ShapeSplit(self: nat, live: set<Key>, parents: map<Key, Key>, children: map<Key, Pair>,
      queued: set<Key>, flying: set<Key>, resolved: set<Key>, aliases: map<Key, nat>, roots: map<nat, Key>,
      q: Key, first: Key, second: Key)
    requires Shape(self, live, parents, children, queued, flying, resolved, aliases, roots)
    requires q in queued && q.agg == self && first != second
    requires first !in live && first.batch > q.batch
    requires second !in live && second.batch > q.batch
    ensures Shape(self, live + {first, second}, parents[first := q][second := q], children[q := Pair(first, second)],
                  queued - {q} + {first, second}, flying, resolved, aliases, roots)
  {
    hide Tree, Rooted;
    RootedKeys(self, live, parents, aliases, roots);
    SplitTree(self, parents, children, q, first, second);
    SplitRooted(self, live, parents, aliases, roots, q, first, second);
  }

  lemma ShapeSend(self: nat, live: set<Key>, parents: map<Key, Key>, children: map<Key, Pair>,
      queued: set<Key>, flying: set<Key>, resolved: set<Key>, aliases: map<Key, nat>, roots: map<nat, Key>,
      q: Key, k: Key)
    requires Shape(self, live, parents, children, queued, flying, resolved, aliases, roots)
    requires q in queued && q.agg == self && k !in live && k.agg != self
    ensures q in parents ==>
      && parents[q] in children
      && Shape(self, live - {q} + {k}, (parents - {q})[k := parents[q]],
               children[parents[q] := Renamed(children[parents[q]], q, k)],
               queued - {q}, flying + {k}, resolved, aliases, roots)
    ensures q !in parents ==>
      Shape(self, live - {q} + {k}, parents, children,
            queued - {q}, flying + {k}, resolved, aliases[k := q.batch], roots[q.batch := k])
  {
    hide Tree, Rooted;
    RenameRooted(self, live, parents, aliases, roots, q, k);
    RootedKeys(self, live, parents, aliases, roots);
    if q in parents {
      RenameTree(self, parents, children, q, k);
    }
  }

  lemma ShapePush(self: nat, live: set<Key>, parents: map<Key, Key>, children: map<Key, Pair>,
      queued: set<Key>, flying: set<Key>, resolved: set<Key>, aliases: map<Key, nat>, roots: map<nat, Key>, id: nat)
    requires Shape(self, live, parents, children, queued, flying, resolved, aliases, roots)
    requires Key(self, id) !in live && id !in roots
    ensures var k := Key(self, id);
      Shape(self, live + {k}, parents, children, queued + {k}, flying, resolved, aliases, roots[id := k])
  {
    hide Tree, Rooted;
    PushRooted(self, live, parents, aliases, roots, id);
  }

  lemma ShapeCollect(self: nat, live: set<Key>, parents: map<Key, Key>, children: map<Key, Pair>,
      queued: set<Key>, flying: set<Key>, resolved: set<Key>, aliases: map<Key, nat>, roots: map<nat, Key>, k: Key)
    requires Shape(self, live, parents, children, queued, flying, resolved, aliases, roots) && k in flying
    ensures Shape(self, live, parents, children, queued, flying - {k}, resolved + {k}, aliases, roots)
    ensures k in live && k !in resolved
  {
    hide Tree, Rooted;
  }

  lemma ShapeMerge(self: nat, live: set<Key>, parents: map<Key, Key>, children: map<Key, Pair>,
      queued: set<Key>, flying: set<Key>, resolved: set<Key>, aliases: map<Key, nat>, roots: map<nat, Key>, p: Key)
    requires Shape(self, live, parents, children, queued, flying, resolved, aliases, roots)
    requires p in children && children[p].left in resolved && children[p].right in resolved
    ensures var a, b := children[p].left, children[p].right;
      Shape(self, live - {a, b}, parents - {a, b}, children - {p},
            queued, flying, resolved - {a, b} + {p}, aliases, roots)
  {
    hide Tree, Rooted;
    TreeLinks(self, parents, children, p);
    MergeTree(self, parents, children, p);
    MergeRooted(self, live, parents, aliases, roots, children[p].left, children[p].right);
  }

  lemma ShapeEmit(self: nat, live: set<Key>, parents: map<Key, Key>, children: map<Key, Pair>,
      queued: set<Key>, flying: set<Key>, resolved: set<Key>, aliases: map<Key, nat>, roots: map<nat, Key>, k: Key)
    requires Shape(self, live, parents, children, queued, flying, resolved, aliases, roots)
    requires k in resolved && k in aliases
    ensures Shape(self, live - {k}, parents, children,
                  queued, flying, resolved - {k}, aliases - {k}, roots - {aliases[k]})
    ensures aliases[k] in roots && roots[aliases[k]] == k
  {
    hide Tree, Rooted;
    EmitRooted(self, live, parents, aliases, roots, k);
  }

  lemma ValuesSplit<P>(combine: (P, P) -> P, self: nat, queue: seq<Batch<P>>, children: map<Key, Pair>,
      subs: map<nat, Aggregator<P>>, descendants: map<Key, seq<Key>>, proofs: map<Key, P>, spec: map<Key, P>,
      owed: map<nat, seq<P>>, roots: map<nat, Key>, current: Batch<P>, half: nat, first: nat, second: nat)
    requires Values(combine, self, [current] + queue, children, subs, descendants, proofs, spec, owed, roots)
    requires QueueKeys(self, queue) + FlightKeys(subs) + descendants.Keys + roots.Values <= spec.Keys
    requires |current.proofs| > 2 && half == |current.proofs| / 2 && first != second
    requires Key(self, first) !in spec && Key(self, second) !in spec
    ensures IsBatch(current.proofs) && IsBatch(current.proofs[..half]) && IsBatch(current.proofs[half..])
    ensures Values(combine, self,
      [Batch(first, current.proofs[..half])] + ([Batch(second, current.proofs[half..])] + queue),
      children[Key(self, current.id) := Pair(Key(self, first), Key(self, second))], subs, descendants, proofs,
      spec[Key(self, first) := Root(combine, current.proofs[..half])]
          [Key(self, second) := Root(combine, current.proofs[half..])],
      owed, roots)
  {
    hide Root, IsPowerOfTwo, ChildValues, QueueValues, FlightValues, Resolved, Partition, RootValues;
    QueueValuesFront(combine, self, queue, spec, current);
    HalvesProduce(combine, current.proofs, half);
    var b, b1 := Batch(first, current.proofs[..half]), Batch(second, current.proofs[half..]);
    var spec' := spec[Key(self, first) := Root(combine, b.proofs)][Key(self, second) := Root(combine, b1.proofs)];
    QueueValuesFrame(combine, self, queue, spec, spec');
    QueueValuesFront(combine, self, queue, spec', b1);
    QueueValuesFront(combine, self, [b1] + queue, spec', b);
    ChildValuesSplit(combine, children, spec, spec', Key(self, current.id), Key(self, first), Key(self, second));
    FlightValuesFrame(combine, subs, spec, spec');
    ResolvedFrame(combine, self, descendants, proofs, spec, spec');
    RootValuesFrame(combine, roots, owed, spec, spec');
  }

  // ---------------------------------------------------------------- no work left behind

  /** Both keys are resolved, with equally many descendants: they can be merged. */
  ghost predicate Mergeable(descendants: map<Key, seq<Key>>, a: Key, b: Key) {
    a in descendants && b in descendants && |descendants[a]| == |descendants[b]|
  }

  /** No two siblings wait side by side with equally large results, except under `but`. */
  ghost predicate Settled(children: map<Key, Pair>, descendants: map<Key, seq<Key>>, but: set<Key>) {
    forall p :: p in children && p !in but ==> !Mergeable(descendants, children[p].left, children[p].right)
  }

  lemma SettledSplit(children: map<Key, Pair>, descendants: map<Key, seq<Key>>, q: Key, first: Key, second: Key)
    requires Settled(children, descendants, {}) && first !in descendants
    ensures Settled(children[q := Pair(first, second)], descendants, {})
  {
  }

  /** With nothing queued, nothing in flight and every finished root emitted, nothing is
      left at all: unmerged singletons alone cannot be what remains. */
  lemma IdleMeansDone<P>(combine: (P, P) -> P, self: nat, live: set<Key>, parents: map<Key, Key>,
      children: map<Key, Pair>, aliases: map<Key, nat>, descendants: map<Key, seq<Key>>, proofs: map<Key, P>,
      spec: map<Key, P>, roots: map<nat, Key>)
    requires Tree(self, parents, children) && Rooted(self, live, parents, aliases, roots)
    requires Placed(live, children.Keys, {}, {}, descendants.Keys)
    requires Resolved(combine, self, descendants, proofs, spec) && Settled(children, descendants, {})
    requires forall k :: k in descendants ==> k !in aliases && |descendants[k]| == 1
    ensures roots.Keys == {}
  {
    hide Root, IsPowerOfTwo;
    if id :| id in roots {
      if roots[id] !in descendants {
        var _ := BottomSplit(self, live, parents, children, descendants);
      }
    }
  }

  /** The newest of the splits has two unsplit children. */
  lemma BottomSplit(self: nat, live: set<Key>, parents: map<Key, Key>, children: map<Key, Pair>,
      descendants: map<Key, seq<Key>>) returns (p: Key)
    requires Tree(self, parents, children) && children.Keys != {}
    requires forall c :: c in parents ==> c in live
    requires live == children.Keys + descendants.Keys
    ensures p in children && children[p].left in descendants && children[p].right in descendants
  {
    p := NewestSplit(children.Keys);
    assert Link(self, parents, p, children[p].left) && Link(self, parents, p, children[p].right);
  }

  lemma NewestSplit(keys: set<Key>) returns (p: Key)
    requires keys != {}
    ensures p in keys && forall k :: k in keys ==> k.batch <= p.batch
  {
    p :| p in keys;
    if keys != {p} {
      var rest := NewestSplit(keys - {p});
      if rest.batch > p.batch {
        p := rest;
      }
    }
  }
}
