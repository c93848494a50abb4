/** `AggregatorLoad`: which sub-aggregator gets work next, and how its place in the sorted
    vector is corrected after it was given some. */
module AggregatorLoads {
  import opened AggregatorContract
  import opened MerkleRoot

  const MAX_WAIT_TIME: real := 2.0

  datatype WaitTime = Finite(time: real) | Infinite

  datatype Load = Load(expectedWaitTime: WaitTime, negativeThroughput: real, aggregatorId: nat)

  function LoadOf<P>(id: nat, s: Aggregator<P>): (l: Load)
    ensures l.aggregatorId == id
  {
    var wait := if s.throughput == 0.0 then Infinite else Finite(s.pending as real / (2.0 * s.throughput));
    Load(wait, -s.throughput, id)
  }

  predicate WaitLess(a: WaitTime, b: WaitTime) {
    a.Finite? && (b.Finite? ==> a.time < b.time)
  }

  /** Shorter wait first, then higher throughput, then lower id. */
  predicate Less(a: Load, b: Load) {
    || WaitLess(a.expectedWaitTime, b.expectedWaitTime)
    || (a.expectedWaitTime == b.expectedWaitTime
        && (|| a.negativeThroughput < b.negativeThroughput
            || (a.negativeThroughput == b.negativeThroughput && a.aggregatorId < b.aggregatorId)))
  }

  ghost predicate Sorted(loads: seq<Load>) {
    forall i, j :: 0 <= i < j < |loads| ==> Less(loads[i], loads[j])
  }

  ghost predicate DistinctAggregators(loads: seq<Load>) {
    forall i, j :: 0 <= i < j < |loads| ==> loads[i].aggregatorId != loads[j].aggregatorId
  }

  /** Whether a saturating grant fits: enough is queued and the wait is short. */
  predicate Accepts(load: Load, pendingQueueSize: nat) {
    && load.negativeThroughput <= 0.0
    && pendingQueueSize >= GrantSize(load)
    && WaitLess(load.expectedWaitTime, Finite(MAX_WAIT_TIME))
  }

  /** Number of proofs that saturates the aggregator. */
  function GrantSize(load: Load): nat
    requires load.negativeThroughput <= 0.0
  {
    (-load.negativeThroughput).Floor * 2
  }

  /** An aggregator that accepts a grant of `total` proofs stays below this backlog. */
  function BacklogLimit(load: Load): real
    requires load.negativeThroughput <= 0.0
  {
    4.0 * -load.negativeThroughput + (GrantSize(load) + NextPowerOfTwo(GrantSize(load))) as real
  }

  lemma BacklogStaysBelow<P>(id: nat, s: Aggregator<P>, pendingQueueSize: nat, total: nat)
    requires s.throughput == 0.0 || s.throughput >= 1.0
    requires Accepts(LoadOf(id, s), pendingQueueSize)
    requires var n := GrantSize(LoadOf(id, s)); total < n + NextPowerOfTwo(n)
    ensures (s.pending + total) as real < BacklogLimit(LoadOf(id, s))
  {
    hide NextPowerOfTwo;
    ShortWait(s.pending as real, s.throughput);
  }

  lemma ShortWait(pending: real, throughput: real)
    requires throughput >= 1.0 && pending / (2.0 * throughput) < 2.0
    ensures pending < 4.0 * throughput
  {
    var w := 2.0 * throughput;
    assert pending == (pending / w) * w;
    assert (2.0 - pending / w) * w > 0.0;
  }

  /** Rust's `binary_search(..).unwrap_or_else(|x| x)`. Nothing is known about the position
      in a vector that is not sorted. */
  method BinarySearch(loads: seq<Load>, x: Load) returns (p: nat)
    ensures p <= |loads|
    ensures Sorted(loads) ==>
      (forall i :: 0 <= i < p ==> Less(loads[i], x)) && (forall i :: p <= i < |loads| ==> !Less(loads[i], x))
  {
    var lo, hi := 0, |loads|;
    while lo < hi
      invariant 0 <= lo <= hi <= |loads|
      invariant Sorted(loads) ==>
        (forall i :: 0 <= i < lo ==> Less(loads[i], x)) && (forall i :: hi <= i < |loads| ==> Less(x, loads[i]))
    {
      var mid := (lo + hi) / 2;
      if loads[mid] == x {
        return mid;
      } else if Less(loads[mid], x) {
        lo := mid + 1;
      } else {
        hi := mid;
      }
    }
    p := lo;
  }

  /** The vector after one load was replaced and rotated into the position found for it. */
  function Replaced(loads: seq<Load>, idx: nat, p: nat, x: Load): seq<Load>
    requires idx < |loads| && p <= |loads|
  {
    if p > idx then loads[..idx] + loads[idx + 1..p] + [x] + loads[p..]
    else loads[idx := x]
  }

  /** The load at `idx` is brought up to date. The vector remains a permutation, and it
      remains sorted exactly if the new load does not undercut its left neighbour, which a
      load that did not fall never does. */
  method Reload(loads: seq<Load>, idx: nat, x: Load) returns (r: seq<Load>)
    requires idx < |loads| && DistinctAggregators(loads) && x.aggregatorId == loads[idx].aggregatorId
    ensures multiset(r) == multiset(loads[idx := x])
    ensures DistinctAggregators(r)
    ensures Sorted(loads) ==> (Sorted(r) <==> idx == 0 || Less(loads[idx - 1], x))
    ensures Sorted(loads) && !Less(x, loads[idx]) ==> Sorted(r)
  {
    var newIndex := BinarySearch(loads, x);
    r := loads[idx := x];
    if newIndex > idx {
      r := r[..idx] + r[idx + 1..newIndex] + [r[idx]] + r[newIndex..];
    }
    assert r == Replaced(loads, idx, newIndex, x);
    ReplacedIsPermutation(loads, idx, newIndex, x);
    ReplacedIsDistinct(loads, idx, newIndex, x);
    if Sorted(loads) {
      ReplacedIsSorted(loads, idx, newIndex, x);
    }
  }

  lemma ReplacedIsPermutation(loads: seq<Load>, idx: nat, p: nat, x: Load)
    requires idx < |loads| && p <= |loads|
    ensures multiset(Replaced(loads, idx, p, x)) == multiset(loads[idx := x])
  {
    if p > idx {
      assert loads[idx := x] == loads[..idx] + [x] + loads[idx + 1..p] + loads[p..];
    }
  }

  lemma ReplacedIsDistinct(loads: seq<Load>, idx: nat, p: nat, x: Load)
    requires idx < |loads| && p <= |loads|
    requires DistinctAggregators(loads) && x.aggregatorId == loads[idx].aggregatorId
    ensures DistinctAggregators(Replaced(loads, idx, p, x))
  {
  }

  lemma ReplacedIsSorted(loads: seq<Load>, idx: nat, p: nat, x: Load)
    requires idx < |loads| && p <= |loads| && Sorted(loads)
    requires DistinctAggregators(loads) && x.aggregatorId == loads[idx].aggregatorId
    requires forall i :: 0 <= i < p ==> Less(loads[i], x)
    requires forall i :: p <= i < |loads| ==> !Less(loads[i], x)
    ensures Sorted(Replaced(loads, idx, p, x)) <==> idx == 0 || Less(loads[idx - 1], x)
    ensures !Less(x, loads[idx]) ==> Sorted(Replaced(loads, idx, p, x))
  {
    var r := Replaced(loads, idx, p, x);
    if p > idx {
      assert forall i :: 0 <= i < |r| ==>
        r[i] == if i < idx then loads[i] else if i < p - 1 then loads[i + 1] else if i == p - 1 then x else loads[i];
    } else if idx > 0 {
      assert Less(r[idx - 1], r[idx]) <==> Less(loads[idx - 1], x);
    }
  }

  /** The vector lists every sub-aggregator once, with its present load. */
  ghost predicate Accurate<P>(loads: seq<Load>, subs: map<nat, Aggregator<P>>) {
    && DistinctAggregators(loads)
    && (forall l :: l in loads ==> l.aggregatorId in subs && l == LoadOf(l.aggregatorId, subs[l.aggregatorId]))
    && (forall a :: a in subs ==> LoadOf(a, subs[a]) in loads)
  }

  /** Insertion of a load whose aggregator is not listed yet. */
  method Insert(loads: seq<Load>, x: Load) returns (r: seq<Load>)
    requires Sorted(loads) && DistinctAggregators(loads)
    requires forall l :: l in loads ==> l.aggregatorId != x.aggregatorId
    ensures Sorted(r) && DistinctAggregators(r)
    ensures forall l :: l in r <==> l in loads || l == x
  {
    var p := BinarySearch(loads, x);
    r := loads[..p] + [x] + loads[p..];
    assert forall l :: l in loads <==> l in loads[..p] || l in loads[p..] by {
      assert loads == loads[..p] + loads[p..];
    }
    InsertedIsSorted(loads, p, x, r);
  }

  lemma InsertedIsSorted(loads: seq<Load>, p: nat, x: Load, r: seq<Load>)
    requires p <= |loads| && r == loads[..p] + [x] + loads[p..]
    requires Sorted(loads) && DistinctAggregators(loads)
    requires forall l :: l in loads ==> l.aggregatorId != x.aggregatorId
    requires forall i :: 0 <= i < p ==> Less(loads[i], x)
    requires forall i :: p <= i < |loads| ==> !Less(loads[i], x)
    ensures Sorted(r) && DistinctAggregators(r)
  {
    hide Less;
    assert forall i :: 0 <= i < |r| ==> r[i] == if i < p then loads[i] else if i == p then x else loads[i - 1];
    forall i | 0 <= i < |loads| ensures loads[i].aggregatorId != x.aggregatorId && (i >= p ==> Less(x, loads[i])) {
      assert loads[i] in loads;
      LessIsTotal(loads[i], x);
    }
  }

  lemma LessIsTotal(a: Load, b: Load)
    requires a.aggregatorId != b.aggregatorId
    ensures Less(a, b) || Less(b, a)
  {
  }

  method SortedLoads<P>(subs: map<nat, Aggregator<P>>) returns (loads: seq<Load>)
    ensures Accurate(loads, subs) && Sorted(loads)
  {
    loads := [];
    var remaining := subs.Keys;
    while remaining != {}
      invariant remaining <= subs.Keys && Sorted(loads) && DistinctAggregators(loads)
      invariant forall l :: l in loads ==>
        && l.aggregatorId in subs && l.aggregatorId !in remaining
        && l == LoadOf(l.aggregatorId, subs[l.aggregatorId])
      invariant forall a :: a in subs && a !in remaining ==> LoadOf(a, subs[a]) in loads
      decreases remaining
    {
      var a :| a in remaining;
      remaining := remaining - {a};
      loads := Insert(loads, LoadOf(a, subs[a]));
    }
  }

  lemma ReloadIsAccurate<P>(loads: seq<Load>, subs: map<nat, Aggregator<P>>, idx: nat, s: Aggregator<P>, r: seq<Load>)
    requires Accurate(loads, subs) && idx < |loads|
    requires var a := loads[idx].aggregatorId; multiset(r) == multiset(loads[idx := LoadOf(a, s)])
    requires DistinctAggregators(r)
    ensures Accurate(r, subs[loads[idx].aggregatorId := s])
  {
    var a := loads[idx].aggregatorId;
    var x := LoadOf(a, s);
    var updated := loads[idx := x];
    assert forall l :: l in r <==> l in updated by {
      assert forall l :: l in r <==> l in multiset(r);
      assert forall l :: l in updated <==> l in multiset(updated);
    }
    assert updated[idx] == x;
    forall b | b in subs && b != a ensures LoadOf(b, subs[b]) in updated {
      var i :| 0 <= i < |loads| && loads[i] == LoadOf(b, subs[b]);
      assert updated[i] == loads[i];
    }
    forall l | l in updated && l != x ensures l in loads && l.aggregatorId != a {
      var i :| 0 <= i < |updated| && updated[i] == l;
      assert loads[i] == l;
    }
  }

  // ---------------------------------------------------------------- handing out work

  /** What is owed after the batches were pushed under their ids. */
  ghost function Holding<P>(owed: map<nat, seq<P>>, sent: seq<Batch<P>>): map<nat, seq<P>> {
    if sent == [] then owed
    else Holding(owed, sent[..|sent| - 1])[sent[|sent| - 1].id := sent[|sent| - 1].proofs]
  }

  /** The batches were given to the aggregator, under new ids, and nobody asked it for more. */
  ghost predicate Given<P>(s: Aggregator<P>, sent: seq<Batch<P>>, s': Aggregator<P>) {
    && s'.owed == Holding(s.owed, sent) && s.ready <= s'.ready && s.nextId <= s'.nextId
    && (forall b :: b in sent ==> IsBatch(b.proofs) && s.nextId <= b.id < s'.nextId)
    && (forall i, j :: 0 <= i < j < |sent| ==> sent[i].id < sent[j].id)
    && SameKind(s, s') && s'.steps == s.steps
    && (s.prompt ==>
          && s'.ready == s.ready
          && s'.pending == s.pending + |Flatten(sent)| && s'.left == s.left + |Flatten(sent)|)
  }

  /** Sub-aggregator `a` was given the batches and asked `syncs` times to synchronise; nothing
      happened to the others. */
  ghost predicate Loaded<P>(subs: map<nat, Aggregator<P>>, a: nat, sent: seq<Batch<P>>, syncs: nat,
      subs': map<nat, Aggregator<P>>) {
    && a in subs && a in subs' && subs' == subs[a := subs'[a]]
    && Given(subs[a], sent, subs'[a]) && subs'[a].syncs == subs[a].syncs + syncs
  }

  lemma GivenNothing<P>(s: Aggregator<P>)
    ensures Given(s, [], s)
  {
  }

  lemma GivenMore<P>(s: Aggregator<P>, sent: seq<Batch<P>>, s': Aggregator<P>, b: Batch<P>, s'': Aggregator<P>)
    requires Given(s, sent, s') && Pushed(s', b.proofs, b.id, s'') && IsBatch(b.proofs)
    ensures Given(s, sent + [b], s'')
    ensures |Flatten(sent + [b])| == |Flatten(sent)| + |b.proofs|
  {
    hide IsBatch, Holding, Flatten, QueueTotal;
    QueueTotalBack(sent, b);
    HoldingMore(s.owed, sent, b);
    GivenIds(sent, b, s.nextId, s'.nextId, s''.nextId);
  }

  lemma HoldingMore<P>(owed: map<nat, seq<P>>, sent: seq<Batch<P>>, b: Batch<P>)
    ensures Holding(owed, sent + [b]) == Holding(owed, sent)[b.id := b.proofs]
  {
    assert (sent + [b])[..|sent|] == sent;
  }

  lemma GivenIds<P>(sent: seq<Batch<P>>, b: Batch<P>, low: nat, middle: nat, high: nat)
    requires forall x :: x in sent ==> IsBatch(x.proofs) && low <= x.id < middle
    requires forall i, j :: 0 <= i < j < |sent| ==> sent[i].id < sent[j].id
    requires IsBatch(b.proofs) && low <= middle <= b.id < high
    ensures forall x :: x in sent + [b] ==> IsBatch(x.proofs) && low <= x.id < high
    ensures forall i, j :: 0 <= i < j < |sent + [b]| ==> (sent + [b])[i].id < (sent + [b])[j].id
  {
    hide IsBatch;
    assert forall i :: 0 <= i < |sent| ==> sent[i] in sent;
  }

  lemma GivenSynced<P>(s: Aggregator<P>, sent: seq<Batch<P>>, s': Aggregator<P>, s'': Aggregator<P>)
    requires Given(s, sent, s') && Synced(s', s'')
    ensures Given(s, sent, s'') && s''.syncs == s'.syncs + 1
  {
  }

  ghost predicate NobodyAccepts<P>(subs: map<nat, Aggregator<P>>, pending: nat) {
    forall a :: a in subs ==> !Accepts(LoadOf(a, subs[a]), pending)
  }

  /** Of all that accept, `a` has the least load. */
  ghost predicate LeastLoaded<P>(subs: map<nat, Aggregator<P>>, a: nat, pending: nat) {
    && a in subs && Accepts(LoadOf(a, subs[a]), pending)
    && forall b :: b in subs && b != a && Accepts(LoadOf(b, subs[b]), pending) ==>
         Less(LoadOf(a, subs[a]), LoadOf(b, subs[b]))
  }

  /** With `queue` to hand out, the first of it went to one of `subs` in these batches. */
  datatype Handout<P> = Handout(subs: map<nat, Aggregator<P>>, queue: seq<P>, aggregatorId: nat, sent: seq<Batch<P>>)

  /** A handout goes to an aggregator that accepts, in batches that saturate it, and then it
      synchronises. */
  ghost predicate Handed<P>(h: Handout<P>, subs': map<nat, Aggregator<P>>, queue': seq<P>) {
    && h.aggregatorId in h.subs && Accepts(LoadOf(h.aggregatorId, h.subs[h.aggregatorId]), |h.queue|)
    && Flatten(h.sent) + queue' == h.queue
    && (var n := GrantSize(LoadOf(h.aggregatorId, h.subs[h.aggregatorId]));
        0 < n <= |Flatten(h.sent)| < n + NextPowerOfTwo(n))
    && Loaded(h.subs, h.aggregatorId, h.sent, 1, subs')
  }

  /** The handouts lead from `subs` with `queue` to hand out to `subs'` with `queue'`. The first
      one, and all of them among prompt aggregators, go to the least loaded that accepts. */
  ghost predicate Distribution<P>(subs: map<nat, Aggregator<P>>, queue: seq<P>, handouts: seq<Handout<P>>,
      subs': map<nat, Aggregator<P>>, queue': seq<P>) {
    if handouts == [] then subs' == subs && queue' == queue
    else
      var h := handouts[|handouts| - 1];
      && Distribution(subs, queue, handouts[..|handouts| - 1], h.subs, h.queue)
      && Handed(h, subs', queue')
      && (|handouts| == 1 || AllPrompt(subs) ==> LeastLoaded(h.subs, h.aggregatorId, |h.queue|))
  }

  ghost predicate AllSynced<P>(subs: map<nat, Aggregator<P>>, subs': map<nat, Aggregator<P>>) {
    subs'.Keys == subs.Keys && forall a :: a in subs ==> Synced(subs[a], subs'[a])
  }

  /** What `step` does first: everybody synchronises, and work is handed out until the queue is
      empty or nobody accepts. */
  datatype Trace<P> = Trace(synced: map<nat, Aggregator<P>>, handouts: seq<Handout<P>>,
      loaded: map<nat, Aggregator<P>>, queue: seq<P>)

  ghost predicate Distributed<P>(subs: map<nat, Aggregator<P>>, queue: seq<P>, t: Trace<P>) {
    && AllSynced(subs, t.synced)
    && Distribution(t.synced, queue, t.handouts, t.loaded, t.queue)
    && (t.queue == [] || NobodyAccepts(t.loaded, |t.queue|))
  }

  /** The first load of a sorted vector that accepts is the least. */
  lemma FirstIsLeast<P>(subs: map<nat, Aggregator<P>>, loads: seq<Load>, idx: nat, pending: nat)
    requires Accurate(loads, subs) && Sorted(loads) && idx < |loads| && Accepts(loads[idx], pending)
    requires forall i :: 0 <= i < idx ==> !Accepts(loads[i], pending)
    ensures LeastLoaded(subs, loads[idx].aggregatorId, pending)
  {
    hide Accepts, Less, LoadOf;
    var a := loads[idx].aggregatorId;
    assert loads[idx] in loads;
    forall b | b in subs && b != a && Accepts(LoadOf(b, subs[b]), pending)
      ensures Less(LoadOf(a, subs[a]), LoadOf(b, subs[b]))
    {
      var i :| 0 <= i < |loads| && loads[i] == LoadOf(b, subs[b]);
      assert i > idx;
    }
  }

  lemma HandedCounts<P>(h: Handout<P>, subs': map<nat, Aggregator<P>>, queue': seq<P>)
    requires Handed(h, subs', queue')
    ensures |Flatten(h.sent)| > 0 && |queue'| == |h.queue| - |Flatten(h.sent)|
  {
    hide Flatten, Accepts, LoadOf, GrantSize, NextPowerOfTwo, Loaded;
  }

  lemma NothingHandedOut<P>(subs: map<nat, Aggregator<P>>, queue: seq<P>)
    ensures Distribution(subs, queue, [], subs, queue)
  {
  }

  lemma OneMoreHandout<P>(subs: map<nat, Aggregator<P>>, queue: seq<P>, handouts: seq<Handout<P>>, h: Handout<P>,
      subs': map<nat, Aggregator<P>>, queue': seq<P>)
    requires Distribution(subs, queue, handouts, h.subs, h.queue) && Handed(h, subs', queue')
    requires handouts == [] || AllPrompt(subs) ==> LeastLoaded(h.subs, h.aggregatorId, |h.queue|)
    ensures Distribution(subs, queue, handouts + [h], subs', queue')
  {
    hide LeastLoaded, Handed, AllPrompt;
    assert (handouts + [h])[..|handouts|] == handouts;
  }

  /** Somebody accepts exactly if something is handed out, and then the queue gets shorter. */
  lemma {:induction false} HandedOutIfAccepted<P>(subs: map<nat, Aggregator<P>>, queue: seq<P>,
      handouts: seq<Handout<P>>, subs': map<nat, Aggregator<P>>, queue': seq<P>)
    requires Distribution(subs, queue, handouts, subs', queue')
    ensures handouts != [] ==> |queue'| < |queue| && !NobodyAccepts(subs, |queue|)
    ensures handouts == [] ==> subs' == subs && queue' == queue
    ensures (queue' == [] || NobodyAccepts(subs', |queue'|)) && queue != [] && handouts == [] ==>
      NobodyAccepts(subs, |queue|)
  {
    hide LeastLoaded, Accepts, LoadOf, Loaded, AllPrompt, GrantSize, NextPowerOfTwo;
    if handouts != [] {
      var h := handouts[|handouts| - 1];
      HandedOutIfAccepted(subs, queue, handouts[..|handouts| - 1], h.subs, h.queue);
      assert |h.queue| == |Flatten(h.sent)| + |queue'|;
    }
  }

  /** A prompt aggregator that was given more does not get ahead of where it was. */
  lemma LoadNeverFalls<P>(id: nat, s: Aggregator<P>, s': Aggregator<P>)
    requires s'.throughput == s.throughput && s.pending <= s'.pending
    requires s.throughput == 0.0 || s.throughput >= 1.0
    ensures !Less(LoadOf(id, s'), LoadOf(id, s))
  {
    if s.throughput != 0.0 {
      LongerWait(s.pending as real, s'.pending as real, 2.0 * s.throughput);
    }
  }

  lemma LongerWait(a: real, b: real, t: real)
    requires a <= b && t > 0.0
    ensures a / t <= b / t
  {
  }

  /** Slow enough to take a batch of two. */
  ghost predicate Slow<P>(s: Aggregator<P>) {
    1.0 <= s.throughput < 2.0
  }

  /** A batch of two is taken by an idle aggregator exactly if it is slow enough, and by a busy
      one only if it is. */
  lemma TwoAreAccepted<P>(id: nat, s: Aggregator<P>)
    requires s.throughput == 0.0 || s.throughput >= 1.0
    ensures Accepts(LoadOf(id, s), 2) ==> Slow(s)
    ensures s.pending == 0 ==> (Accepts(LoadOf(id, s), 2) <==> Slow(s))
  {
    assert s.throughput >= 1.0 ==> 0.0 / (2.0 * s.throughput) == 0.0;
  }

  /** Who accepts: with a throughput t of at least one, twice its integral part must be queued,
      and fewer than 4 t proofs may be pending already. */
  lemma AcceptsMeans<P>(id: nat, s: Aggregator<P>, pending: nat)
    requires s.throughput == 0.0 || s.throughput >= 1.0
    ensures Accepts(LoadOf(id, s), pending) <==>
      && s.throughput >= 1.0 && pending >= 2 * s.throughput.Floor
      && s.pending as real < 4.0 * s.throughput
    ensures GrantSize(LoadOf(id, s)) == 2 * s.throughput.Floor
  {
    if s.throughput >= 1.0 {
      Quotient(s.pending as real, 2.0 * s.throughput);
    }
  }

  lemma Quotient(a: real, t: real)
    requires t > 0.0
    ensures a / t < 2.0 <==> a < 2.0 * t
  {
    var q := a / t;
    assert a == q * t;
    assert 2.0 * t - a == (2.0 - q) * t;
  }

  /** Whose load is less: who has to wait for a shorter time, then who has the higher
      throughput, then who has the lower id. Nobody waits longer than who does nothing. */
  lemma LessMeans<P>(a: nat, s: Aggregator<P>, b: nat, t: Aggregator<P>)
    requires s.throughput == 0.0 || s.throughput >= 1.0
    requires t.throughput == 0.0 || t.throughput >= 1.0
    ensures Less(LoadOf(a, s), LoadOf(b, t)) <==>
      if s.throughput == 0.0 then t.throughput == 0.0 && a < b
      else if t.throughput == 0.0 then true
      else
        var x, y := s.pending as real * t.throughput, t.pending as real * s.throughput;
        x < y || (x == y && (s.throughput > t.throughput || (s.throughput == t.throughput && a < b)))
  {
    if s.throughput >= 1.0 && t.throughput >= 1.0 {
      CrossMultiplied(s.pending as real, s.throughput, t.pending as real, t.throughput);
    }
  }

  lemma CrossMultiplied(p: real, s: real, q: real, t: real)
    requires s > 0.0 && t > 0.0
    ensures p / (2.0 * s) < q / (2.0 * t) <==> p * t < q * s
    ensures p / (2.0 * s) == q / (2.0 * t) <==> p * t == q * s
  {
    var a, b := p / (2.0 * s), q / (2.0 * t);
    assert p == a * (2.0 * s) && q == b * (2.0 * t);
    var w := 2.0 * s * t;
    assert p * t == a * w && q * s == b * w;
    assert q * s - p * t == (b - a) * w;
    assert w > 0.0;
    Sign(b - a, w);
  }

  lemma Sign(d: real, w: real)
    requires w > 0.0
    ensures d > 0.0 <==> d * w > 0.0
    ensures d == 0.0 <==> d * w == 0.0
  {
  }
}
