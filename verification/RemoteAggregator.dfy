/** `ThreadedAggregator` and `TcpStreamAggregator`/`TcpAggregatorServer`: an aggregator driven
    from the other end of two first-in-first-out channels. The worker runs on its own: its
    loop is cut into the steps between which the caller may look at the channels. */
module RemoteAggregators {
  import opened MerkleRoot
  import opened AggregatorContract
  import opened AggregatorRuns
  import opened Wrappers

  datatype Request<P> = PushProofs(id: nat, proofs: seq<P>) | StepRequest | SyncRequest | Shutdown

  datatype Response<P> =
    | RecursiveProof(id: nat, proof: P)
    | PendingQueueSize(delta: nat, size: nat)
    | ProofThroughput(throughput: real)

  /** Where the worker stands in its loop, and the number of proofs it took in but has not
      reported yet. */
  datatype Phase = Idle | Draining(pushed: nat) | Reporting(pushed: nat) | Sizing(pushed: nat) | Stopped

  /** What the worker sees: both channels, the inner aggregator, the outer ids by inner id. */
  datatype Worker<P> = Worker(
    requests: seq<Request<P>>,
    responses: seq<Response<P>>,
    inner: Aggregator<P>,
    aliases: map<nat, nat>,
    phase: Phase)

  /** The oldest request is taken from its channel and forwarded. */
  ghost predicate Forwarded<P>(w: Worker<P>, w': Worker<P>) {
    && w.requests != []
    && w' == w.(requests := w.requests[1..], inner := w'.inner, aliases := w'.aliases, phase := w'.phase)
    && match w.requests[0]
       case PushProofs(id, proofs) =>
         w'.phase == Draining(|proofs|)
         && exists innerId :: Pushed(w.inner, proofs, innerId, w'.inner) && w'.aliases == w.aliases[innerId := id]
       case StepRequest => w'.phase == Draining(0) && Stepped(w.inner, w'.inner) && w'.aliases == w.aliases
       case SyncRequest => w'.phase == Draining(0) && Synced(w.inner, w'.inner) && w'.aliases == w.aliases
       case Shutdown => w'.phase == Stopped && w'.inner == w.inner && w'.aliases == w.aliases
  }

  /** One step of the worker: it waits for a request and forwards it, sends back the finished
      proofs one by one, then its throughput, then what it took in and its queue size. */
  ghost predicate WorkerStep<P>(w: Worker<P>, w': Worker<P>) {
    match w.phase
    case Idle => if w.requests == [] then w' == w else Forwarded(w, w')
    case Draining(pushed) =>
      if w.inner.ready == [] then w' == w.(phase := Reporting(pushed))
      else
        var e := w.inner.ready[0];
        && e.id in w.aliases && Popped(w.inner, Some(e), w'.inner)
        && w' == w.(inner := w'.inner, aliases := w.aliases - {e.id},
                    responses := w.responses + [RecursiveProof(w.aliases[e.id], e.proof)])
    case Reporting(pushed) =>
      w' == w.(phase := Sizing(pushed), responses := w.responses + [ProofThroughput(w.inner.throughput)])
    case Sizing(pushed) =>
      w' == w.(phase := Idle, responses := w.responses + [PendingQueueSize(pushed, w.inner.pending)])
    case Stopped => w' == w
  }

  /** What the caller learns from one response. */
  datatype Caller<P> = Caller(innerSize: nat, outerSize: nat, throughput: real, ready: seq<Emitted<P>>)

  ghost predicate Learned<P>(c: Caller<P>, r: Response<P>, c': Caller<P>) {
    match r
    case PendingQueueSize(delta, size) =>
      delta <= c.outerSize && c' == c.(outerSize := c.outerSize - delta, innerSize := size)
    case ProofThroughput(throughput) => c' == c.(throughput := throughput)
    case RecursiveProof(id, proof) => c' == c.(ready := c.ready + [Emitted(id, proof)])
  }

  /** The caller has read these responses, one after the other. */
  ghost predicate Read<P>(c: Caller<P>, read: seq<Response<P>>, callers: seq<Caller<P>>) {
    && |callers| == |read| + 1 && callers[0] == c
    && forall i :: 0 <= i < |read| ==> Learned(callers[i], read[i], callers[i + 1])
  }

  function Unreported(phase: Phase): nat {
    if phase.Idle? || phase.Stopped? then 0 else phase.pushed
  }

  // ---------------------------------------------------------------- what the channels hold

  function PushedIds<P>(requests: seq<Request<P>>): multiset<nat> {
    if requests == [] then multiset{}
    else (if requests[0].PushProofs? then multiset{requests[0].id} else multiset{}) + PushedIds(requests[1..])
  }

  function PushedCount<P>(requests: seq<Request<P>>): nat {
    if requests == [] then 0
    else (if requests[0].PushProofs? then |requests[0].proofs| else 0) + PushedCount(requests[1..])
  }

  function ProvedIds<P>(responses: seq<Response<P>>): multiset<nat> {
    if responses == [] then multiset{}
    else (if responses[0].RecursiveProof? then multiset{responses[0].id} else multiset{}) + ProvedIds(responses[1..])
  }

  function Deltas<P>(responses: seq<Response<P>>): nat {
    if responses == [] then 0
    else (if responses[0].PendingQueueSize? then responses[0].delta else 0) + Deltas(responses[1..])
  }

  /** The queue size and throughput the caller holds after reading the whole channel. */
  function LatestSize<P>(responses: seq<Response<P>>, size: nat): nat {
    if responses == [] then size
    else LatestSize(responses[1..], if responses[0].PendingQueueSize? then responses[0].size else size)
  }

  function LatestThroughput<P>(responses: seq<Response<P>>, throughput: real): real {
    if responses == [] then throughput
    else LatestThroughput(responses[1..],
                          if responses[0].ProofThroughput? then responses[0].throughput else throughput)
  }

  function ReadyIds<P>(es: seq<Emitted<P>>): multiset<nat> {
    if es == [] then multiset{} else multiset{es[0].id} + ReadyIds(es[1..])
  }

  lemma {:induction false} RequestSent<P>(requests: seq<Request<P>>, r: Request<P>)
    ensures PushedIds(requests + [r]) == PushedIds(requests) + if r.PushProofs? then multiset{r.id} else multiset{}
    ensures PushedCount(requests + [r]) == PushedCount(requests) + if r.PushProofs? then |r.proofs| else 0
  {
    if requests == [] {
      assert (requests + [r])[1..] == [];
    } else {
      RequestSent(requests[1..], r);
      var head := if requests[0].PushProofs? then multiset{requests[0].id} else multiset{};
      assert (requests + [r])[1..] == requests[1..] + [r];
      assert PushedIds(requests + [r]) == head + PushedIds(requests[1..] + [r]);
    }
  }

  lemma {:induction false} ResponseSent<P>(responses: seq<Response<P>>, r: Response<P>)
    ensures ProvedIds(responses + [r])
         == ProvedIds(responses) + if r.RecursiveProof? then multiset{r.id} else multiset{}
  {
    if responses == [] {
      assert (responses + [r])[1..] == [];
    } else {
      ResponseSent(responses[1..], r);
      assert (responses + [r])[1..] == responses[1..] + [r];
    }
  }

  lemma {:induction false} DeltaSent<P>(responses: seq<Response<P>>, r: Response<P>)
    ensures Deltas(responses + [r]) == Deltas(responses) + if r.PendingQueueSize? then r.delta else 0
  {
    if responses == [] {
      assert (responses + [r])[1..] == [];
    } else {
      DeltaSent(responses[1..], r);
      assert (responses + [r])[1..] == responses[1..] + [r];
    }
  }

  lemma {:induction false} LatestSent<P>(responses: seq<Response<P>>, r: Response<P>, size: nat, throughput: real)
    ensures LatestSize(responses + [r], size) == if r.PendingQueueSize? then r.size else LatestSize(responses, size)
    ensures LatestThroughput(responses + [r], throughput)
         == if r.ProofThroughput? then r.throughput else LatestThroughput(responses, throughput)
  {
    if responses == [] {
      assert (responses + [r])[1..] == [];
    } else {
      var head := responses[0];
      LatestSent(responses[1..], r, if head.PendingQueueSize? then head.size else size,
                 if head.ProofThroughput? then head.throughput else throughput);
      assert (responses + [r])[1..] == responses[1..] + [r];
    }
  }

  lemma {:induction false} ReadyAppended<P>(es: seq<Emitted<P>>, e: Emitted<P>)
    ensures ReadyIds(es + [e]) == ReadyIds(es) + multiset{e.id}
  {
    if es == [] {
      assert (es + [e])[1..] == [];
    } else {
      ReadyAppended(es[1..], e);
      assert (es + [e])[1..] == es[1..] + [e];
    }
  }

  lemma {:induction false} ReadyIdOccurs<P>(es: seq<Emitted<P>>, i: nat)
    requires i < |es|
    ensures es[i].id in ReadyIds(es)
  {
    if i > 0 {
      ReadyIdOccurs(es[1..], i - 1);
    }
  }

  lemma {:induction false} ReadyIdIsReady<P>(es: seq<Emitted<P>>, id: nat)
    requires id in ReadyIds(es)
    ensures id in Ids(es)
  {
    if es[0].id != id {
      ReadyIdIsReady(es[1..], id);
    }
    IdsOfRest(es);
  }

  /** Waiting proofs that are counted once each have distinct ids. */
  lemma {:induction false} ReadyDistinct<P>(es: seq<Emitted<P>>, ids: set<nat>)
    requires ReadyIds(es) <= multiset(ids)
    ensures DistinctIds(es)
  {
    if es != [] {
      ReadyDistinct(es[1..], ids);
      forall j | 1 <= j < |es| ensures es[0].id != es[j].id {
        ReadyIdOccurs(es[1..], j - 1);
        assert ReadyIds(es)[es[0].id] <= 1;
      }
      assert forall i, j :: 1 <= i < j < |es| ==> es[i] == es[1..][i - 1] && es[j] == es[1..][j - 1];
    }
  }

  // ---------------------------------------------------------------- the invariant, part by part

  /** Requests carry the batches that are owed, responses and waiting proofs their roots. */
  ghost predicate Faithful<P>(combine: (P, P) -> P, owed: map<nat, seq<P>>, requests: seq<Request<P>>,
      responses: seq<Response<P>>)
  {
    && (forall id :: id in owed ==> IsBatch(owed[id]))
    && (forall r :: r in requests && r.PushProofs? ==> r.id in owed && owed[r.id] == r.proofs)
    && (forall r :: r in responses && r.RecursiveProof? ==> r.id in owed && r.proof == Root(combine, owed[r.id]))
    && (forall r :: r in responses && r.ProofThroughput? ==> r.throughput == 0.0 || r.throughput >= 1.0)
  }

  ghost predicate Injective(aliases: map<nat, nat>) {
    forall i, j :: i in aliases && j in aliases && aliases[i] == aliases[j] ==> i == j
  }

  /** The aliases name exactly the batches that the inner aggregator owes. */
  ghost predicate Aliased<P>(owed: map<nat, seq<P>>, aliases: map<nat, nat>, innerOwed: map<nat, seq<P>>) {
    && aliases.Keys == innerOwed.Keys
    && Injective(aliases)
    && (forall i :: i in aliases ==> aliases[i] in owed && owed[aliases[i]] == innerOwed[i])
  }

  /** Every owed batch is in exactly one place. */
  ghost predicate InOnePlace<P>(owed: map<nat, seq<P>>, requests: seq<Request<P>>, aliases: map<nat, nat>,
      responses: seq<Response<P>>, ready: seq<Emitted<P>>)
  {
    PushedIds(requests) + multiset(aliases.Values) + ProvedIds(responses) + ReadyIds(ready) == multiset(owed.Keys)
  }

  lemma AliasAdded(aliases: map<nat, nat>, i: nat, id: nat)
    requires i !in aliases && id !in aliases.Values && Injective(aliases)
    ensures Injective(aliases[i := id]) && multiset(aliases[i := id].Values) == multiset(aliases.Values) + multiset{id}
  {
    var more := aliases[i := id];
    assert more[i] == id;
    forall v | v in aliases.Values ensures v in more.Values {
      var k :| k in aliases && aliases[k] == v;
      assert more[k] == v;
    }
    assert more.Values == aliases.Values + {id};
  }

  lemma AliasRemoved(aliases: map<nat, nat>, i: nat)
    requires i in aliases && Injective(aliases)
    ensures Injective(aliases - {i})
    ensures multiset(aliases.Values) == multiset((aliases - {i}).Values) + multiset{aliases[i]}
  {
    var less := aliases - {i};
    forall v | v in aliases.Values && v != aliases[i] ensures v in less.Values {
      var k :| k in aliases && aliases[k] == v;
      assert less[k] == v;
    }
    assert less.Values == aliases.Values - {aliases[i]};
  }

  lemma {:induction false} PushedIdOccurs<P>(requests: seq<Request<P>>, r: Request<P>)
    requires r in requests && r.PushProofs?
    ensures r.id in PushedIds(requests)
  {
    if requests[0] != r {
      PushedIdOccurs(requests[1..], r);
    }
  }

  lemma {:induction false} ProvedIdOccurs<P>(responses: seq<Response<P>>, r: Response<P>)
    requires r in responses && r.RecursiveProof?
    ensures r.id in ProvedIds(responses)
  {
    if responses[0] != r {
      ProvedIdOccurs(responses[1..], r);
    }
  }

  /** An id that was counted twice would be owed twice. */
  lemma CountedOnce(a: multiset<nat>, b: multiset<nat>, c: multiset<nat>, d: multiset<nat>, ids: set<nat>, id: nat)
    requires a + b + c + d == multiset(ids)
    ensures id in a + b + c + d ==> id in ids
    ensures a[id] + b[id] + c[id] + d[id] <= 1
  {
    assert (a + b + c + d)[id] == multiset(ids)[id];
  }

  lemma KeyAdded(keys: set<nat>, id: nat)
    requires id !in keys
    ensures multiset(keys + {id}) == multiset(keys) + multiset{id}
  {
  }

  lemma MoveFirst(a: multiset<nat>, b: multiset<nat>, c: multiset<nat>, d: multiset<nat>, id: nat)
    ensures (a + multiset{id}) + b + c + d == (a + b + c + d) + multiset{id}
  {
  }

  // ---------------------------------------------------------------- pushing

  lemma PushFaithful<P>(combine: (P, P) -> P, owed: map<nat, seq<P>>, requests: seq<Request<P>>,
      responses: seq<Response<P>>, id: nat, proofs: seq<P>)
    requires Faithful(combine, owed, requests, responses) && id !in owed && IsBatch(proofs)
    ensures Faithful(combine, owed[id := proofs], requests + [PushProofs(id, proofs)], responses)
  {
    hide Root, IsPowerOfTwo;
  }

  lemma PushInOnePlace<P>(owed: map<nat, seq<P>>, requests: seq<Request<P>>, aliases: map<nat, nat>,
      responses: seq<Response<P>>, ready: seq<Emitted<P>>, id: nat, proofs: seq<P>)
    requires InOnePlace(owed, requests, aliases, responses, ready) && id !in owed
    ensures InOnePlace(owed[id := proofs], requests + [PushProofs(id, proofs)], aliases, responses, ready)
  {
    hide PushedIds, ProvedIds, ReadyIds;
    RequestSent(requests, PushProofs(id, proofs));
    assert owed[id := proofs].Keys == owed.Keys + {id};
    KeyAdded(owed.Keys, id);
    MoveFirst(PushedIds(requests), multiset(aliases.Values), ProvedIds(responses), ReadyIds(ready), id);
  }

  /** What a push does to the state that the caller sees. */
  lemma PushView<P>(combine: (P, P) -> P, s: Aggregator<P>, proofs: seq<P>, pending: nat)
    requires Valid(combine, s) && !s.prompt && IsBatch(proofs)
    ensures s.nextId !in s.owed
    ensures Valid(combine, s.(owed := s.owed[s.nextId := proofs], nextId := s.nextId + 1, pending := pending))
  {
    hide Root, IsPowerOfTwo;
  }

  lemma PushAliased<P>(owed: map<nat, seq<P>>, aliases: map<nat, nat>, innerOwed: map<nat, seq<P>>, id: nat,
      proofs: seq<P>)
    requires Aliased(owed, aliases, innerOwed) && id !in owed
    ensures Aliased(owed[id := proofs], aliases, innerOwed)
  {
  }

  // ---------------------------------------------------------------- the worker's steps

  /** Handing a request over to the inner aggregator moves its id to the aliases. */
  lemma AcceptInOnePlace<P>(owed: map<nat, seq<P>>, requests: seq<Request<P>>, aliases: map<nat, nat>,
      responses: seq<Response<P>>, ready: seq<Emitted<P>>, innerId: nat)
    requires InOnePlace(owed, requests, aliases, responses, ready) && Injective(aliases)
    requires requests != [] && requests[0].PushProofs? && innerId !in aliases
    ensures requests[0].id !in aliases.Values
    ensures InOnePlace(owed, requests[1..], aliases[innerId := requests[0].id], responses, ready)
  {
    hide ProvedIds, ReadyIds;
    var id := requests[0].id;
    CountedOnce(PushedIds(requests), multiset(aliases.Values), ProvedIds(responses), ReadyIds(ready), owed.Keys, id);
    assert multiset(aliases.Values)[id] == 0;
    AliasAdded(aliases, innerId, id);
  }

  lemma AcceptAliased<P>(owed: map<nat, seq<P>>, aliases: map<nat, nat>, innerOwed: map<nat, seq<P>>, innerId: nat,
      id: nat)
    requires Aliased(owed, aliases, innerOwed) && innerId !in aliases && id in owed && id !in aliases.Values
    ensures Aliased(owed, aliases[innerId := id], innerOwed[innerId := owed[id]])
  {
    AliasAdded(aliases, innerId, id);
  }

  /** Sending a root back moves its id from the aliases to the responses. */
  lemma ReplyInOnePlace<P>(owed: map<nat, seq<P>>, requests: seq<Request<P>>, aliases: map<nat, nat>,
      responses: seq<Response<P>>, ready: seq<Emitted<P>>, innerId: nat, proof: P)
    requires InOnePlace(owed, requests, aliases, responses, ready) && Injective(aliases) && innerId in aliases
    ensures InOnePlace(owed, requests, aliases - {innerId}, responses + [RecursiveProof(aliases[innerId], proof)],
        ready)
  {
    hide PushedIds, ProvedIds, ReadyIds;
    AliasRemoved(aliases, innerId);
    ResponseSent(responses, RecursiveProof(aliases[innerId], proof));
  }

  lemma ReplyAliased<P>(owed: map<nat, seq<P>>, aliases: map<nat, nat>, innerOwed: map<nat, seq<P>>, innerId: nat)
    requires Aliased(owed, aliases, innerOwed) && innerId in aliases
    ensures Aliased(owed, aliases - {innerId}, innerOwed - {innerId})
  {
    AliasRemoved(aliases, innerId);
  }

  lemma RespondFaithful<P>(combine: (P, P) -> P, owed: map<nat, seq<P>>, requests: seq<Request<P>>,
      responses: seq<Response<P>>, r: Response<P>)
    requires Faithful(combine, owed, requests, responses)
    requires r.RecursiveProof? ==> r.id in owed && IsBatch(owed[r.id]) && r.proof == Root(combine, owed[r.id])
    requires r.ProofThroughput? ==> r.throughput == 0.0 || r.throughput >= 1.0
    ensures Faithful(combine, owed, requests, responses + [r])
  {
    hide Root, IsPowerOfTwo;
  }

  lemma OwedBatches<P>(combine: (P, P) -> P, owed: map<nat, seq<P>>, requests: seq<Request<P>>,
      responses: seq<Response<P>>)
    requires Faithful(combine, owed, requests, responses)
    ensures forall id :: id in owed ==> IsBatch(owed[id])
  {
    hide Root, IsPowerOfTwo;
  }

  /** Messages that carry no batch leave every batch where it is. */
  lemma CommandInOnePlace<P>(owed: map<nat, seq<P>>, requests: seq<Request<P>>, aliases: map<nat, nat>,
      responses: seq<Response<P>>, ready: seq<Emitted<P>>, r: Request<P>)
    requires InOnePlace(owed, requests, aliases, responses, ready) && !r.PushProofs?
    ensures InOnePlace(owed, requests + [r], aliases, responses, ready)
  {
    hide PushedIds, ProvedIds, ReadyIds;
    RequestSent(requests, r);
    assert PushedIds(requests + [r]) == PushedIds(requests);
  }

  lemma ReportInOnePlace<P>(owed: map<nat, seq<P>>, requests: seq<Request<P>>, aliases: map<nat, nat>,
      responses: seq<Response<P>>, ready: seq<Emitted<P>>, r: Response<P>)
    requires InOnePlace(owed, requests, aliases, responses, ready) && !r.RecursiveProof?
    ensures InOnePlace(owed, requests, aliases, responses + [r], ready)
  {
    hide PushedIds, ProvedIds, ReadyIds;
    ResponseSent(responses, r);
    assert ProvedIds(responses + [r]) == ProvedIds(responses);
  }

  lemma ReadInOnePlace<P>(owed: map<nat, seq<P>>, requests: seq<Request<P>>, aliases: map<nat, nat>,
      responses: seq<Response<P>>, ready: seq<Emitted<P>>)
    requires InOnePlace(owed, requests, aliases, responses, ready)
    ensures requests != [] && !requests[0].PushProofs? ==> InOnePlace(owed, requests[1..], aliases, responses, ready)
    ensures responses != [] && !responses[0].RecursiveProof? ==> InOnePlace(owed, requests, aliases, responses[1..],
        ready)
  {
    hide ReadyIds;
    if requests != [] && !requests[0].PushProofs? {
      assert PushedIds(requests) == PushedIds(requests[1..]);
    }
    if responses != [] && !responses[0].RecursiveProof? {
      assert ProvedIds(responses) == ProvedIds(responses[1..]);
    }
  }

  lemma RestFaithful<P>(combine: (P, P) -> P, owed: map<nat, seq<P>>, requests: seq<Request<P>>,
      responses: seq<Response<P>>)
    requires Faithful(combine, owed, requests, responses)
    ensures requests != [] ==> Faithful(combine, owed, requests[1..], responses)
    ensures responses != [] ==> Faithful(combine, owed, requests, responses[1..])
    ensures forall r: Request<P> :: !r.PushProofs? ==> Faithful(combine, owed, requests + [r], responses)
  {
    hide Root, IsPowerOfTwo;
  }

  lemma NothingAdvanced<P>(s: Aggregator<P>)
    ensures Advanced(s, s)
  {
  }

  lemma AdvancedTwice<P>(a: Aggregator<P>, b: Aggregator<P>, c: Aggregator<P>)
    requires Advanced(a, b) && Advanced(b, c)
    ensures Advanced(a, c)
  {
  }

  // ---------------------------------------------------------------- receiving and popping

  /** Reading a root moves its id from the responses to the waiting proofs. */
  lemma ReceiveInOnePlace<P>(owed: map<nat, seq<P>>, requests: seq<Request<P>>, aliases: map<nat, nat>,
      responses: seq<Response<P>>, ready: seq<Emitted<P>>)
    requires InOnePlace(owed, requests, aliases, responses, ready)
    requires responses != [] && responses[0].RecursiveProof?
    ensures InOnePlace(owed, requests, aliases, responses[1..], ready + [Emitted(responses[0].id, responses[0].proof)])
  {
    hide PushedIds, ReadyIds;
    ReadyAppended(ready, Emitted(responses[0].id, responses[0].proof));
  }

  lemma ReceiveView<P>(combine: (P, P) -> P, s: Aggregator<P>, e: Emitted<P>, rest: multiset<nat>)
    requires Valid(combine, s) && !s.prompt
    requires e.id in s.owed && e.proof == Root(combine, s.owed[e.id])
    requires rest + ReadyIds(s.ready + [e]) == multiset(s.owed.Keys)
    ensures Valid(combine, s.(ready := s.ready + [e]))
  {
    hide Root, IsPowerOfTwo, ReadyIds;
    ReadyDistinct(s.ready + [e], s.owed.Keys);
  }

  /** A proof that is popped is nowhere else. */
  lemma PopInOnePlace<P>(owed: map<nat, seq<P>>, requests: seq<Request<P>>, aliases: map<nat, nat>,
      responses: seq<Response<P>>, ready: seq<Emitted<P>>)
    requires InOnePlace(owed, requests, aliases, responses, ready) && ready != []
    ensures InOnePlace(owed - {ready[0].id}, requests, aliases, responses, ready[1..])
    ensures ready[0].id !in PushedIds(requests) && ready[0].id !in aliases.Values
    ensures ready[0].id !in ProvedIds(responses)
  {
    hide PushedIds, ProvedIds;
    var id, a, b, c := ready[0].id, PushedIds(requests), multiset(aliases.Values), ProvedIds(responses);
    CountedOnce(a, b, c, ReadyIds(ready), owed.Keys, id);
    assert b[id] == 0;
    assert (owed - {id}).Keys == owed.Keys - {id};
    KeyAdded(owed.Keys - {id}, id);
    assert owed.Keys - {id} + {id} == owed.Keys;
    CancelLast(a + b + c, ReadyIds(ready[1..]), multiset(owed.Keys - {id}), id);
  }

  lemma CancelLast(a: multiset<nat>, d: multiset<nat>, all: multiset<nat>, id: nat)
    requires a + (multiset{id} + d) == all + multiset{id}
    ensures a + d == all
  {
    assert (a + d) + multiset{id} == a + (multiset{id} + d);
    assert (a + d) + multiset{id} - multiset{id} == a + d;
  }

  lemma PopFaithful<P>(combine: (P, P) -> P, owed: map<nat, seq<P>>, requests: seq<Request<P>>,
      responses: seq<Response<P>>, id: nat)
    requires Faithful(combine, owed, requests, responses)
    requires id !in PushedIds(requests) && id !in ProvedIds(responses)
    ensures Faithful(combine, owed - {id}, requests, responses)
  {
    hide Root, IsPowerOfTwo, PushedIds, ProvedIds;
    forall r | r in requests && r.PushProofs? ensures r.id != id {
      PushedIdOccurs(requests, r);
    }
    forall r | r in responses && r.RecursiveProof? ensures r.id != id {
      ProvedIdOccurs(responses, r);
    }
  }

  lemma PopAliased<P>(owed: map<nat, seq<P>>, aliases: map<nat, nat>, innerOwed: map<nat, seq<P>>, id: nat)
    requires Aliased(owed, aliases, innerOwed) && id !in aliases.Values
    ensures Aliased(owed - {id}, aliases, innerOwed)
  {
    forall i | i in aliases ensures aliases[i] != id {
      assert aliases[i] in aliases.Values;
    }
  }

  /** The numbers of calls play no part in what an aggregator promises. */
  lemma CallsDoNotMatter<P>(combine: (P, P) -> P, s: Aggregator<P>, steps: nat, syncs: nat)
    requires Valid(combine, s)
    ensures Valid(combine, s.(steps := steps, syncs := syncs))
  {
    hide Honest, Open;
  }

  lemma FirstRequest<P>(combine: (P, P) -> P, owed: map<nat, seq<P>>, requests: seq<Request<P>>,
      responses: seq<Response<P>>)
    requires Faithful(combine, owed, requests, responses) && requests != [] && requests[0].PushProofs?
    ensures var r := requests[0]; r.id in owed && owed[r.id] == r.proofs && IsBatch(r.proofs)
  {
    hide Root, IsPowerOfTwo;
    assert requests[0] in requests;
  }

  /** The inner aggregator's next id is no alias yet. */
  lemma AliasesAreOld<P>(combine: (P, P) -> P, owed: map<nat, seq<P>>, aliases: map<nat, nat>, inner: Aggregator<P>)
    requires Valid(combine, inner) && Aliased(owed, aliases, inner.owed)
    ensures forall i :: i in aliases ==> i < inner.nextId
  {
    hide Honest, Open, Injective;
  }

  lemma AliasedInjective<P>(owed: map<nat, seq<P>>, aliases: map<nat, nat>, innerOwed: map<nat, seq<P>>)
    requires Aliased(owed, aliases, innerOwed)
    ensures Injective(aliases)
  {
  }

  lemma SyncedAfter<P>(s: Aggregator<P>, s': Aggregator<P>, s'': Aggregator<P>)
    requires Advanced(s, s') && !s.prompt && s'.steps == s.steps && s'' == s'.(syncs := s.syncs + 1)
    ensures Synced(s, s'')
  {
  }

  lemma IdleRests<P>(w: Worker<P>, w': Worker<P>)
    requires WorkerStep(w, w')
    ensures w.requests == [] && w.phase.Idle? ==> w' == w
  {
  }

  lemma NothingRead<P>(c: Caller<P>)
    ensures Read(c, [], [c])
  {
  }

  lemma ReadNext<P>(c: Caller<P>, read: seq<Response<P>>, callers: seq<Caller<P>>, r: Response<P>, c': Caller<P>)
    requires Read(c, read, callers) && |callers| == |read| + 1 && Learned(callers[|read|], r, c')
    ensures Read(c, read + [r], callers + [c'])
  {
    hide Learned;
  }

  // ---------------------------------------------------------------- progress

  ghost predicate Running<P>(w: Worker<P>) {
    !w.phase.Stopped? && forall r :: r in w.requests ==> !r.Shutdown?
  }

  ghost predicate OnlyCommands<P>(requests: seq<Request<P>>) {
    forall r :: r in requests ==> r.StepRequest? || r.SyncRequest?
  }

  ghost predicate StepAhead<P>(w: Worker<P>) {
    w.requests != [] && w.requests[|w.requests| - 1].StepRequest?
  }

  /** The last request is a step, or the finished proofs were sent back since. */
  ghost predicate Drained<P>(w: Worker<P>) {
    StepAhead(w) || w.phase.Draining? || w.inner.ready == []
  }

  /** Without new batches the work only gets less, and with the last step taken it did, unless
      there was none. */
  ghost predicate Progressed<P>(w: Worker<P>, w': Worker<P>) {
    OnlyCommands(w.requests) ==>
      && OnlyCommands(w'.requests) && Weight(w'.inner) <= Weight(w.inner)
      && (StepAhead(w') || Weight(w'.inner) < Weight(w.inner) || Open(w'.inner.owed, w'.inner.ready) == {})
  }

  function Remaining(phase: Phase): nat {
    match phase
    case Draining(_) => 3
    case Reporting(_) => 2
    case Sizing(_) => 1
    case _ => 0
  }

  lemma RestRunning<P>(w: Worker<P>, w': Worker<P>)
    requires w.requests != [] && w'.requests == w.requests[1..] && w'.phase.Draining?
    ensures Running(w) ==> Running(w')
    ensures OnlyCommands(w.requests) ==> OnlyCommands(w'.requests)
    ensures StepAhead(w') ==> StepAhead(w)
    ensures StepAhead(w) && !StepAhead(w') ==> w.requests == [StepRequest]
  {
    if w'.requests != [] {
      assert w'.requests[|w'.requests| - 1] == w.requests[|w.requests| - 1];
    }
  }

  /** The worker comes to the end of its requests. */
  lemma WorkerEnds<P>(w: Worker<P>, w': Worker<P>)
    requires WorkerStep(w, w') && Running(w) && !(w.phase.Idle? && w.requests == [])
    ensures Running(w') && (Drained(w) ==> Drained(w')) && (w.inner.prompt ==> w'.inner.prompt)
    ensures |w'.requests| <= |w.requests|
    ensures |w'.requests| == |w.requests| ==>
      || Remaining(w'.phase) < Remaining(w.phase)
      || (w'.phase == w.phase && |w'.inner.ready| < |w.inner.ready|)
  {
    if w.phase.Idle? {
      assert w.requests[0] in w.requests;
      RestRunning(w, w');
    }
  }

  lemma WorkerProgresses<P>(combine: (P, P) -> P, w0: Worker<P>, w: Worker<P>, w': Worker<P>)
    requires WorkerStep(w, w') && Running(w) && w.inner.prompt && Valid(combine, w.inner)
    requires Progressed(w0, w)
    ensures Progressed(w0, w')
  {
    hide Honest, Valid;
    if OnlyCommands(w0.requests) {
      if w.phase.Idle? && w.requests != [] {
        assert w.requests[0] in w.requests;
        RestRunning(w, w');
        SteppedProgress(combine, w.inner, w'.inner);
      }
    }
  }

  /** A step of a prompt aggregator makes the work less, or there was none to do. */
  lemma SteppedProgress<P>(combine: (P, P) -> P, s: Aggregator<P>, s': Aggregator<P>)
    requires Valid(combine, s) && s.prompt
    ensures Stepped(s, s') ==> Weight(s') < Weight(s) || Open(s'.owed, s'.ready) == {}
    ensures Synced(s, s') ==> Weight(s') == Weight(s) && Open(s'.owed, s'.ready) == Open(s.owed, s.ready)
  {
    hide Honest;
    if Stepped(s, s') && s.pending == 0 {
      assert Open(s.owed, s.ready) == {};
      IdsGrow(s.ready, s'.ready);
      forall id | id in s'.owed ensures id in Ids(s'.ready) {
        assert id !in Open(s.owed, s.ready);
      }
    }
  }

  lemma IdsGrow<P>(es: seq<Emitted<P>>, es': seq<Emitted<P>>)
    requires es <= es'
    ensures Ids(es) <= Ids(es')
  {
    forall id | id in Ids(es) ensures id in Ids(es') {
      var i :| 0 <= i < |es| && es[i].id == id;
      assert es'[i].id == id;
    }
  }

  lemma NothingOpenIsNothing<P>(s: Aggregator<P>)
    requires Open(s.owed, s.ready) == {} && s.ready == []
    ensures s.owed == map[]
  {
    assert forall id :: id in s.owed ==> id in Open(s.owed, s.ready);
  }

  /** What neither the inner aggregator nor a channel holds is there to be popped. */
  lemma OwedIsReady<P>(owed: map<nat, seq<P>>, requests: seq<Request<P>>, aliases: map<nat, nat>,
      innerOwed: map<nat, seq<P>>, ready: seq<Emitted<P>>)
    requires InOnePlace(owed, requests, aliases, [], ready) && Aliased(owed, aliases, innerOwed)
    requires requests == [SyncRequest] && innerOwed == map[] && owed != map[]
    ensures ready != []
  {
    var id :| id in owed;
    assert aliases.Values == {};
    assert multiset(owed.Keys)[id] == 1;
    assert PushedIds(requests) == multiset{};
  }

  lemma RunStarts<P>(w: Worker<P>)
    ensures StepAhead(w) ==> Drained(w) && Progressed(w, w)
  {
  }

  lemma RunEnds<P>(w0: Worker<P>, w: Worker<P>)
    requires w.requests == [] && w.phase.Idle? && StepAhead(w0) ==> Drained(w)
    ensures w.requests == [] && w.phase.Idle? && StepAhead(w0) ==> w.inner.ready == []
    ensures w.requests == [] && w.phase.Idle? && StepAhead(w0) && Progressed(w0, w) && OnlyCommands(w0.requests) ==>
      && Weight(w.inner) <= Weight(w0.inner)
      && (Weight(w.inner) < Weight(w0.inner) || w.inner.owed == map[])
  {
    hide Weight;
    if w.inner.ready == [] && Open(w.inner.owed, w.inner.ready) == {} {
      NothingOpenIsNothing(w.inner);
    }
  }

  class RemoteAggregator<P(!new)> {
    const combine: (P, P) -> P

    // the caller's side
    var freeBatchIds: nat
    var innerPendingQueueSize: nat
    var outerPendingQueueSize: nat
    var proofThroughput: real
    var recursiveProofs: seq<Emitted<P>>

    // the channels
    var requests: seq<Request<P>>
    var responses: seq<Response<P>>

    // the worker's side
    var inner: Aggregator<P>
    var batchAliases: map<nat, nat>
    var phase: Phase

    /** Batches pushed and not popped yet. */
    ghost var owed: map<nat, seq<P>>
    /** The worker finished a round of its loop. */
    ghost var reported: bool
    /** How often the caller asked for a step and to synchronise. */
    ghost var steps: nat
    ghost var syncs: nat

    ghost function WorkerState(): Worker<P>
      reads this`requests, this`responses, this`inner, this`batchAliases, this`phase
    {
      Worker(requests, responses, inner, batchAliases, phase)
    }

    ghost function CallerState(): Caller<P>
      reads this`innerPendingQueueSize, this`outerPendingQueueSize, this`proofThroughput, this`recursiveProofs
    {
      Caller(innerPendingQueueSize, outerPendingQueueSize, proofThroughput, recursiveProofs)
    }

    ghost function View(): Aggregator<P>
      reads this
    {
      Aggregator(owed, recursiveProofs, freeBatchIds, innerPendingQueueSize + outerPendingQueueSize,
                 proofThroughput, 0, false, steps, syncs)
    }

    /** The speculative queue size: what is on its way to the worker, and what the worker took
        in without the caller having read so. */
    ghost predicate Counted()
      reads this`outerPendingQueueSize, this`requests, this`phase, this`responses
    {
      outerPendingQueueSize == PushedCount(requests) + Unreported(phase) + Deltas(responses)
    }

    /** Once the worker has reported, the channel ends with its present load. */
    ghost predicate UpToDate()
      reads this`reported, this`phase, this`responses, this`inner, this`innerPendingQueueSize, this`proofThroughput
    {
      && (reported && (phase.Idle? || phase.Stopped?) ==>
            && LatestSize(responses, innerPendingQueueSize) == inner.pending
            && LatestThroughput(responses, proofThroughput) == inner.throughput)
      && (phase.Sizing? ==> LatestThroughput(responses, proofThroughput) == inner.throughput)
    }

    ghost predicate Valid()
      reads this
    {
      && AggregatorContract.Valid(combine, inner)
      && AggregatorContract.Valid(combine, View())
      && Faithful(combine, owed, requests, responses)
      && Aliased(owed, batchAliases, inner.owed)
      && InOnePlace(owed, requests, batchAliases, responses, recursiveProofs)
      && Counted()
      && UpToDate()
    }

    /** A new connection to an aggregator with nothing in flight. */
    constructor (combine: (P, P) -> P, inner: Aggregator<P>)
      requires AggregatorContract.Valid(combine, inner) && inner.owed == map[]
      ensures Valid() && this.combine == combine && WorkerState() == Worker([], [], inner, map[], Idle)
      ensures View() == Aggregator(map[], [], 0, 0, 1.0, 0, false, 0, 0)
    {
      this.combine, this.inner := combine, inner;
      freeBatchIds, innerPendingQueueSize, outerPendingQueueSize := 0, 0, 0;
      proofThroughput, recursiveProofs := 1.0, [];
      requests, responses := [], [];
      batchAliases, phase := map[], Idle;
      owed, reported, steps, syncs := map[], false, 0, 0;
    }

    lemma ViewIsValid()
      requires Valid()
      ensures AggregatorContract.Valid(combine, View())
    {
    }

    // -------------------------------------------------------------- the caller

    method PushInternalProofs(proofs: seq<P>) returns (batchId: nat)
      requires Valid() && IsBatch(proofs)
      modifies this`freeBatchIds, this`outerPendingQueueSize, this`requests, this`owed
      ensures Valid() && Pushed(old(View()), proofs, batchId, View())
      ensures View().pending == old(View()).pending + |proofs|
      ensures requests == old(requests) + [PushProofs(batchId, proofs)]
      ensures batchId !in old(owed) && owed == old(owed)[batchId := proofs]
    {
      hide Faithful, Aliased, InOnePlace, PushedIds, PushedCount, ProvedIds, ReadyIds, Deltas,
        AggregatorContract.Valid, IsBatch;
      PushView(combine, View(), proofs, View().pending + |proofs|);
      batchId := freeBatchIds;
      PushFaithful(combine, owed, requests, responses, batchId, proofs);
      PushAliased(owed, batchAliases, inner.owed, batchId, proofs);
      PushInOnePlace(owed, requests, batchAliases, responses, recursiveProofs, batchId, proofs);
      RequestSent(requests, PushProofs(batchId, proofs));
      outerPendingQueueSize := outerPendingQueueSize + |proofs|;
      freeBatchIds := freeBatchIds + 1;
      requests := requests + [PushProofs(batchId, proofs)];
      owed := owed[batchId := proofs];
    }

    /** A request without a batch. */
    method Command(r: Request<P>)
      requires Valid() && !r.PushProofs?
      modifies this`requests
      ensures Valid() && requests == old(requests) + [r] && View() == old(View())
    {
      hide Faithful, Aliased, InOnePlace, PushedIds, PushedCount, ProvedIds, ReadyIds, Deltas,
        AggregatorContract.Valid;
      RequestSent(requests, r);
      CommandInOnePlace(owed, requests, batchAliases, responses, recursiveProofs, r);
      RestFaithful(combine, owed, requests, responses);
      requests := requests + [r];
    }

    method Step()
      requires Valid()
      modifies this`requests, this`steps
      ensures Valid() && requests == old(requests) + [StepRequest]
      ensures Stepped(old(View()), View()) && View() == old(View()).(steps := old(steps) + 1)
    {
      hide Faithful, Aliased, InOnePlace, Counted, UpToDate, AggregatorContract.Valid;
      Command(StepRequest);
      CallsDoNotMatter(combine, View(), steps + 1, syncs);
      steps := steps + 1;
    }

    /** The caller reads one response. */
    method Receive()
      requires Valid() && responses != []
      modifies this`responses, this`outerPendingQueueSize, this`innerPendingQueueSize, this`proofThroughput,
          this`recursiveProofs
      ensures Valid() && Advanced(old(View()), View()) && responses == old(responses[1..])
      ensures Learned(old(CallerState()), old(responses[0]), CallerState())
    {
      hide Aliased, PushedIds, PushedCount, ReadyIds, IsBatch, Root, Honest;
      ReadInOnePlace(owed, requests, batchAliases, responses, recursiveProofs);
      RestFaithful(combine, owed, requests, responses);
      var response := responses[0];
      assert response in responses;
      if response.RecursiveProof? {
        hide Faithful, InOnePlace;
      }
      match response
      case PendingQueueSize(delta, size) =>
        outerPendingQueueSize := outerPendingQueueSize - delta;
        innerPendingQueueSize := size;
        responses := responses[1..];
      case ProofThroughput(throughput) =>
        proofThroughput := throughput;
        responses := responses[1..];
      case RecursiveProof(id, proof) =>
        ReceiveProof();
    }

    method ReceiveProof()
      requires Valid() && responses != [] && responses[0].RecursiveProof?
      modifies this`responses, this`recursiveProofs
      ensures Valid() && Advanced(old(View()), View()) && responses == old(responses[1..])
      ensures Learned(old(CallerState()), old(responses[0]), CallerState())
    {
      hide Aliased, PushedIds, PushedCount, ProvedIds, ReadyIds, IsBatch, Root, AggregatorContract.Valid;
      var e := Emitted(responses[0].id, responses[0].proof);
      assert responses[0] in responses;
      RestFaithful(combine, owed, requests, responses);
      ReceiveInOnePlace(owed, requests, batchAliases, responses, recursiveProofs);
      ReceiveView(combine, View(), e, PushedIds(requests) + multiset(batchAliases.Values) + ProvedIds(responses[1..]));
      recursiveProofs := recursiveProofs + [e];
      responses := responses[1..];
    }

    /** `sync`: reads responses while the worker keeps running, until none is there or, with a
        socket, the stream would block because it lets no more than `limit` through; then asks
        the worker to synchronise. */
    method Sync(limit: Option<nat>) returns (ghost read: seq<Response<P>>, ghost callers: seq<Caller<P>>)
      requires Valid()
      modifies this
      ensures Valid() && Synced(old(View()), View())
      ensures limit.Some? ==> |read| <= limit.value
      ensures limit.None? || |read| < limit.value ==> responses == []
      ensures Read(old(CallerState()), read, callers)
      ensures |callers| == |read| + 1 && callers[|read|] == CallerState()
      ensures old(responses) <= read + responses
      ensures requests != [] && requests[|requests| - 1] == SyncRequest
      ensures old(requests == [] && phase.Idle?) ==> requests == [SyncRequest] && phase.Idle? && inner == old(inner)
    {
      hide Valid, Advanced, Learned, Synced, Read, WorkerStep, PushedCount, Deltas;
      NothingRead(CallerState());
      read, callers := [], [CallerState()];
      var count := 0;
      var budget: nat :| true;
      NothingAdvanced(View());
      while true
        invariant Valid() && Advanced(old(View()), View()) && steps == old(steps) && syncs == old(syncs)
        invariant count == |read| && (limit.Some? ==> count <= limit.value)
        invariant Read(old(CallerState()), read, callers)
        invariant |callers| == |read| + 1 && callers[|read|] == CallerState()
        invariant old(responses) <= read + responses
        invariant old(requests == [] && phase.Idle?) ==> requests == [] && phase.Idle? && inner == old(inner)
        decreases budget, |responses|
      {
        ghost var before, unread := View(), responses;
        var working: bool := *;
        if budget > 0 && working {
          ghost var w := WorkerState();
          Work();
          IdleRests(w, WorkerState());
          budget := budget - 1;
          assert old(responses) <= read + unread <= read + responses;
        } else if (limit.None? || count < limit.value) && responses != [] {
          Receive();
          AdvancedTwice(old(View()), before, View());
          ReadNext(old(CallerState()), read, callers, unread[0], CallerState());
          assert read + unread == (read + [unread[0]]) + unread[1..];
          read, callers, count := read + [unread[0]], callers + [CallerState()], count + 1;
        } else {
          break;
        }
      }
      ghost var all := View();
      AskToSync();
      SyncedAfter(old(View()), all, View());
    }

    method AskToSync()
      requires Valid()
      modifies this`requests, this`syncs
      ensures Valid() && requests == old(requests) + [SyncRequest]
      ensures View() == old(View()).(syncs := old(syncs) + 1)
    {
      hide Faithful, Aliased, InOnePlace, Counted, UpToDate, AggregatorContract.Valid;
      Command(SyncRequest);
      CallsDoNotMatter(combine, View(), steps, syncs + 1);
      syncs := syncs + 1;
    }

    method PopRecursiveProof() returns (e: Option<Emitted<P>>)
      requires Valid()
      modifies this`recursiveProofs, this`owed
      ensures Valid() && Popped(old(View()), e, View())
    {
      hide Faithful, Aliased, InOnePlace, PushedIds, PushedCount, ProvedIds, ReadyIds, Deltas,
        AggregatorContract.Valid;
      e := None;
      if recursiveProofs != [] {
        e := Some(recursiveProofs[0]);
        PopKeepsValid(combine, View());
        PopInOnePlace(owed, requests, batchAliases, responses, recursiveProofs);
        PopFaithful(combine, owed, requests, responses, e.value.id);
        PopAliased(owed, batchAliases, inner.owed, e.value.id);
        recursiveProofs := recursiveProofs[1..];
        owed := owed - {e.value.id};
      }
    }

    // -------------------------------------------------------------- the worker

    /** One step of the worker, at whatever point of its loop it stands. The caller's view
        does not change until it reads the channel. */
    method Work()
      requires Valid()
      modifies this`requests, this`responses, this`inner, this`batchAliases, this`phase, this`reported
      ensures Valid() && View() == old(View())
      ensures WorkerStep(old(WorkerState()), WorkerState()) && old(responses) <= responses
    {
      hide Valid, Forwarded, Popped;
      match phase
      case Idle =>
        if requests != [] {
          Accept();
        }
      case Draining(_) => Drain();
      case Reporting(_) => Report();
      case Sizing(_) => Report();
      case Stopped =>
    }

    /** The worker takes a request from its channel and forwards it to the inner aggregator. */
    method Accept()
      requires Valid() && phase.Idle? && requests != []
      modifies this`requests, this`inner, this`batchAliases, this`phase
      ensures Valid() && View() == old(View())
      ensures Forwarded(old(WorkerState()), WorkerState())
    {
      hide Aliased, PushedIds, ProvedIds, ReadyIds, Deltas, IsBatch, Root, AggregatorContract.Valid, InOnePlace;
      RestFaithful(combine, owed, requests, responses);
      ReadInOnePlace(owed, requests, batchAliases, responses, recursiveProofs);
      match requests[0]
      case PushProofs(outerId, proofs) =>
        var _ := AcceptPush();
      case StepRequest =>
        inner := AggregatorContract.Step(combine, inner);
        requests, phase := requests[1..], Draining(0);
      case SyncRequest =>
        inner := AggregatorContract.Sync(combine, inner);
        requests, phase := requests[1..], Draining(0);
      case Shutdown =>
        requests, phase := requests[1..], Stopped;
    }

    method AcceptPush() returns (ghost newId: nat)
      requires Valid() && phase.Idle? && requests != [] && requests[0].PushProofs?
      modifies this`requests, this`inner, this`batchAliases, this`phase
      ensures Valid() && View() == old(View())
      ensures requests == old(requests[1..]) && phase == Draining(|old(requests[0]).proofs|)
      ensures Pushed(old(inner), old(requests[0]).proofs, newId, inner)
      ensures batchAliases == old(batchAliases)[newId := old(requests[0]).id]
    {
      hide PushedIds, ProvedIds, ReadyIds, Deltas, IsBatch, InOnePlace, Injective, Faithful, Aliased,
        AggregatorContract.Valid, LatestSize, LatestThroughput;
      var request, proofs := requests[0], requests[0].proofs;
      FirstRequest(combine, owed, requests, responses);
      AliasesAreOld(combine, owed, batchAliases, inner);
      RestFaithful(combine, owed, requests, responses);
      var before := inner;
      var innerId;
      inner, innerId := AggregatorContract.Push(combine, inner, proofs);
      AliasedInjective(owed, batchAliases, before.owed);
      AcceptInOnePlace(owed, requests, batchAliases, responses, recursiveProofs, innerId);
      AcceptAliased(owed, batchAliases, before.owed, innerId, request.id);
      batchAliases := batchAliases[innerId := request.id];
      requests, phase := requests[1..], Draining(|proofs|);
      newId := innerId;
    }

    /** The worker sends back one finished proof under the caller's id, which is always known,
        or finds that none is left. */
    method Drain()
      requires Valid() && phase.Draining?
      modifies this`responses, this`inner, this`batchAliases, this`phase
      ensures Valid() && View() == old(View())
      ensures WorkerStep(old(WorkerState()), WorkerState())
      ensures old(inner).ready == [] ==> phase == Reporting(old(phase.pushed)) && responses == old(responses)
      ensures old(inner).ready != [] ==>
        && old(inner).ready[0].id in old(batchAliases) && phase == old(phase)
        && responses == old(responses) + [RecursiveProof(old(batchAliases)[old(inner).ready[0].id],
            old(inner).ready[0].proof)]
    {
      hide PushedIds, PushedCount, ProvedIds, ReadyIds, Deltas, IsBatch, Root, InOnePlace, Injective,
        AggregatorContract.Valid, Faithful;
      ghost var before := inner;
      var popped;
      inner, popped := AggregatorContract.Pop(combine, inner);
      if popped.None? {
        phase := Reporting(phase.pushed);
        return;
      }
      var innerId := popped.value.id;
      FirstIsHonest(combine, before);
      OwedBatches(combine, owed, requests, responses);
      var outerId := batchAliases[innerId];
      var response := RecursiveProof(outerId, popped.value.proof);
      RespondFaithful(combine, owed, requests, responses, response);
      ReplyInOnePlace(owed, requests, batchAliases, responses, recursiveProofs, innerId, popped.value.proof);
      ReplyAliased(owed, batchAliases, before.owed, innerId);
      DeltaSent(responses, response);
      LatestSent(responses, response, innerPendingQueueSize, proofThroughput);
      batchAliases := batchAliases - {innerId};
      responses := responses + [response];
    }

    /** The worker reports its throughput, and then what it took in and its queue size. */
    method Report()
      requires Valid() && (phase.Reporting? || phase.Sizing?)
      modifies this`responses, this`phase, this`reported
      ensures Valid() && View() == old(View())
      ensures WorkerStep(old(WorkerState()), WorkerState())
      ensures phase == if old(phase).Reporting? then Sizing(old(phase.pushed)) else Idle
      ensures responses == old(responses) + [if old(phase).Reporting? then ProofThroughput(inner.throughput)
                                             else PendingQueueSize(old(phase.pushed), inner.pending)]
    {
      hide Aliased, PushedIds, PushedCount, ProvedIds, ReadyIds, Deltas, IsBatch, Root, InOnePlace, Honest, Faithful,
        LatestSize, LatestThroughput;
      var response := if phase.Reporting? then ProofThroughput(inner.throughput)
                      else PendingQueueSize(phase.pushed, inner.pending);
      ReportInOnePlace(owed, requests, batchAliases, responses, recursiveProofs, response);
      RespondFaithful(combine, owed, requests, responses, response);
      DeltaSent(responses, response);
      LatestSent(responses, response, innerPendingQueueSize, proofThroughput);
      if phase.Reporting? {
        phase := Sizing(phase.pushed);
      } else {
        phase, reported := Idle, true;
      }
      responses := responses + [response];
    }

    /** The worker gets to run until it waits for the next request. */
    method RunWorker()
      requires Valid() && Running(WorkerState())
      modifies this`requests, this`responses, this`inner, this`batchAliases, this`phase, this`reported
      ensures Valid() && View() == old(View())
      ensures requests == [] && phase.Idle? && (old(inner).prompt ==> inner.prompt)
      ensures old(StepAhead(WorkerState())) ==> inner.ready == []
      ensures old(StepAhead(WorkerState()) && OnlyCommands(requests)) && old(inner).prompt ==>
        Weight(inner) <= old(Weight(inner)) && (Weight(inner) < old(Weight(inner)) || inner.owed == map[])
    {
      hide Valid, WorkerStep, Weight, Progressed, Drained, OnlyCommands, StepAhead;
      ghost var w0 := WorkerState();
      RunStarts(w0);
      while !phase.Idle? || requests != []
        invariant Valid() && View() == old(View()) && Running(WorkerState())
        invariant StepAhead(w0) ==> Drained(WorkerState())
        invariant w0.inner.prompt ==> inner.prompt && (StepAhead(w0) ==> Progressed(w0, WorkerState()))
        decreases |requests|, Remaining(phase), |inner.ready|
      {
        ghost var w := WorkerState();
        InnerIsValid();
        Work();
        WorkerEnds(w, WorkerState());
        if w0.inner.prompt && StepAhead(w0) {
          WorkerProgresses(combine, w0, w, WorkerState());
        }
      }
      RunEnds(w0, WorkerState());
    }

    lemma InnerIsValid()
      requires Valid()
      ensures AggregatorContract.Valid(combine, inner)
    {
    }

    /** Stepping until a proof comes out: as long as the worker gets to run, this ends for every
        prompt aggregator at the other end, whatever was in the channels before. */
    method NextProof() returns (e: Emitted<P>)
      requires Valid() && Running(WorkerState()) && inner.prompt && owed != map[]
      modifies this
      ensures Valid() && Running(WorkerState()) && inner.prompt
      ensures e.id in old(owed) && IsBatch(old(owed)[e.id]) && e.proof == Root(combine, old(owed)[e.id])
      ensures owed == old(owed) - {e.id}
    {
      hide Valid, Root, IsPowerOfTwo, Weight, Read;
      while true
        invariant Valid() && Running(WorkerState()) && inner.prompt && owed == old(owed)
        decreases !OnlyCommands(requests), Weight(inner), recursiveProofs == []
      {
        ViewIsValid();
        if recursiveProofs != [] {
          FirstIsHonest(combine, View());
        }
        var popped := PopRecursiveProof();
        if popped.Some? {
          return popped.value;
        }
        Step();
        RunWorker();
        var _, _ := Sync(None);
        if inner.owed == map[] {
          OwedIsReadyHere();
        }
      }
    }

    lemma OwedIsReadyHere()
      requires Valid() && requests == [SyncRequest] && responses == [] && inner.owed == map[] && owed != map[]
      ensures recursiveProofs != []
    {
      hide Faithful, Counted, UpToDate, AggregatorContract.Valid;
      OwedIsReady(owed, requests, batchAliases, inner.owed, recursiveProofs);
    }

    /** When nothing is on its way any more, the caller's numbers are those of the inner
        aggregator, and every batch it still waits for is queued there or ready to be popped. */
    lemma Quiescent()
      requires Valid() && requests == [] && responses == [] && phase.Idle? && reported
      ensures outerPendingQueueSize == 0
      ensures View().pending == inner.pending && proofThroughput == inner.throughput
      ensures owed.Keys == batchAliases.Values + Ids(recursiveProofs)
    {
      hide ReadyIds, Faithful, Aliased, AggregatorContract.Valid;
      forall id | id in owed ensures id in batchAliases.Values + Ids(recursiveProofs) {
        assert multiset(owed.Keys)[id] == 1;
        if id in ReadyIds(recursiveProofs) {
          ReadyIdIsReady(recursiveProofs, id);
        }
      }
      forall id | id in batchAliases.Values + Ids(recursiveProofs) ensures id in owed {
        if id in Ids(recursiveProofs) {
          var i :| 0 <= i < |recursiveProofs| && recursiveProofs[i].id == id;
          ReadyIdOccurs(recursiveProofs, i);
        }
        assert multiset(owed.Keys)[id] > 0;
      }
    }

    /** One call of a run, or a step of the worker, entered in its log. */
    method Perform(limit: Option<nat>, call: Call<P>, ghost calls: seq<Call<P>>, ids: seq<nat>,
        emitted: seq<Emitted<P>>)
      returns (ids': seq<nat>, emitted': seq<Emitted<P>>)
      requires Valid() && Legal(combine, call) && !call.InsertCall?
      requires Logged(combine, calls, ids, emitted, View())
      modifies this
      ensures Valid() && Logged(combine, calls + [call], ids', emitted', View())
    {
      hide Valid, AggregatorContract.Valid, IsBatch, Popped, Pushed, Advanced, Logged;
      ids', emitted' := ids, emitted;
      ghost var before := View();
      match call {
        case PushCall(proofs) =>
          var id := PushInternalProofs(proofs);
          LoggedPush(combine, calls, ids, emitted, before, proofs, id, View());
          ids' := ids + [id];
        case StepCall =>
          Step();
          LoggedAdvance(combine, calls, StepCall, ids, emitted, before, View());
        case SyncCall =>
          var _, _ := Sync(limit);
          LoggedAdvance(combine, calls, SyncCall, ids, emitted, before, View());
        case PopCall =>
          ViewIsValid();
          var e := PopRecursiveProof();
          LoggedPop(combine, calls, ids, emitted, before, e, View());
          emitted' := emitted + if e.Some? then [e.value] else [];
        case Elapse =>
          Work();
          LoggedAdvance(combine, calls, Elapse, ids, emitted, before, View());
      }
    }
  }

  // ---------------------------------------------------------------- whole runs

  /** A remote aggregator with a new connection under any schedule of calls and worker steps.
      Remote aggregators take no sub-aggregators. */
  method RunRemotely<P(!new)>(combine: (P, P) -> P, inner: Aggregator<P>, limits: nat -> Option<nat>,
      schedule: seq<Call<P>>)
      returns (ids: seq<nat>, emitted: seq<Emitted<P>>, ghost last: Aggregator<P>)
    requires Valid(combine, inner) && inner.owed == map[]
    requires forall call :: call in schedule ==> Legal(combine, call) && !call.InsertCall?
    ensures |ids| == |Pushes(schedule)| && DistinctNats(ids)
    ensures OnlyRoots(combine, Assigned(ids, Pushes(schedule)), emitted)
    ensures Logged(combine, schedule, ids, emitted, last)
  {
    hide RemoteAggregator.Valid, Valid, Logged, Legal, OnlyRoots, Pushes, Assigned, DistinctNats;
    var remote := new RemoteAggregator(combine, inner);
    ids, emitted := [], [];
    LoggedNothing(combine, remote.View());
    for i := 0 to |schedule|
      invariant fresh(remote) && remote.combine == combine && remote.Valid()
      invariant Logged(combine, schedule[..i], ids, emitted, remote.View())
    {
      assert schedule[i] in schedule && schedule[..i + 1] == schedule[..i] + [schedule[i]];
      ids, emitted := remote.Perform(limits(i), schedule[i], schedule[..i], ids, emitted);
    }
    assert schedule[..|schedule|] == schedule;
    last := remote.View();
    LoggedMeans(combine, schedule, ids, emitted, last);
  }
}
