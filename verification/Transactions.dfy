/** Transactions of the shielded pool, and which of them are acceptable: once as the checks of
    `submit` go through them, and once in terms of the transaction's own entries. */
module Transactions {
  import opened CommitmentTrees
  import opened MerkleRoot
  import opened Powers

  // ---------------------------------------------------------------- transactions

  type Proof = seq<seq<nat>>

  /** What the compliance proof says about a resource: its nullifier or commitment, the logic
      it obeys and, if it is consumed, a root of the tree that holds it. */
  datatype Public<T> = Public(tag: T, logicRef: T)

  datatype Consumed<T> = Consumed(public: Public<T>, treeRoot: T)

  datatype Compliance<T> = Compliance(consumed: seq<Consumed<T>>, consumedCount: nat, created: seq<Public<T>>,
      createdCount: nat)

  datatype LogicInstance<T> = LogicInstance(tag: T, isConsumed: bool, actionRoot: T, proof: Proof)

  datatype Transaction<T> = Transaction(logics: seq<LogicInstance<T>>, compliance: Compliance<T>, isSigned: bool)

  datatype Verdict = Verified | Refuted | Failed

  datatype Verifiers<!T> = Verifiers(
    signature: Transaction<T> -> Verdict,
    compliance: Transaction<T> -> Verdict,
    logic: (T, LogicInstance<T>) -> Verdict)

  datatype Reason =
    | BarretenbergError | LogicProof | ComplianceProof | DuplicateNullifier | DuplicateCommitment
    | UnpairedNullifier | UnpairedCommitment | CircuitNotRegistered | NonExistentAnchor
    | InvalidActionTreeRoot | InvalidSignature

  datatype Outcome = Accepted | Rejected(reason: Reason) | Panicked

  ghost predicate Distinct<T>(ts: seq<T>) {
    forall i, j :: 0 <= i < j < |ts| ==> ts[i] != ts[j]
  }

  function Consumptions<T>(tx: Transaction<T>): seq<Public<T>>
    requires tx.compliance.consumedCount <= |tx.compliance.consumed|
  {
    seq(tx.compliance.consumedCount,
        i requires 0 <= i < |tx.compliance.consumed| => tx.compliance.consumed[i].public)
  }

  function Creations<T>(tx: Transaction<T>): seq<Public<T>>
    requires tx.compliance.createdCount <= |tx.compliance.created|
  {
    tx.compliance.created[..tx.compliance.createdCount]
  }

  function TagsOf<T>(ps: seq<Public<T>>): (ts: seq<T>)
    ensures |ts| == |ps|
  {
    seq(|ps|, i requires 0 <= i < |ps| => ps[i].tag)
  }

  /** The tags of the logic instances of one kind, in order. */
  function LogicTags<T>(logics: seq<LogicInstance<T>>, isConsumed: bool): seq<T> {
    if logics == [] then []
    else
      var last := logics[|logics| - 1];
      LogicTags(logics[..|logics| - 1], isConsumed) + if last.isConsumed == isConsumed then [last.tag] else []
  }

  /** The logic reference that the compliance instance gives for each tag. */
  function Refs<T>(ps: seq<Public<T>>): map<T, T> {
    if ps == [] then map[] else Refs(ps[..|ps| - 1])[ps[|ps| - 1].tag := ps[|ps| - 1].logicRef]
  }

  lemma DistinctNext<T>(ts: seq<T>, n: nat)
    requires n < |ts|
    ensures Distinct(ts[..n + 1]) <==> Distinct(ts[..n]) && ts[n] !in ts[..n]
  {
    var more := ts[..n + 1];
    assert more[..n] == ts[..n] && more[n] == ts[n];
    assert forall i :: 0 <= i < n ==> more[i] == ts[..n][i];
  }

  /** Distinctness is a property of the multiset of elements. */
  lemma {:induction false} DistinctAsMultiset<T>(ts: seq<T>)
    ensures Distinct(ts) <==> forall t :: multiset(ts)[t] <= 1
  {
    if ts != [] {
      var n := |ts| - 1;
      DistinctAsMultiset(ts[..n]);
      DistinctNext(ts, n);
      assert ts[..n + 1] == ts == ts[..n] + [ts[n]];
      assert multiset(ts) == multiset(ts[..n]) + multiset{ts[n]};
      assert ts[n] in ts[..n] <==> multiset(ts[..n])[ts[n]] > 0;
      if forall t :: multiset(ts)[t] <= 1 {
        assert multiset(ts)[ts[n]] <= 1;
        forall t ensures multiset(ts[..n])[t] <= 1 {
          assert multiset(ts)[t] <= 1;
        }
      }
    }
  }

  lemma {:induction false} RefsKeys<T>(ps: seq<Public<T>>)
    ensures forall t :: t in Refs(ps) <==> t in TagsOf(ps)
    ensures Distinct(TagsOf(ps)) ==> multiset(Refs(ps).Keys) == multiset(TagsOf(ps))
  {
    if ps != [] {
      var n, ts := |ps| - 1, TagsOf(ps);
      RefsKeys(ps[..n]);
      assert TagsOf(ps[..n]) == ts[..n] && ts[..n + 1] == ts == ts[..n] + [ts[n]];
      DistinctNext(ts, n);
      assert Refs(ps).Keys == Refs(ps[..n]).Keys + {ts[n]};
    }
  }

  lemma LogicTagsNext<T>(logics: seq<LogicInstance<T>>, isConsumed: bool, i: nat)
    requires i < |logics|
    ensures LogicTags(logics[..i + 1], isConsumed)
         == LogicTags(logics[..i], isConsumed) + if logics[i].isConsumed == isConsumed then [logics[i].tag] else []
  {
    assert logics[..i + 1][..i] == logics[..i];
  }

  lemma {:induction false} LogicTagsPrefix<T>(logics: seq<LogicInstance<T>>, isConsumed: bool, i: nat)
    requires i <= |logics|
    ensures LogicTags(logics[..i], isConsumed) <= LogicTags(logics, isConsumed)
    decreases |logics|
  {
    if i < |logics| {
      var n := |logics| - 1;
      LogicTagsPrefix(logics[..n], isConsumed, i);
      assert logics[..n][..i] == logics[..i];
    } else {
      assert logics[..i] == logics;
    }
  }

  // ---------------------------------------------------------------- what is acceptable

  /** `ilog2`, and the depth of the action tree over the tags of a transaction. */
  function Log2Floor(n: nat): (k: nat)
    requires n > 0
    ensures Exp2(k) <= n < Exp2(k + 1)
  {
    if n == 1 then 0 else 1 + Log2Floor(n / 2)
  }

  function ActionTreeDepth(n: nat): (d: nat)
    requires n > 0
    ensures n <= Exp2(d) && (d > 0 ==> Exp2(d - 1) < n)
  {
    if n == 1 then 0 else Log2Floor(n - 1) + 1
  }

  /** The tags of the compliance instance, and the root of the tree over them. */
  function AllTags<T>(tx: Transaction<T>): seq<T>
    requires tx.compliance.consumedCount <= |tx.compliance.consumed|
    requires tx.compliance.createdCount <= |tx.compliance.created|
  {
    TagsOf(Consumptions(tx)) + TagsOf(Creations(tx))
  }

  function ActionRoot<T>(hash: Hasher<T>, tags: seq<T>): T
    requires tags != []
  {
    NodeAt(hash, tags, ActionTreeDepth(|tags|), 0)
  }

  ghost predicate RootsAgree<T>(logics: seq<LogicInstance<T>>, tags: seq<T>, root: T) {
    forall l :: l in logics && l.tag in tags ==> l.actionRoot == root
  }

  /** The logic instances and the compliance instance name the same resources, one for one. */
  ghost predicate Paired<T>(tx: Transaction<T>)
    requires WellFormed(tx)
  {
    && multiset(LogicTags(tx.logics, true)) == multiset(TagsOf(Consumptions(tx)))
    && multiset(LogicTags(tx.logics, false)) == multiset(TagsOf(Creations(tx)))
  }

  function RefsFor<T>(tx: Transaction<T>, isConsumed: bool): map<T, T>
    requires WellFormed(tx)
  {
    if isConsumed then Refs(Consumptions(tx)) else Refs(Creations(tx))
  }

  /** On other transactions `submit` panics, unless their signature is refused first. */
  predicate WellFormed<T>(tx: Transaction<T>) {
    && tx.isSigned
    && tx.compliance.consumedCount <= |tx.compliance.consumed|
    && tx.compliance.createdCount <= |tx.compliance.created|
    && tx.compliance.consumedCount + tx.compliance.createdCount > 0
  }

  ghost predicate LogicHolds<T>(v: Verifiers<T>, circuits: set<T>, l: LogicInstance<T>, refs: map<T, T>) {
    l.tag in refs && refs[l.tag] in circuits && v.logic(refs[l.tag], l) == Verified
  }

  ghost predicate LogicsHold<T>(v: Verifiers<T>, circuits: set<T>, tx: Transaction<T>)
    requires WellFormed(tx)
  {
    forall l :: l in tx.logics ==> LogicHolds(v, circuits, l, RefsFor(tx, l.isConsumed))
  }

  ghost predicate AnchorsKnown<T, N>(cmtNode: T -> N, anchors: set<N>, cs: seq<Consumed<T>>) {
    forall i :: 0 <= i < |cs| ==> cmtNode(cs[i].treeRoot) in anchors
  }

  /** Everything about a transaction except whether its nullifiers are new to the pool. */
  ghost predicate Sound<T, N>(v: Verifiers<T>, hash: Hasher<T>, cmtNode: T -> N, anchors: set<N>, circuits: set<T>,
      tx: Transaction<T>)
  {
    && WellFormed(tx)
    && v.signature(tx) == Verified
    && RootsAgree(tx.logics, AllTags(tx), ActionRoot(hash, AllTags(tx)))
    && v.compliance(tx) == Verified
    && Distinct(TagsOf(Consumptions(tx)))
    && AnchorsKnown(cmtNode, anchors, tx.compliance.consumed[..tx.compliance.consumedCount])
    && Distinct(TagsOf(Creations(tx)))
    && Paired(tx)
    && LogicsHold(v, circuits, tx)
  }

  ghost predicate Fresh<T>(nullifiers: set<T>, logics: seq<LogicInstance<T>>) {
    forall t :: t in LogicTags(logics, true) ==> t !in nullifiers
  }

  // ---------------------------------------------------------------- in terms of the entries

  /** The instance names the resource, whose logic is registered and accepts the proof. */
  ghost predicate ProvenFor<T>(v: Verifiers<T>, circuits: set<T>, p: Public<T>, l: LogicInstance<T>) {
    l.tag == p.tag && p.logicRef in circuits && v.logic(p.logicRef, l) == Verified
  }

  /** The instance is proven for a resource of its kind. */
  ghost predicate Proven<T>(v: Verifiers<T>, circuits: set<T>, c: Compliance<T>, l: LogicInstance<T>)
    requires c.consumedCount <= |c.consumed| && c.createdCount <= |c.created|
  {
    if l.isConsumed then exists i :: 0 <= i < c.consumedCount && ProvenFor(v, circuits, c.consumed[i].public, l)
    else exists i :: 0 <= i < c.createdCount && ProvenFor(v, circuits, c.created[i], l)
  }

  /** An instance of the given kind has the tag. */
  ghost predicate Named<T>(logics: seq<LogicInstance<T>>, isConsumed: bool, t: T) {
    exists j :: 0 <= j < |logics| && logics[j].isConsumed == isConsumed && logics[j].tag == t
  }

  /** No two instances of one kind have the same tag. */
  ghost predicate NamedOnce<T>(logics: seq<LogicInstance<T>>, isConsumed: bool) {
    forall j, k :: 0 <= j < k < |logics| && logics[j].isConsumed == logics[k].isConsumed == isConsumed ==>
      logics[j].tag != logics[k].tag
  }

  /** Nullifiers first, then commitments, then empty leaves up to the next power of two. */
  ghost predicate ActionLeaves<T>(hash: Hasher<T>, c: Compliance<T>, leaves: seq<T>)
    requires c.consumedCount <= |c.consumed| && c.createdCount <= |c.created|
  {
    var n := c.consumedCount + c.createdCount;
    && IsPowerOfTwo(|leaves|) && n <= |leaves| && |leaves| < 2 * n
    && (forall i :: 0 <= i < c.consumedCount ==> leaves[i] == c.consumed[i].public.tag)
    && (forall i :: c.consumedCount <= i < n ==> leaves[i] == c.created[i - c.consumedCount].tag)
    && (forall i :: n <= i < |leaves| ==> leaves[i] == hash.emptyLeaf)
  }

  ghost predicate IsResource<T>(c: Compliance<T>, t: T)
    requires c.consumedCount <= |c.consumed| && c.createdCount <= |c.created|
  {
    || (exists i :: 0 <= i < c.consumedCount && c.consumed[i].public.tag == t)
    || (exists i :: 0 <= i < c.createdCount && c.created[i].tag == t)
  }

  /** Every instance that names a resource, of whichever kind, claims the root over all tags. */
  ghost predicate RootsClaimed<T(!new)>(hash: Hasher<T>, tx: Transaction<T>)
    requires tx.compliance.consumedCount <= |tx.compliance.consumed|
    requires tx.compliance.createdCount <= |tx.compliance.created|
  {
    forall leaves :: ActionLeaves(hash, tx.compliance, leaves) ==>
      forall l :: l in tx.logics && IsResource(tx.compliance, l.tag) ==> l.actionRoot == Root(hash.combine, leaves)
  }

  /** What `submit` accepts, apart from nullifiers that are spent already. */
  ghost predicate Acceptable<T(!new), N>(v: Verifiers<T>, hash: Hasher<T>, cmtNode: T -> N, anchors: set<N>,
      circuits: set<T>, tx: Transaction<T>)
  {
    var c := tx.compliance;
    && tx.isSigned && c.consumedCount <= |c.consumed| && c.createdCount <= |c.created|
    && c.consumedCount + c.createdCount > 0
    && v.signature(tx) == Verified && v.compliance(tx) == Verified
    && RootsClaimed(hash, tx)
    && (forall i, j :: 0 <= i < j < c.consumedCount ==> c.consumed[i].public.tag != c.consumed[j].public.tag)
    && (forall i, j :: 0 <= i < j < c.createdCount ==> c.created[i].tag != c.created[j].tag)
    && (forall i :: 0 <= i < c.consumedCount ==> cmtNode(c.consumed[i].treeRoot) in anchors)
    && (forall i :: 0 <= i < c.consumedCount ==> Named(tx.logics, true, c.consumed[i].public.tag))
    && (forall i :: 0 <= i < c.createdCount ==> Named(tx.logics, false, c.created[i].tag))
    && NamedOnce(tx.logics, true) && NamedOnce(tx.logics, false)
    && (forall l :: l in tx.logics ==> Proven(v, circuits, c, l))
  }

  /** None of the nullifiers is spent yet. */
  ghost predicate Unspent<T>(nullifiers: set<T>, c: Compliance<T>)
    requires c.consumedCount <= |c.consumed|
  {
    forall i :: 0 <= i < c.consumedCount ==> c.consumed[i].public.tag !in nullifiers
  }

  /** The nullifiers are spent now. */
  ghost predicate Spends<T>(c: Compliance<T>, nullifiers: set<T>, nullifiers': set<T>)
    requires c.consumedCount <= |c.consumed|
  {
    nullifiers' == nullifiers + set i | 0 <= i < c.consumedCount :: c.consumed[i].public.tag
  }

  /** The number of creating instances among the first `n`. */
  ghost function CreatedBefore<T>(logics: seq<LogicInstance<T>>, n: nat): nat
    requires n <= |logics|
  {
    if n == 0 then 0 else CreatedBefore(logics, n - 1) + if logics[n - 1].isConsumed then 0 else 1
  }

  /** The nodes of the created resources are appended, in the order of their instances. */
  ghost predicate Creates<T, N>(cmtNode: T -> N, tx: Transaction<T>, commitments: seq<N>, commitments': seq<N>) {
    && commitments <= commitments' && |commitments'| == |commitments| + tx.compliance.createdCount
    && CreatedBefore(tx.logics, |tx.logics|) == tx.compliance.createdCount
    && forall j :: 0 <= j < |tx.logics| && !tx.logics[j].isConsumed ==>
         var a := |commitments| + CreatedBefore(tx.logics, j);
         a < |commitments'| && commitments'[a] == cmtNode(tx.logics[j].tag)
  }

  /** What is wrong with the instance as one for the resource it names. */
  ghost predicate FailsFor<T>(v: Verifiers<T>, circuits: set<T>, p: Public<T>, l: LogicInstance<T>, reason: Reason) {
    && l.tag == p.tag
    && match reason
       case CircuitNotRegistered => p.logicRef !in circuits
       case LogicProof => p.logicRef in circuits && v.logic(p.logicRef, l) == Refuted
       case BarretenbergError => p.logicRef in circuits && v.logic(p.logicRef, l) == Failed
       case _ => false
  }

  ghost predicate InstanceFails<T>(v: Verifiers<T>, circuits: set<T>, c: Compliance<T>, l: LogicInstance<T>,
      reason: Reason)
    requires c.consumedCount <= |c.consumed| && c.createdCount <= |c.created|
  {
    if l.isConsumed then exists i :: 0 <= i < c.consumedCount && FailsFor(v, circuits, c.consumed[i].public, l, reason)
    else exists i :: 0 <= i < c.createdCount && FailsFor(v, circuits, c.created[i], l, reason)
  }

  /** The nullifiers are not named one for one: one of them is named twice or not at all, or
      something else is named. */
  ghost predicate NullifiersUnpaired<T>(tx: Transaction<T>)
    requires tx.compliance.consumedCount <= |tx.compliance.consumed|
  {
    var c := tx.compliance;
    || !NamedOnce(tx.logics, true)
    || (exists i :: 0 <= i < c.consumedCount && !Named(tx.logics, true, c.consumed[i].public.tag))
    || exists l :: l in tx.logics && l.isConsumed
         && forall i :: 0 <= i < c.consumedCount ==> c.consumed[i].public.tag != l.tag
  }

  ghost predicate CommitmentsUnpaired<T>(tx: Transaction<T>)
    requires tx.compliance.createdCount <= |tx.compliance.created|
  {
    var c := tx.compliance;
    || !NamedOnce(tx.logics, false)
    || (exists i :: 0 <= i < c.createdCount && !Named(tx.logics, false, c.created[i].tag))
    || exists l :: l in tx.logics && !l.isConsumed
         && forall i :: 0 <= i < c.createdCount ==> c.created[i].tag != l.tag
  }

  /** What the reason of a refusal means. */
  ghost predicate Explained<T(!new), N>(v: Verifiers<T>, hash: Hasher<T>, cmtNode: T -> N, anchors: set<N>,
      circuits: set<T>, nullifiers: set<T>, tx: Transaction<T>, reason: Reason)
    requires tx.compliance.consumedCount <= |tx.compliance.consumed|
    requires tx.compliance.createdCount <= |tx.compliance.created|
  {
    var c := tx.compliance;
    match reason
    case InvalidSignature => v.signature(tx) == Refuted
    case InvalidActionTreeRoot => !RootsClaimed(hash, tx)
    case ComplianceProof => v.compliance(tx) == Refuted
    case DuplicateNullifier =>
      || (exists i, j :: 0 <= i < j < c.consumedCount && c.consumed[i].public.tag == c.consumed[j].public.tag)
      || !Unspent(nullifiers, c)
    case NonExistentAnchor => exists i :: 0 <= i < c.consumedCount && cmtNode(c.consumed[i].treeRoot) !in anchors
    case DuplicateCommitment => exists i, j :: 0 <= i < j < c.createdCount && c.created[i].tag == c.created[j].tag
    case UnpairedNullifier => NullifiersUnpaired(tx)
    case UnpairedCommitment => CommitmentsUnpaired(tx)
    case CircuitNotRegistered | LogicProof => exists l :: l in tx.logics && InstanceFails(v, circuits, c, l, reason)
    case BarretenbergError =>
      v.compliance(tx) == Failed || exists l :: l in tx.logics && InstanceFails(v, circuits, c, l, reason)
  }

  /** Each tag is entered with the logic of its own resource. */
  lemma {:induction false} RefsAt<T>(ps: seq<Public<T>>, i: nat)
    requires i < |ps| && Distinct(TagsOf(ps))
    ensures ps[i].tag in Refs(ps) && Refs(ps)[ps[i].tag] == ps[i].logicRef
  {
    var n, ts := |ps| - 1, TagsOf(ps);
    if i < n {
      assert TagsOf(ps[..n]) == ts[..n];
      DistinctNext(ts, n);
      assert ts[..n + 1] == ts && ts[i] != ts[n];
      RefsAt(ps[..n], i);
    }
  }

  /** The nullifiers and the commitments are entered with the logic of their own resources. */
  lemma RefsAreOwn<T>(tx: Transaction<T>)
    requires WellFormed(tx)
    ensures Distinct(TagsOf(Consumptions(tx))) ==> forall i :: 0 <= i < tx.compliance.consumedCount ==>
      var p := tx.compliance.consumed[i].public; p.tag in RefsFor(tx, true) && RefsFor(tx, true)[p.tag] == p.logicRef
    ensures Distinct(TagsOf(Creations(tx))) ==> forall i :: 0 <= i < tx.compliance.createdCount ==>
      var p := tx.compliance.created[i]; p.tag in RefsFor(tx, false) && RefsFor(tx, false)[p.tag] == p.logicRef
    ensures RefsFor(tx, true).Keys
      == set i | 0 <= i < tx.compliance.consumedCount :: tx.compliance.consumed[i].public.tag
    ensures RefsFor(tx, false).Keys == set i | 0 <= i < tx.compliance.createdCount :: tx.compliance.created[i].tag
  {
    hide Refs, Distinct, TagsOf;
    var c, ps, qs := tx.compliance, Consumptions(tx), Creations(tx);
    assert forall i :: 0 <= i < c.consumedCount ==> ps[i] == c.consumed[i].public;
    assert forall i :: 0 <= i < c.createdCount ==> qs[i] == c.created[i];
    RefsOf(ps);
    RefsOf(qs);
    assert (set i | 0 <= i < |ps| :: ps[i].tag) == set i | 0 <= i < c.consumedCount :: c.consumed[i].public.tag;
    assert (set i | 0 <= i < |qs| :: qs[i].tag) == set i | 0 <= i < c.createdCount :: c.created[i].tag;
  }

  lemma RefsOf<T>(ps: seq<Public<T>>)
    ensures Distinct(TagsOf(ps)) ==>
      forall i :: 0 <= i < |ps| ==> ps[i].tag in Refs(ps) && Refs(ps)[ps[i].tag] == ps[i].logicRef
    ensures Refs(ps).Keys == set i | 0 <= i < |ps| :: ps[i].tag
  {
    hide Distinct;
    RefsKeys(ps);
    if Distinct(TagsOf(ps)) {
      forall i | 0 <= i < |ps| ensures ps[i].tag in Refs(ps) && Refs(ps)[ps[i].tag] == ps[i].logicRef {
        RefsAt(ps, i);
      }
    }
    RefsKeySet(ps);
  }

  lemma {:induction false} RefsKeySet<T>(ps: seq<Public<T>>)
    ensures Refs(ps).Keys == set i | 0 <= i < |ps| :: ps[i].tag
  {
    var tags := set i | 0 <= i < |ps| :: ps[i].tag;
    if ps != [] {
      var n := |ps| - 1;
      RefsKeySet(ps[..n]);
      var before := set i | 0 <= i < n :: ps[..n][i].tag;
      forall t | t in before ensures t in tags {
        var i :| 0 <= i < n && ps[..n][i].tag == t;
        assert ps[i].tag == t;
      }
      forall t | t in tags ensures t in before + {ps[n].tag} {
        var i :| 0 <= i < |ps| && ps[i].tag == t;
        assert i < n ==> ps[..n][i].tag == t;
      }
      assert tags == before + {ps[n].tag};
    }
  }

  lemma HoldsFor<T>(v: Verifiers<T>, circuits: set<T>, l: LogicInstance<T>, ps: seq<Public<T>>)
    requires Distinct(TagsOf(ps))
    ensures LogicHolds(v, circuits, l, Refs(ps)) <==> exists i :: 0 <= i < |ps| && ProvenFor(v, circuits, ps[i], l)
  {
    hide Refs, Distinct;
    RefsKeys(ps);
    if LogicHolds(v, circuits, l, Refs(ps)) {
      var i :| 0 <= i < |ps| && TagsOf(ps)[i] == l.tag;
      RefsAt(ps, i);
      assert ProvenFor(v, circuits, ps[i], l);
    }
    if i :| 0 <= i < |ps| && ProvenFor(v, circuits, ps[i], l) {
      RefsAt(ps, i);
    }
  }

  lemma {:induction false} LogicTagsHas<T>(logics: seq<LogicInstance<T>>, isConsumed: bool, t: T)
    ensures t in LogicTags(logics, isConsumed) <==> Named(logics, isConsumed, t)
  {
    if logics != [] {
      LogicTagsHas(logics[..|logics| - 1], isConsumed, t);
      NamedNext(logics, isConsumed, t);
    }
  }

  lemma NamedNext<T>(logics: seq<LogicInstance<T>>, isConsumed: bool, t: T)
    requires logics != []
    ensures var n := |logics| - 1;
      Named(logics, isConsumed, t) <==>
        Named(logics[..n], isConsumed, t) || (logics[n].isConsumed == isConsumed && logics[n].tag == t)
  {
    var n := |logics| - 1;
    assert forall j :: 0 <= j < n ==> logics[..n][j] == logics[j];
    if j :| 0 <= j < n && logics[..n][j].isConsumed == isConsumed && logics[..n][j].tag == t {
      assert logics[j].isConsumed == isConsumed && logics[j].tag == t;
    }
    if j :| 0 <= j < |logics| && logics[j].isConsumed == isConsumed && logics[j].tag == t {
      assert j < n ==> logics[..n][j].isConsumed == isConsumed;
    }
  }

  lemma {:induction false} LogicTagsDistinct<T>(logics: seq<LogicInstance<T>>, isConsumed: bool)
    ensures Distinct(LogicTags(logics, isConsumed)) <==> NamedOnce(logics, isConsumed)
  {
    if logics != [] {
      var n, ts := |logics| - 1, LogicTags(logics, isConsumed);
      var last := logics[n];
      LogicTagsDistinct(logics[..n], isConsumed);
      LogicTagsHas(logics[..n], isConsumed, last.tag);
      if last.isConsumed == isConsumed {
        DistinctNext(ts, |ts| - 1);
        assert ts[..|ts| - 1] == LogicTags(logics[..n], isConsumed) && ts[..|ts|] == ts;
      } else {
        assert ts == LogicTags(logics[..n], isConsumed);
      }
      NamedOnceNext(logics, isConsumed);
    }
  }

  lemma NamedOnceNext<T>(logics: seq<LogicInstance<T>>, isConsumed: bool)
    requires logics != []
    ensures var n := |logics| - 1;
      NamedOnce(logics, isConsumed) <==>
        NamedOnce(logics[..n], isConsumed)
        && (logics[n].isConsumed == isConsumed ==> !Named(logics[..n], isConsumed, logics[n].tag))
  {
    var n := |logics| - 1;
    assert forall j :: 0 <= j < n ==> logics[..n][j] == logics[j];
  }

  /** With distinct resources, one for one means that every resource is named, and once. */
  lemma PairedKind<T>(logics: seq<LogicInstance<T>>, isConsumed: bool, ts: seq<T>)
    requires Distinct(ts) && forall t :: t in LogicTags(logics, isConsumed) ==> t in ts
    ensures multiset(LogicTags(logics, isConsumed)) == multiset(ts)
       <==> NamedOnce(logics, isConsumed) && forall i :: 0 <= i < |ts| ==> Named(logics, isConsumed, ts[i])
  {
    hide LogicTags, Distinct, NamedOnce, Named;
    var ls := LogicTags(logics, isConsumed);
    LogicTagsDistinct(logics, isConsumed);
    DistinctAsMultiset(ls);
    DistinctAsMultiset(ts);
    forall i | 0 <= i < |ts| ensures Named(logics, isConsumed, ts[i]) <==> ts[i] in ls {
      LogicTagsHas(logics, isConsumed, ts[i]);
    }
    if multiset(ls) == multiset(ts) {
      forall i | 0 <= i < |ts| ensures ts[i] in ls {
        assert ts[i] in multiset(ls);
      }
    }
    if Distinct(ls) && forall i :: 0 <= i < |ts| ==> ts[i] in ls {
      forall t ensures multiset(ls)[t] == multiset(ts)[t] {
        assert t in ls <==> t in ts;
        assert t in multiset(ls) <==> t in ls;
        assert t in multiset(ts) <==> t in ts;
      }
    }
  }

  // ---------------------------------------------------------------- both are the same

  lemma PowerBetween(a: nat, b: nat, n: nat)
    requires IsPowerOfTwo(a) && IsPowerOfTwo(b) && n <= a < 2 * n && n <= b < 2 * n
    ensures a == b
  {
    if a < b {
      PowersOfTwoAreApart(a, b);
    } else if b < a {
      PowersOfTwoAreApart(b, a);
    }
  }

  /** The leaves of the action tree are those of the tree over the tags, padded. */
  lemma TheActionLeaves<T>(hash: Hasher<T>, tx: Transaction<T>)
    requires WellFormed(tx)
    ensures var leaves := Window(hash, AllTags(tx), 0, ActionTreeDepth(|AllTags(tx)|));
      && ActionLeaves(hash, tx.compliance, leaves)
      && ActionRoot(hash, AllTags(tx)) == Root(hash.combine, leaves)
  {
    hide Root, IsPowerOfTwo, NodeAt;
    var n := |AllTags(tx)|;
    var d := ActionTreeDepth(n);
    NodeIsRoot(hash, AllTags(tx), d, 0);
    assert d > 0 ==> Exp2(d) == 2 * Exp2(d - 1);
  }

  lemma ActionLeavesAreUnique<T>(hash: Hasher<T>, c: Compliance<T>, xs: seq<T>, ys: seq<T>)
    requires c.consumedCount <= |c.consumed| && c.createdCount <= |c.created|
    requires ActionLeaves(hash, c, xs) && ActionLeaves(hash, c, ys)
    ensures xs == ys
  {
    hide IsPowerOfTwo;
    PowerBetween(|xs|, |ys|, c.consumedCount + c.createdCount);
    assert forall i :: 0 <= i < |xs| ==> xs[i] == ys[i];
  }

  lemma TagIsResource<T>(tx: Transaction<T>, t: T)
    requires WellFormed(tx)
    ensures t in AllTags(tx) <==> IsResource(tx.compliance, t)
  {
    var c, ts := tx.compliance, AllTags(tx);
    if i :| 0 <= i < c.consumedCount && c.consumed[i].public.tag == t {
      assert ts[i] == t;
    }
    if i :| 0 <= i < c.createdCount && c.created[i].tag == t {
      assert ts[c.consumedCount + i] == t;
    }
    if t in ts {
      var i :| 0 <= i < |ts| && ts[i] == t;
      assert if i < c.consumedCount then c.consumed[i].public.tag == t else c.created[i - c.consumedCount].tag == t;
    }
  }

  lemma RootsAgreeIs<T(!new)>(hash: Hasher<T>, tx: Transaction<T>)
    requires WellFormed(tx)
    ensures RootsAgree(tx.logics, AllTags(tx), ActionRoot(hash, AllTags(tx))) <==> RootsClaimed(hash, tx)
  {
    hide Root, ActionLeaves, AllTags, ActionRoot, IsResource;
    TheActionLeaves(hash, tx);
    var leaves := Window(hash, AllTags(tx), 0, ActionTreeDepth(|AllTags(tx)|));
    forall other | ActionLeaves(hash, tx.compliance, other) ensures other == leaves {
      ActionLeavesAreUnique(hash, tx.compliance, other, leaves);
    }
    forall l | l in tx.logics ensures l.tag in AllTags(tx) <==> IsResource(tx.compliance, l.tag) {
      TagIsResource(tx, l.tag);
    }
  }

  lemma DistinctTagsAre<T>(tx: Transaction<T>)
    requires WellFormed(tx)
    ensures var c := tx.compliance; Distinct(TagsOf(Consumptions(tx))) <==>
      forall i, j :: 0 <= i < j < c.consumedCount ==> c.consumed[i].public.tag != c.consumed[j].public.tag
    ensures var c := tx.compliance; Distinct(TagsOf(Creations(tx))) <==>
      forall i, j :: 0 <= i < j < c.createdCount ==> c.created[i].tag != c.created[j].tag
  {
    var c, xs, ys := tx.compliance, TagsOf(Consumptions(tx)), TagsOf(Creations(tx));
    assert forall i :: 0 <= i < c.consumedCount ==> xs[i] == c.consumed[i].public.tag;
    assert forall i :: 0 <= i < c.createdCount ==> ys[i] == c.created[i].tag;
  }

  lemma ProvenIs<T>(v: Verifiers<T>, circuits: set<T>, tx: Transaction<T>, l: LogicInstance<T>)
    requires WellFormed(tx) && Distinct(TagsOf(Consumptions(tx))) && Distinct(TagsOf(Creations(tx)))
    ensures LogicHolds(v, circuits, l, RefsFor(tx, l.isConsumed)) <==> Proven(v, circuits, tx.compliance, l)
  {
    hide Distinct, LogicHolds, ProvenFor;
    var c, ps, qs := tx.compliance, Consumptions(tx), Creations(tx);
    HoldsFor(v, circuits, l, ps);
    HoldsFor(v, circuits, l, qs);
    assert forall i :: 0 <= i < c.consumedCount ==> ps[i] == c.consumed[i].public;
    assert forall i :: 0 <= i < c.createdCount ==> qs[i] == c.created[i];
  }

  /** Proven instances name resources of their kind. */
  lemma ProvenTags<T>(v: Verifiers<T>, circuits: set<T>, tx: Transaction<T>, isConsumed: bool)
    requires WellFormed(tx) && LogicsHold(v, circuits, tx)
    ensures forall t :: t in LogicTags(tx.logics, isConsumed) ==>
      t in TagsOf(if isConsumed then Consumptions(tx) else Creations(tx))
  {
    hide LogicTags, TagsOf, Consumptions, Creations, Refs;
    forall t | t in LogicTags(tx.logics, isConsumed)
      ensures t in TagsOf(if isConsumed then Consumptions(tx) else Creations(tx))
    {
      LogicTagsHas(tx.logics, isConsumed, t);
      var j :| 0 <= j < |tx.logics| && tx.logics[j].isConsumed == isConsumed && tx.logics[j].tag == t;
      assert LogicHolds(v, circuits, tx.logics[j], RefsFor(tx, isConsumed));
      RefsKeys(if isConsumed then Consumptions(tx) else Creations(tx));
    }
  }

  lemma PairedIs<T>(v: Verifiers<T>, circuits: set<T>, tx: Transaction<T>)
    requires WellFormed(tx) && LogicsHold(v, circuits, tx)
    requires Distinct(TagsOf(Consumptions(tx))) && Distinct(TagsOf(Creations(tx)))
    ensures var c := tx.compliance; Paired(tx) <==>
      && NamedOnce(tx.logics, true) && NamedOnce(tx.logics, false)
      && (forall i :: 0 <= i < c.consumedCount ==> Named(tx.logics, true, c.consumed[i].public.tag))
      && (forall i :: 0 <= i < c.createdCount ==> Named(tx.logics, false, c.created[i].tag))
  {
    hide Distinct, LogicTags, Named, NamedOnce, LogicsHold;
    var c, xs, ys := tx.compliance, TagsOf(Consumptions(tx)), TagsOf(Creations(tx));
    ProvenTags(v, circuits, tx, true);
    ProvenTags(v, circuits, tx, false);
    PairedKind(tx.logics, true, xs);
    PairedKind(tx.logics, false, ys);
    assert forall i :: 0 <= i < c.consumedCount ==> xs[i] == c.consumed[i].public.tag;
    assert forall i :: 0 <= i < c.createdCount ==> ys[i] == c.created[i].tag;
  }

  lemma LogicsHoldIs<T>(v: Verifiers<T>, circuits: set<T>, tx: Transaction<T>)
    requires WellFormed(tx) && Distinct(TagsOf(Consumptions(tx))) && Distinct(TagsOf(Creations(tx)))
    ensures LogicsHold(v, circuits, tx) <==> forall l :: l in tx.logics ==> Proven(v, circuits, tx.compliance, l)
  {
    hide Distinct, LogicHolds, Proven, RefsFor;
    forall l | l in tx.logics
      ensures LogicHolds(v, circuits, l, RefsFor(tx, l.isConsumed)) <==> Proven(v, circuits, tx.compliance, l)
    {
      ProvenIs(v, circuits, tx, l);
    }
  }

  /** The checks of `submit` accept exactly the acceptable transactions. */
  lemma SoundIsAcceptable<T(!new), N>(v: Verifiers<T>, hash: Hasher<T>, cmtNode: T -> N, anchors: set<N>,
      circuits: set<T>, tx: Transaction<T>)
    ensures Sound(v, hash, cmtNode, anchors, circuits, tx) <==> Acceptable(v, hash, cmtNode, anchors, circuits, tx)
  {
    hide RootsAgree, RootsClaimed, Distinct, Paired, LogicsHold, Proven, Named, NamedOnce, TagsOf, Consumptions,
      Creations, ActionRoot, AllTags;
    if WellFormed(tx) {
      var c := tx.compliance;
      assert forall i :: 0 <= i < c.consumedCount ==> c.consumed[..c.consumedCount][i] == c.consumed[i];
      RootsAgreeIs(hash, tx);
      DistinctTagsAre(tx);
      if Distinct(TagsOf(Consumptions(tx))) && Distinct(TagsOf(Creations(tx))) {
        LogicsHoldIs(v, circuits, tx);
        if LogicsHold(v, circuits, tx) {
          PairedIs(v, circuits, tx);
        }
      }
    }
  }

  lemma AcceptableIsFormed<T(!new), N>(v: Verifiers<T>, hash: Hasher<T>, cmtNode: T -> N, anchors: set<N>,
      circuits: set<T>, tx: Transaction<T>)
    ensures Acceptable(v, hash, cmtNode, anchors, circuits, tx) ==> WellFormed(tx)
  {
  }
}
