/** `ShieldedPool::submit`, which decides whether a transaction enters the pool, and the
    reconstruction of the commitment tree by `ClientState::synchronize`. Signatures and proofs
    are judged by arbitrary verifiers. */
module ShieldedPools {
  import opened CommitmentTrees
  import opened Powers
  import opened Transactions
  import opened Wrappers

  // ---------------------------------------------------------------- the checks of `submit`

  /** The action roots claimed by the logic instances. */
  method CheckActionRoots<T(==)>(hash: Hasher<T>, tx: Transaction<T>) returns (ok: bool)
    requires WellFormed(tx)
    ensures ok <==> RootsAgree(tx.logics, AllTags(tx), ActionRoot(hash, AllTags(tx)))
  {
    var tags := [];
    for i := 0 to tx.compliance.consumedCount
      invariant tags == TagsOf(Consumptions(tx))[..i]
    {
      tags := tags + [tx.compliance.consumed[i].public.tag];
    }
    for i := 0 to tx.compliance.createdCount
      invariant tags == TagsOf(Consumptions(tx)) + TagsOf(Creations(tx))[..i]
    {
      tags := tags + [tx.compliance.created[i].tag];
    }
    assert tags == AllTags(tx);
    var depth := if |tags| == 1 then 0 else Log2Floor(|tags| - 1) + 1;
    var tree := CommitmentTree.New(hash, depth, tags);
    var root := tree.Root();
    for i := 0 to |tx.logics|
      invariant RootsAgree(tx.logics[..i], tags, root)
    {
      if tx.logics[i].tag in tags && tx.logics[i].actionRoot != root {
        assert tx.logics[i] in tx.logics;
        return false;
      }
    }
    assert tx.logics[..|tx.logics|] == tx.logics;
    return true;
  }

  /** The nullifiers: all different, under known anchors. */
  method TrackNullifiers<T(==), N(==)>(cmtNode: T -> N, anchors: set<N>, tx: Transaction<T>)
      returns (error: Option<Reason>, nullifiers: map<T, T>)
    requires WellFormed(tx)
    ensures error.None? <==> Distinct(TagsOf(Consumptions(tx))) && AnchorsKnown(cmtNode, anchors,
        tx.compliance.consumed[..tx.compliance.consumedCount])
    ensures error.Some? ==> error.value in {DuplicateNullifier, NonExistentAnchor}
    ensures error == Some(DuplicateNullifier) ==> !Distinct(TagsOf(Consumptions(tx)))
    ensures error == Some(NonExistentAnchor) ==> !AnchorsKnown(cmtNode, anchors,
        tx.compliance.consumed[..tx.compliance.consumedCount])
    ensures error.None? ==> nullifiers == RefsFor(tx, true)
  {
    ghost var ps, cs := Consumptions(tx), tx.compliance.consumed[..tx.compliance.consumedCount];
    nullifiers := map[];
    for i := 0 to tx.compliance.consumedCount
      invariant nullifiers == Refs(ps[..i])
      invariant Distinct(TagsOf(ps)[..i]) && AnchorsKnown(cmtNode, anchors, cs[..i])
    {
      var consumed := tx.compliance.consumed[i];
      var p := consumed.public;
      assert p == ps[i] && consumed == cs[i];
      NextTag(ps, i);
      if p.tag in nullifiers {
        return Some(DuplicateNullifier), nullifiers;
      } else if cmtNode(consumed.treeRoot) !in anchors {
        return Some(NonExistentAnchor), nullifiers;
      }
      nullifiers := nullifiers[p.tag := p.logicRef];
    }
    assert ps[..|ps|] == ps && TagsOf(ps)[..|ps|] == TagsOf(ps) && cs[..|ps|] == cs;
    return None, nullifiers;
  }

  /** A tag is a repetition exactly if the map built so far has it. */
  lemma NextTag<T>(ps: seq<Public<T>>, i: nat)
    requires i < |ps| && Distinct(TagsOf(ps)[..i])
    ensures Refs(ps[..i + 1]) == Refs(ps[..i])[ps[i].tag := ps[i].logicRef]
    ensures ps[i].tag !in Refs(ps[..i]) <==> Distinct(TagsOf(ps)[..i + 1])
    ensures ps[i].tag in Refs(ps[..i]) ==> !Distinct(TagsOf(ps))
  {
    assert ps[..i + 1][..i] == ps[..i];
    RefsKeys(ps[..i]);
    assert TagsOf(ps[..i]) == TagsOf(ps)[..i];
    DistinctNext(TagsOf(ps), i);
    if ps[i].tag in Refs(ps[..i]) {
      var j :| 0 <= j < i && TagsOf(ps)[j] == ps[i].tag;
      assert TagsOf(ps)[j] == TagsOf(ps)[i];
    }
  }

  /** The commitments: all different. */
  method TrackCommitments<T(==)>(tx: Transaction<T>) returns (ok: bool, commitments: map<T, T>)
    requires WellFormed(tx)
    ensures ok <==> Distinct(TagsOf(Creations(tx)))
    ensures ok ==> commitments == RefsFor(tx, false)
  {
    ghost var ps := Creations(tx);
    commitments := map[];
    for i := 0 to tx.compliance.createdCount
      invariant commitments == Refs(ps[..i]) && Distinct(TagsOf(ps)[..i])
    {
      var p := tx.compliance.created[i];
      assert p == ps[i];
      NextTag(ps, i);
      if p.tag in commitments {
        return false, commitments;
      }
      commitments := commitments[p.tag := p.logicRef];
    }
    assert ps[..|ps|] == ps && TagsOf(ps)[..|ps|] == TagsOf(ps);
    return true, commitments;
  }

  /** The tags met so far and the entries that are left make up the compliance instance. */
  ghost predicate Accounted<T>(logics: seq<LogicInstance<T>>, isConsumed: bool, left: map<T, T>, refs: map<T, T>) {
    && multiset(LogicTags(logics, isConsumed)) + multiset(left.Keys) == multiset(refs.Keys)
    && left.Keys <= refs.Keys && forall t :: t in left ==> left[t] == refs[t]
  }

  /** Taking the entry of the next logic instance; without one the pairing fails. */
  lemma TakeTag<T>(logics: seq<LogicInstance<T>>, i: nat, left: map<T, T>, refs: map<T, T>)
    requires i < |logics| && Accounted(logics[..i], logics[i].isConsumed, left, refs)
    ensures var l := logics[i];
      && (l.tag in left ==> Accounted(logics[..i + 1], l.isConsumed, left - {l.tag}, refs))
      && (l.tag !in left ==> multiset(LogicTags(logics, l.isConsumed)) != multiset(refs.Keys))
  {
    hide LogicTags;
    var l := logics[i];
    var before, whole := LogicTags(logics[..i], l.isConsumed), LogicTags(logics, l.isConsumed);
    LogicTagsNext(logics, l.isConsumed, i);
    if l.tag in left {
      assert left.Keys == (left - {l.tag}).Keys + {l.tag};
      assert multiset(left.Keys) == multiset((left - {l.tag}).Keys) + multiset{l.tag};
      assert multiset(before + [l.tag]) == multiset(before) + multiset{l.tag};
    } else {
      LogicTagsPrefix(logics, l.isConsumed, i + 1);
      OneTooMany(whole, before, l.tag);
      assert multiset(refs.Keys)[l.tag] == multiset(before)[l.tag];
    }
  }

  lemma OneTooMany<T>(whole: seq<T>, before: seq<T>, t: T)
    requires before + [t] <= whole
    ensures multiset(whole)[t] > multiset(before)[t]
  {
    var rest := whole[|before| + 1..];
    assert whole == (before + [t]) + rest;
    assert multiset(whole)[t] == multiset(before)[t] + 1 + multiset(rest)[t];
  }

  /** An instance of the other kind takes nothing. */
  lemma SkipTag<T>(logics: seq<LogicInstance<T>>, i: nat, left: map<T, T>, refs: map<T, T>)
    requires i < |logics| && Accounted(logics[..i], !logics[i].isConsumed, left, refs)
    ensures Accounted(logics[..i + 1], !logics[i].isConsumed, left, refs)
  {
    hide LogicTags;
    LogicTagsNext(logics, !logics[i].isConsumed, i);
  }

  ghost function UnpairedReason(isConsumed: bool): Reason {
    if isConsumed then UnpairedNullifier else UnpairedCommitment
  }

  /** What is wrong with one logic instance, given the entries that it may take. */
  ghost function LogicError<T>(v: Verifiers<T>, circuits: set<T>, l: LogicInstance<T>, left: map<T, T>)
    : Option<Reason>
  {
    if l.tag !in left then Some(UnpairedReason(l.isConsumed))
    else if left[l.tag] !in circuits then Some(CircuitNotRegistered)
    else
      match v.logic(left[l.tag], l)
      case Verified => None
      case Refuted => Some(LogicProof)
      case Failed => Some(BarretenbergError)
  }

  /** What is wrong with instance `i`: it names no resource, or one that an earlier instance of
      its kind names already; its logic is not registered; or its proof does not hold. */
  ghost function InstanceError<T>(v: Verifiers<T>, circuits: set<T>, tx: Transaction<T>, i: nat): Option<Reason>
    requires WellFormed(tx) && i < |tx.logics|
  {
    var l := tx.logics[i];
    if l.tag in LogicTags(tx.logics[..i], l.isConsumed) then Some(UnpairedReason(l.isConsumed))
    else LogicError(v, circuits, l, RefsFor(tx, l.isConsumed))
  }

  /** The first instance with an error, and the error. */
  ghost predicate FailsFirst<T>(v: Verifiers<T>, circuits: set<T>, tx: Transaction<T>, i: nat, reason: Reason)
    requires WellFormed(tx)
  {
    && i < |tx.logics| && InstanceError(v, circuits, tx, i) == Some(reason)
    && forall j :: 0 <= j < i ==> InstanceError(v, circuits, tx, j) == None
  }

  /** No instance has an error, but a nullifier, or else a commitment, is named by none. */
  ghost predicate LeftOver<T>(v: Verifiers<T>, circuits: set<T>, tx: Transaction<T>, reason: Reason)
    requires WellFormed(tx)
  {
    && (forall j :: 0 <= j < |tx.logics| ==> InstanceError(v, circuits, tx, j) == None)
    && reason == UnpairedReason(!AllNamed(tx, true)) && !(AllNamed(tx, true) && AllNamed(tx, false))
  }

  ghost predicate AllNamed<T>(tx: Transaction<T>, isConsumed: bool)
    requires WellFormed(tx)
  {
    forall t :: t in RefsFor(tx, isConsumed) ==> t in LogicTags(tx.logics, isConsumed)
  }

  /** The reason for which the logic instances are refused. */
  ghost predicate LogicsFail<T>(v: Verifiers<T>, circuits: set<T>, tx: Transaction<T>, reason: Reason)
    requires WellFormed(tx)
  {
    (exists i :: FailsFirst(v, circuits, tx, i, reason)) || LeftOver(v, circuits, tx, reason)
  }

  /** The entries left for a kind are those that no instance so far has taken. */
  lemma LeftAre<T>(logics: seq<LogicInstance<T>>, isConsumed: bool, left: map<T, T>, refs: map<T, T>, t: T)
    requires Accounted(logics, isConsumed, left, refs)
    ensures t in left <==> t in refs && t !in LogicTags(logics, isConsumed)
    ensures t in left ==> left[t] == refs[t]
  {
    hide LogicTags;
    assert multiset(refs.Keys)[t] == multiset(LogicTags(logics, isConsumed))[t] + multiset(left.Keys)[t];
  }

  /** One logic instance against the entries that are left for its kind. */
  method CheckLogic<T(==)>(v: Verifiers<T>, circuits: set<T>, l: LogicInstance<T>, left: map<T, T>)
      returns (error: Option<Reason>, left': map<T, T>)
    ensures error == LogicError(v, circuits, l, left)
    ensures error.None? <==> LogicHolds(v, circuits, l, left)
    ensures error.None? ==> left' == left - {l.tag}
    ensures l.tag !in left <==> error == Some(if l.isConsumed then UnpairedNullifier else UnpairedCommitment)
    ensures l.tag in left && error.Some? ==> error.value in {CircuitNotRegistered, LogicProof, BarretenbergError}
  {
    left' := left;
    if l.tag !in left {
      return Some(if l.isConsumed then UnpairedNullifier else UnpairedCommitment), left';
    }
    var hash := left[l.tag];
    left' := left - {l.tag};
    if hash !in circuits {
      return Some(CircuitNotRegistered), left';
    }
    match v.logic(hash, l)
    case Verified => return None, left';
    case Refuted => return Some(LogicProof), left';
    case Failed => return Some(BarretenbergError), left';
  }

  /** The logic instances: each names a resource of the compliance instance that no other
      names, its logic is registered and its proof holds; and no resource is left over. */
  method CheckLogics<T(==)>(v: Verifiers<T>, circuits: set<T>, tx: Transaction<T>,
      trackedNullifiers: map<T, T>, trackedCommitments: map<T, T>) returns (error: Option<Reason>)
    requires WellFormed(tx) && trackedNullifiers == RefsFor(tx, true) && trackedCommitments == RefsFor(tx, false)
    requires Distinct(TagsOf(Consumptions(tx))) && Distinct(TagsOf(Creations(tx)))
    ensures error.None? <==> Paired(tx) && LogicsHold(v, circuits, tx)
    ensures error in {Some(UnpairedNullifier), Some(UnpairedCommitment)} ==> !Paired(tx)
    ensures error in {Some(CircuitNotRegistered), Some(LogicProof), Some(BarretenbergError)} ==>
      !LogicsHold(v, circuits, tx)
    ensures error.Some? ==> LogicsFail(v, circuits, tx, error.value)
    ensures error.Some? ==>
      error.value in {UnpairedNullifier, UnpairedCommitment, CircuitNotRegistered, LogicProof, BarretenbergError}
  {
    hide LogicTags, Refs, Distinct, Accounted, LogicHolds, LogicsHold, Paired, TagsOf, Consumptions, Creations,
      InstanceError, LogicError, LeftOver, AllNamed;
    var nullifiers, commitments := trackedNullifiers, trackedCommitments;
    NothingTaken(tx);
    for i := 0 to |tx.logics|
      invariant Accounted(tx.logics[..i], true, nullifiers, RefsFor(tx, true))
      invariant Accounted(tx.logics[..i], false, commitments, RefsFor(tx, false))
      invariant forall l :: l in tx.logics[..i] ==> LogicHolds(v, circuits, l, RefsFor(tx, l.isConsumed))
      invariant forall j :: 0 <= j < i ==> InstanceError(v, circuits, tx, j) == None
    {
      var l := tx.logics[i];
      var left := if l.isConsumed then nullifiers else commitments;
      TakeNext(v, circuits, tx, i, left, if l.isConsumed then commitments else nullifiers);
      error, left := CheckLogic(v, circuits, l, left);
      if error.Some? {
        assert FailsFirst(v, circuits, tx, i, error.value);
        return;
      }
      if l.isConsumed {
        nullifiers := left;
      } else {
        commitments := left;
      }
    }
    assert tx.logics[..|tx.logics|] == tx.logics;
    AllTaken(v, circuits, tx, nullifiers, commitments);
    if nullifiers != map[] || commitments != map[] {
      SomeLeft(v, circuits, tx, nullifiers, commitments);
    }
    if nullifiers != map[] {
      return Some(UnpairedNullifier);
    } else if commitments != map[] {
      return Some(UnpairedCommitment);
    }
    return None;
  }

  lemma NothingTaken<T>(tx: Transaction<T>)
    requires WellFormed(tx)
    ensures Accounted(tx.logics[..0], true, RefsFor(tx, true), RefsFor(tx, true))
    ensures Accounted(tx.logics[..0], false, RefsFor(tx, false), RefsFor(tx, false))
  {
    hide Refs;
    assert tx.logics[..0] == [];
  }

  /** The next instance, if it holds against the entries that are left, leaves the rest; if it
      does not, the pairing or the proof fails for the whole transaction. */
  lemma TakeNext<T>(v: Verifiers<T>, circuits: set<T>, tx: Transaction<T>, i: nat, left: map<T, T>, other: map<T, T>)
    requires WellFormed(tx) && Distinct(TagsOf(Consumptions(tx))) && Distinct(TagsOf(Creations(tx)))
    requires i < |tx.logics|
    requires Accounted(tx.logics[..i], tx.logics[i].isConsumed, left, RefsFor(tx, tx.logics[i].isConsumed))
    requires Accounted(tx.logics[..i], !tx.logics[i].isConsumed, other, RefsFor(tx, !tx.logics[i].isConsumed))
    ensures var l := tx.logics[i];
      && (l.tag !in left ==> !Paired(tx))
      && (l.tag in left && !LogicHolds(v, circuits, l, left) ==> !LogicsHold(v, circuits, tx))
      && (LogicHolds(v, circuits, l, left) ==>
            && LogicHolds(v, circuits, l, RefsFor(tx, l.isConsumed))
            && Accounted(tx.logics[..i + 1], l.isConsumed, left - {l.tag}, RefsFor(tx, l.isConsumed)))
      && Accounted(tx.logics[..i + 1], !l.isConsumed, other, RefsFor(tx, !l.isConsumed))
      && LogicError(v, circuits, l, left) == InstanceError(v, circuits, tx, i)
  {
    hide LogicTags, Refs, Distinct;
    LeftAre(tx.logics[..i], tx.logics[i].isConsumed, left, RefsFor(tx, tx.logics[i].isConsumed), tx.logics[i].tag);
    var l := tx.logics[i];
    assert l in tx.logics;
    RefsKeys(Consumptions(tx));
    RefsKeys(Creations(tx));
    TakeTag(tx.logics, i, left, RefsFor(tx, l.isConsumed));
    SkipTag(tx.logics, i, other, RefsFor(tx, !l.isConsumed));
  }

  lemma AllTaken<T>(v: Verifiers<T>, circuits: set<T>, tx: Transaction<T>, nullifiers: map<T, T>,
      commitments: map<T, T>)
    requires WellFormed(tx) && Distinct(TagsOf(Consumptions(tx))) && Distinct(TagsOf(Creations(tx)))
    requires Accounted(tx.logics, true, nullifiers, RefsFor(tx, true))
    requires Accounted(tx.logics, false, commitments, RefsFor(tx, false))
    requires forall l :: l in tx.logics ==> LogicHolds(v, circuits, l, RefsFor(tx, l.isConsumed))
    ensures LogicsHold(v, circuits, tx)
    ensures Paired(tx) <==> nullifiers == map[] && commitments == map[]
  {
    hide LogicTags, Refs, Distinct;
    RefsKeys(Consumptions(tx));
    RefsKeys(Creations(tx));
    NothingLeft(tx.logics, true, nullifiers, RefsFor(tx, true));
    NothingLeft(tx.logics, false, commitments, RefsFor(tx, false));
  }

  lemma SomeLeft<T>(v: Verifiers<T>, circuits: set<T>, tx: Transaction<T>,
      nullifiers: map<T, T>, commitments: map<T, T>)
    requires WellFormed(tx) && (nullifiers != map[] || commitments != map[])
    requires Accounted(tx.logics, true, nullifiers, RefsFor(tx, true))
    requires Accounted(tx.logics, false, commitments, RefsFor(tx, false))
    requires forall j :: 0 <= j < |tx.logics| ==> InstanceError(v, circuits, tx, j) == None
    ensures LeftOver(v, circuits, tx, if nullifiers != map[] then UnpairedNullifier else UnpairedCommitment)
  {
    hide LogicTags, Refs, RefsFor, InstanceError;
    NamedIfNoneLeft(tx, true, nullifiers);
    NamedIfNoneLeft(tx, false, commitments);
  }

  lemma NamedIfNoneLeft<T>(tx: Transaction<T>, isConsumed: bool, left: map<T, T>)
    requires WellFormed(tx) && Accounted(tx.logics, isConsumed, left, RefsFor(tx, isConsumed))
    ensures AllNamed(tx, isConsumed) <==> left == map[]
  {
    hide LogicTags, Refs, RefsFor, Accounted;
    if left != map[] {
      var t :| t in left;
      LeftAre(tx.logics, isConsumed, left, RefsFor(tx, isConsumed), t);
    } else {
      forall t | t in RefsFor(tx, isConsumed) ensures t in LogicTags(tx.logics, isConsumed) {
        LeftAre(tx.logics, isConsumed, left, RefsFor(tx, isConsumed), t);
      }
    }
  }

  lemma NoLogicTags<T>()
    ensures LogicTags<T>([], true) == LogicTags<T>([], false) == []
  {
  }

  lemma NothingLeft<T>(logics: seq<LogicInstance<T>>, isConsumed: bool, left: map<T, T>, refs: map<T, T>)
    requires Accounted(logics, isConsumed, left, refs)
    ensures left == map[] <==> multiset(LogicTags(logics, isConsumed)) == multiset(refs.Keys)
  {
    hide LogicTags;
    if left != map[] {
      var t :| t in left;
      assert multiset(left.Keys)[t] == 1;
    }
  }

  // ---------------------------------------------------------------- the pool

  /** The root of the tree over the commitments, as `CommitmentTree::root` returns it. */
  ghost function AnchorOf<N>(hash: Hasher<N>, commitments: seq<N>): N {
    TopNode(hash, commitments, MAX_TREE_DEPTH)
  }

  lemma EmptyAnchor<N>(hash: Hasher<N>)
    ensures AnchorOf(hash, []) == EmptyRoot(hash, MAX_TREE_DEPTH)
  {
    WidthOfNothing(MAX_TREE_DEPTH);
    NodeBeyond(hash, [], MAX_TREE_DEPTH, 0);
    hide NodeAt, EmptyRoot;
  }

  /** The same leaves once both are padded to the capacity of the tree. */
  ghost predicate SamePadded<N>(hash: Hasher<N>, xs: seq<N>, ys: seq<N>) {
    forall pos :: 0 <= pos < Exp2(MAX_TREE_DEPTH) ==> LeafAt(hash, xs, pos) == LeafAt(hash, ys, pos)
  }

  /** Two anchors agree exactly if the padded commitments do. */
  lemma AnchorsAgree<N(!new)>(hash: Hasher<N>, xs: seq<N>, ys: seq<N>)
    requires Injective(hash) && |xs| <= Exp2(MAX_TREE_DEPTH) && |ys| <= Exp2(MAX_TREE_DEPTH)
    ensures AnchorOf(hash, xs) == AnchorOf(hash, ys) <==> SamePadded(hash, xs, ys)
  {
    hide NodeAt, Exp2, TopNode, LeafAt, Injective;
    TopNodeIsRoot(hash, xs, MAX_TREE_DEPTH);
    TopNodeIsRoot(hash, ys, MAX_TREE_DEPTH);
    OneBlock(Exp2(MAX_TREE_DEPTH));
    if AnchorOf(hash, xs) == AnchorOf(hash, ys) {
      forall pos | 0 <= pos < Exp2(MAX_TREE_DEPTH) ensures LeafAt(hash, xs, pos) == LeafAt(hash, ys, pos) {
        NodeDeterminesLeaves(hash, xs, ys, MAX_TREE_DEPTH, 0, pos);
      }
    }
    if SamePadded(hash, xs, ys) {
      LeavesDetermineNode(hash, xs, ys, MAX_TREE_DEPTH, 0);
    }
  }

  lemma OneBlock(m: nat)
    ensures 0 * m == 0 && (0 + 1) * m == m
  {
  }

  /** The nullifiers spent and the commitments created by a sequence of transactions. */
  function Spent<T>(txs: seq<Transaction<T>>): seq<T> {
    if txs == [] then [] else Spent(txs[..|txs| - 1]) + LogicTags(txs[|txs| - 1].logics, true)
  }

  function CreatedIn<T>(txs: seq<Transaction<T>>): seq<T> {
    if txs == [] then [] else CreatedIn(txs[..|txs| - 1]) + LogicTags(txs[|txs| - 1].logics, false)
  }

  function Nodes<T, N>(cmtNode: T -> N, tags: seq<T>): (nodes: seq<N>)
    ensures |nodes| == |tags|
  {
    seq(|tags|, i requires 0 <= i < |tags| => cmtNode(tags[i]))
  }

  lemma NodesAppend<T, N>(cmtNode: T -> N, xs: seq<T>, ys: seq<T>)
    ensures Nodes(cmtNode, xs + ys) == Nodes(cmtNode, xs) + Nodes(cmtNode, ys)
  {
  }

  ghost function SetOf<T>(ts: seq<T>): set<T> {
    set t | t in ts
  }

  lemma DistinctConcat<T>(xs: seq<T>, ys: seq<T>)
    requires Distinct(xs) && Distinct(ys) && forall t :: t in xs ==> t !in ys
    ensures Distinct(xs + ys)
  {
    var both := xs + ys;
    forall i, j | 0 <= i < j < |both| ensures both[i] != both[j] {
      if i < |xs| <= j {
        assert both[i] in xs && both[j] in ys;
      }
    }
  }

  /** A pairing of distinct tags has distinct tags. */
  lemma PairedDistinct<T>(tx: Transaction<T>)
    requires WellFormed(tx) && Paired(tx) && Distinct(TagsOf(Consumptions(tx)))
    ensures Distinct(LogicTags(tx.logics, true))
  {
    hide LogicTags, Distinct;
    DistinctAsMultiset(TagsOf(Consumptions(tx)));
    DistinctAsMultiset(LogicTags(tx.logics, true));
  }

  /** The effect of the first `k` logic instances on the pool. */
  ghost predicate Applied<T, N>(cmtNode: T -> N, logics: seq<LogicInstance<T>>, k: nat,
      nullifiers: set<T>, commitments: seq<N>, nullifiers': set<T>, commitments': seq<N>)
    requires k <= |logics|
  {
    && nullifiers' == nullifiers + SetOf(LogicTags(logics[..k], true))
    && commitments' == commitments + Nodes(cmtNode, LogicTags(logics[..k], false))
  }

  /** A transaction was refused because instance `k` spends a nullifier of the pool, after the
      instances before it had already taken effect. */
  ghost predicate Torn<T, N>(cmtNode: T -> N, logics: seq<LogicInstance<T>>, k: nat,
      nullifiers: set<T>, commitments: seq<N>, nullifiers': set<T>, commitments': seq<N>)
  {
    && k < |logics| && logics[k].isConsumed && logics[k].tag in nullifiers
    && Fresh(nullifiers, logics[..k])
    && Applied(cmtNode, logics, k, nullifiers, commitments, nullifiers', commitments')
  }

  /** The first instance that spends one of the nullifiers; the number of instances if none does. */
  function FirstSpent<T(==)>(nullifiers: set<T>, logics: seq<LogicInstance<T>>): (k: nat)
    ensures k <= |logics|
    ensures k < |logics| ==> logics[k].isConsumed && logics[k].tag in nullifiers
  {
    if logics == [] then 0
    else
      var n := |logics| - 1;
      var k := FirstSpent(nullifiers, logics[..n]);
      if k < n || (logics[n].isConsumed && logics[n].tag in nullifiers) then k else n + 1
  }

  lemma {:induction false} ConsumedTag<T>(logics: seq<LogicInstance<T>>, k: nat, j: nat)
    requires j < k <= |logics| && logics[j].isConsumed
    ensures logics[j].tag in LogicTags(logics[..k], true)
  {
    assert logics[..k][..k - 1] == logics[..k - 1];
    if j < k - 1 {
      ConsumedTag(logics, k - 1, j);
    }
  }

  lemma {:induction false} FirstSpentIsFirst<T>(nullifiers: set<T>, logics: seq<LogicInstance<T>>)
    ensures Fresh(nullifiers, logics[..FirstSpent(nullifiers, logics)])
  {
    if logics != [] {
      var n := |logics| - 1;
      FirstSpentIsFirst(nullifiers, logics[..n]);
      var k := FirstSpent(nullifiers, logics[..n]);
      assert logics[..n][..k] == logics[..k];
      assert logics[..n + 1] == logics;
    }
  }

  lemma FirstSpentIs<T>(nullifiers: set<T>, logics: seq<LogicInstance<T>>, k: nat)
    requires k <= |logics| && Fresh(nullifiers, logics[..k])
    requires k < |logics| ==> logics[k].isConsumed && logics[k].tag in nullifiers
    ensures FirstSpent(nullifiers, logics) == k
  {
    hide LogicTags;
    var first := FirstSpent(nullifiers, logics);
    FirstSpentIsFirst(nullifiers, logics);
    if first < k {
      ConsumedTag(logics, k, first);
    } else if k < first {
      ConsumedTag(logics, first, k);
    }
  }

  lemma TornAt<T, N>(cmtNode: T -> N, logics: seq<LogicInstance<T>>, k: nat,
      nullifiers: set<T>, commitments: seq<N>, nullifiers': set<T>, commitments': seq<N>)
    requires Torn(cmtNode, logics, k, nullifiers, commitments, nullifiers', commitments')
    ensures k == FirstSpent(nullifiers, logics)
  {
    hide Fresh, Applied, FirstSpent;
    FirstSpentIs(nullifiers, logics, k);
  }

  /** Such a refusal leaves the pool as it was exactly if the first instance is the culprit. */
  lemma TornIsAtomic<T, N>(cmtNode: T -> N, logics: seq<LogicInstance<T>>, k: nat,
      nullifiers: set<T>, commitments: seq<N>, nullifiers': set<T>, commitments': seq<N>)
    requires Torn(cmtNode, logics, k, nullifiers, commitments, nullifiers', commitments')
    ensures nullifiers' == nullifiers && commitments' == commitments
       <==> logics[0].isConsumed && logics[0].tag in nullifiers
  {
    if k > 0 {
      FirstTag(logics[..k]);
    }
  }

  lemma FirstTag<T>(logics: seq<LogicInstance<T>>)
    requires logics != []
    ensures logics[0].tag in LogicTags(logics, logics[0].isConsumed)
  {
    hide LogicTags;
    var kind := logics[0].isConsumed;
    LogicTagsNext(logics, kind, 0);
    LogicTagsPrefix(logics, kind, 1);
    var one := LogicTags(logics[..1], kind);
    assert one[|one| - 1] == LogicTags(logics, kind)[|one| - 1];
  }

  /** The next instance extends what was applied, or the transaction is torn there. */
  lemma ApplyNext<T, N>(cmtNode: T -> N, logics: seq<LogicInstance<T>>, k: nat,
      nullifiers: set<T>, commitments: seq<N>, nullifiers': set<T>, commitments': seq<N>)
    requires k < |logics| && Distinct(LogicTags(logics, true)) && Fresh(nullifiers, logics[..k])
    requires Applied(cmtNode, logics, k, nullifiers, commitments, nullifiers', commitments')
    ensures var l := logics[k];
      if !l.isConsumed then
        && Fresh(nullifiers, logics[..k + 1])
        && Applied(cmtNode, logics, k + 1, nullifiers, commitments, nullifiers', commitments' + [cmtNode(l.tag)])
      else if l.tag in nullifiers' then
        && !Fresh(nullifiers, logics)
        && Torn(cmtNode, logics, k, nullifiers, commitments, nullifiers', commitments')
      else
        && Fresh(nullifiers, logics[..k + 1])
        && Applied(cmtNode, logics, k + 1, nullifiers, commitments, nullifiers' + {l.tag}, commitments')
  {
    hide LogicTags, Distinct;
    var l, all, before := logics[k], LogicTags(logics, true), LogicTags(logics[..k], true);
    LogicTagsNext(logics, true, k);
    LogicTagsNext(logics, false, k);
    if l.isConsumed {
      LogicTagsPrefix(logics, true, k + 1);
      var n := |before|;
      assert before + [l.tag] == all[..n + 1];
      assert all[n] == l.tag && all[..n] == before;
      DistinctUpTo(all, n + 1);
      DistinctNext(all, n);
      SetOfConcat(before, [l.tag]);
      assert SetOf([l.tag]) == {l.tag};
    } else {
      NodesAppend(cmtNode, LogicTags(logics[..k], false), [l.tag]);
    }
  }

  lemma NothingApplied<T, N>(cmtNode: T -> N, logics: seq<LogicInstance<T>>, nullifiers: set<T>, commitments: seq<N>)
    ensures Fresh(nullifiers, logics[..0])
    ensures Applied(cmtNode, logics, 0, nullifiers, commitments, nullifiers, commitments)
  {
    assert logics[..0] == [];
    assert SetOf<T>([]) == {};
  }

  lemma DistinctUpTo<T>(ts: seq<T>, n: nat)
    requires n <= |ts| && Distinct(ts)
    ensures Distinct(ts[..n])
  {
  }

  /** What one more transaction adds to the record. */
  lemma Recorded<T, N>(cmtNode: T -> N, txs: seq<Transaction<T>>, tx: Transaction<T>)
    ensures var txs' := txs + [tx.(isSigned := false)];
      && Spent(txs') == Spent(txs) + LogicTags(tx.logics, true)
      && Nodes(cmtNode, CreatedIn(txs')) == Nodes(cmtNode, CreatedIn(txs)) + Nodes(cmtNode, LogicTags(tx.logics, false))
  {
    hide LogicTags;
    var txs' := txs + [tx.(isSigned := false)];
    assert txs'[..|txs|] == txs;
    NodesAppend(cmtNode, CreatedIn(txs), LogicTags(tx.logics, false));
  }

  lemma SetOfConcat<T>(xs: seq<T>, ys: seq<T>)
    ensures SetOf(xs + ys) == SetOf(xs) + SetOf(ys)
  {
  }

  /** A transaction with fresh nullifiers spends none of those spent before. */
  lemma StillDistinct<T>(spent: seq<T>, nullifiers: set<T>, logics: seq<LogicInstance<T>>)
    requires Distinct(spent) && SetOf(spent) <= nullifiers && Distinct(LogicTags(logics, true)) && Fresh(nullifiers,
        logics)
    ensures Distinct(spent + LogicTags(logics, true))
    ensures SetOf(spent + LogicTags(logics, true)) == SetOf(spent) + SetOf(LogicTags(logics, true))
  {
    hide LogicTags, Distinct;
    SetOfConcat(spent, LogicTags(logics, true));
    forall t | t in spent ensures t !in LogicTags(logics, true) {
      assert t in SetOf(spent);
    }
    DistinctConcat(spent, LogicTags(logics, true));
  }

  /** The first `stage` checks were passed: signature, action roots, compliance proof,
      nullifiers, commitments. */
  ghost predicate Passed<T, N>(v: Verifiers<T>, hash: Hasher<T>, cmtNode: T -> N, anchors: set<N>, tx: Transaction<T>,
      stage: nat)
    requires WellFormed(tx)
  {
    && (stage >= 1 ==> v.signature(tx) == Verified)
    && (stage >= 2 ==> RootsAgree(tx.logics, AllTags(tx), ActionRoot(hash, AllTags(tx))))
    && (stage >= 3 ==> v.compliance(tx) == Verified)
    && (stage >= 4 ==>
          && Distinct(TagsOf(Consumptions(tx)))
          && AnchorsKnown(cmtNode, anchors, tx.compliance.consumed[..tx.compliance.consumedCount]))
    && (stage >= 5 ==> Distinct(TagsOf(Creations(tx))))
  }

  /** Why a transaction is refused for the given reason: the checks before it were passed, and
      this one was not. Among the logic instances the first with an error decides. */
  ghost predicate Justified<T, N>(v: Verifiers<T>, hash: Hasher<T>, cmtNode: T -> N, anchors: set<N>, circuits: set<T>,
      nullifiers: set<T>, tx: Transaction<T>, reason: Reason)
    requires WellFormed(tx)
  {
    match reason
    case InvalidSignature => v.signature(tx) == Refuted
    case InvalidActionTreeRoot =>
      Passed(v, hash, cmtNode, anchors, tx, 1) && !RootsAgree(tx.logics, AllTags(tx), ActionRoot(hash, AllTags(tx)))
    case ComplianceProof => Passed(v, hash, cmtNode, anchors, tx, 2) && v.compliance(tx) == Refuted
    case BarretenbergError =>
      || (Passed(v, hash, cmtNode, anchors, tx, 2) && v.compliance(tx) == Failed)
      || (Passed(v, hash, cmtNode, anchors, tx, 5) && LogicsFail(v, circuits, tx, reason))
    case DuplicateNullifier =>
      || (Passed(v, hash, cmtNode, anchors, tx, 3) && !Distinct(TagsOf(Consumptions(tx))))
      || (Sound(v, hash, cmtNode, anchors, circuits, tx) && !Fresh(nullifiers, tx.logics))
    case NonExistentAnchor =>
      && Passed(v, hash, cmtNode, anchors, tx, 3)
      && !AnchorsKnown(cmtNode, anchors, tx.compliance.consumed[..tx.compliance.consumedCount])
    case DuplicateCommitment => Passed(v, hash, cmtNode, anchors, tx, 4) && !Distinct(TagsOf(Creations(tx)))
    case UnpairedNullifier | UnpairedCommitment | CircuitNotRegistered | LogicProof =>
      Passed(v, hash, cmtNode, anchors, tx, 5) && LogicsFail(v, circuits, tx, reason)
  }

  ghost function CommitmentsOf<T, N>(cmtNode: T -> N, transactions: seq<Transaction<T>>): seq<N> {
    Nodes(cmtNode, CreatedIn(transactions))
  }

  /** `xs` is `ys`, or it is longer. */
  ghost predicate AtLeast<N>(xs: seq<N>, ys: seq<N>) {
    |ys| <= |xs| && (|xs| == |ys| ==> xs == ys)
  }

  /** No nullifier is spent twice by the accepted transactions, and what the pool holds beyond
      its transactions is only ever too much. `anchored` are the commitments under the newest
      anchor. */
  ghost predicate Consistent<T, N>(cmtNode: T -> N, transactions: seq<Transaction<T>>,
      nullifiers: set<T>, commitments: seq<N>, anchored: seq<N>)
  {
    && Distinct(Spent(transactions))
    && SetOf(Spent(transactions)) <= nullifiers
    && AtLeast(commitments, CommitmentsOf(cmtNode, transactions))
    && AtLeast(anchored, CommitmentsOf(cmtNode, transactions))
    && anchored <= commitments
  }

  /** An accepted transaction keeps the pool consistent, and it neither repairs nor spoils the
      agreement of nullifiers and commitments with the transactions. */
  lemma AcceptedKeeps<T, N>(cmtNode: T -> N, transactions: seq<Transaction<T>>,
      nullifiers: set<T>, commitments: seq<N>, anchored: seq<N>, tx: Transaction<T>,
      nullifiers': set<T>, commitments': seq<N>)
    requires Consistent(cmtNode, transactions, nullifiers, commitments, anchored)
    requires Distinct(LogicTags(tx.logics, true)) && Fresh(nullifiers, tx.logics)
    requires Applied(cmtNode, tx.logics, |tx.logics|, nullifiers, commitments, nullifiers', commitments')
    ensures var transactions' := transactions + [tx.(isSigned := false)];
      && Consistent(cmtNode, transactions', nullifiers', commitments', commitments')
      && (commitments' == CommitmentsOf(cmtNode, transactions')
          <==> commitments == CommitmentsOf(cmtNode, transactions))
      && (nullifiers' == SetOf(Spent(transactions')) <==> nullifiers == SetOf(Spent(transactions)))
  {
    hide Distinct, Spent, CreatedIn, LogicTags, Nodes;
    assert tx.logics[..|tx.logics|] == tx.logics;
    Recorded(cmtNode, transactions, tx);
    StillDistinct(Spent(transactions), nullifiers, tx.logics);
    var transactions' := transactions + [tx.(isSigned := false)];
    var more := Nodes(cmtNode, LogicTags(tx.logics, false));
    LongerStays(commitments, CommitmentsOf(cmtNode, transactions), more);
    SpentStays(nullifiers, SetOf(Spent(transactions)), SetOf(LogicTags(tx.logics, true)));
  }

  lemma LongerStays<N>(xs: seq<N>, ys: seq<N>, more: seq<N>)
    requires AtLeast(xs, ys)
    ensures AtLeast(xs + more, ys + more) && (xs + more == ys + more <==> xs == ys)
  {
    assert xs + more == ys + more ==> |xs| == |ys|;
  }

  lemma SpentStays<T>(nullifiers: set<T>, spent: set<T>, added: set<T>)
    requires spent <= nullifiers && added !! nullifiers
    ensures spent + added <= nullifiers + added && (nullifiers + added == spent + added <==> nullifiers == spent)
  {
    if nullifiers + added == spent + added {
      forall t | t in nullifiers ensures t in spent {
        assert t in spent + added;
      }
    }
  }

  lemma EmptyPool<T, N>(cmtNode: T -> N)
    ensures Consistent(cmtNode, [], {}, [], []) && Spent<T>([]) == [] && CommitmentsOf(cmtNode, []) == []
    ensures SetOf<T>([]) == {}
  {
    assert Spent<T>([]) == CreatedIn<T>([]) == [];
  }

  lemma {:induction false} SpentBy<T>(txs: seq<Transaction<T>>, i: nat, t: T) returns (a: nat)
    requires i < |txs| && t in LogicTags(txs[i].logics, true)
    ensures |Spent(txs[..i])| <= a < |Spent(txs[..i + 1])| <= |Spent(txs)| && Spent(txs)[a] == t
    decreases |txs|
  {
    var n := |txs| - 1;
    if i == n {
      assert txs[..i + 1] == txs;
      var tags := LogicTags(txs[n].logics, true);
      var k :| 0 <= k < |tags| && tags[k] == t;
      a := |Spent(txs[..n])| + k;
    } else {
      a := SpentBy(txs[..n], i, t);
      assert txs[..n][..i] == txs[..i] && txs[..n][..i + 1] == txs[..i + 1];
    }
  }

  lemma {:induction false} SpentGrows<T>(txs: seq<Transaction<T>>, i: nat)
    requires i <= |txs|
    ensures |Spent(txs[..i])| <= |Spent(txs)|
    decreases |txs|
  {
    if i == |txs| {
      assert txs[..i] == txs;
    } else {
      var n := |txs| - 1;
      SpentGrows(txs[..n], i);
      assert txs[..n][..i] == txs[..i];
    }
  }

  /** A transaction that creates `c` and consumes `n`, in this order. */
  function CreateThenConsume(hash: Hasher<int>, n: int, c: int, logicRef: int, treeRoot: int): Transaction<int> {
    var root := ActionRoot(hash, [n, c]);
    Transaction([LogicInstance(c, false, root, []), LogicInstance(n, true, root, [])],
                Compliance([Consumed(Public(n, logicRef), treeRoot)], 1, [Public(c, logicRef)], 1), true)
  }

  lemma ExampleTags(hash: Hasher<int>, n: int, c: int, logicRef: int, treeRoot: int)
    ensures var tx := CreateThenConsume(hash, n, c, logicRef, treeRoot);
      && WellFormed(tx) && TagsOf(Consumptions(tx)) == [n] && TagsOf(Creations(tx)) == [c] && AllTags(tx) == [n, c]
      && LogicTags(tx.logics[..1], true) == [] && LogicTags(tx.logics, true) == [n]
      && LogicTags(tx.logics[..1], false) == LogicTags(tx.logics, false) == [c]
  {
    hide ActionRoot;
    var tx := CreateThenConsume(hash, n, c, logicRef, treeRoot);
    var logics := tx.logics;
    assert logics[..2] == logics && logics[..0] == [];
    NoLogicTags<int>();
    hide LogicTags;
    LogicTagsNext(logics, true, 0);
    LogicTagsNext(logics, true, 1);
    LogicTagsNext(logics, false, 0);
    LogicTagsNext(logics, false, 1);
  }

  lemma ExampleRefs(hash: Hasher<int>, n: int, c: int, logicRef: int, treeRoot: int)
    ensures var tx := CreateThenConsume(hash, n, c, logicRef, treeRoot);
      RefsFor(tx, true) == map[n := logicRef] && RefsFor(tx, false) == map[c := logicRef]
  {
    hide ActionRoot;
    var tx := CreateThenConsume(hash, n, c, logicRef, treeRoot);
    assert Consumptions(tx) == [Public(n, logicRef)] && Creations(tx) == [Public(c, logicRef)];
    assert Refs<int>([]) == map[];
  }

  /** Such a transaction can pass every check and still be refused for its nullifier, and then
      its commitment stays in the pool. */
  lemma RefusalCanTear<N>(hash: Hasher<int>, cmtNode: int -> N, n: int, c: int, logicRef: int, treeRoot: int)
    ensures var tx := CreateThenConsume(hash, n, c, logicRef, treeRoot);
      var accepting := Verifiers(_ => Verified, _ => Verified, (_, _) => Verified);
      && Sound(accepting, hash, cmtNode, {cmtNode(treeRoot)}, {logicRef}, tx)
      && Torn(cmtNode, tx.logics, 1, {n}, [], {n}, [cmtNode(c)])
  {
    ExampleTags(hash, n, c, logicRef, treeRoot);
    ExampleRefs(hash, n, c, logicRef, treeRoot);
    hide ActionRoot, LogicTags, Consumptions, Creations, TagsOf, RefsFor, AllTags;
    assert SetOf<int>([]) == {};
  }

  /** Two accepted transactions never spend the same nullifier. */
  lemma NeverSpentTwice<T>(txs: seq<Transaction<T>>, i: nat, j: nat, t: T)
    requires Distinct(Spent(txs)) && i < j < |txs|
    requires t in LogicTags(txs[i].logics, true)
    ensures t !in LogicTags(txs[j].logics, true)
  {
    hide Spent, LogicTags;
    SpentGrows(txs[..j], i + 1);
    assert txs[..j][..i + 1] == txs[..i + 1];
    var a := SpentBy(txs, i, t);
    if t in LogicTags(txs[j].logics, true) {
      var b := SpentBy(txs, j, t);
    }
  }

  /** A torn transaction keeps the pool consistent. Agreement with the transactions is lost
      exactly where an instance before the culprit took effect: for the commitments, if one of
      them creates; for the nullifiers, if one of them consumes. */
  lemma TornKeeps<T, N>(cmtNode: T -> N, transactions: seq<Transaction<T>>,
      nullifiers: set<T>, commitments: seq<N>, anchored: seq<N>, logics: seq<LogicInstance<T>>, k: nat,
      nullifiers': set<T>, commitments': seq<N>)
    requires Consistent(cmtNode, transactions, nullifiers, commitments, anchored)
    requires Torn(cmtNode, logics, k, nullifiers, commitments, nullifiers', commitments')
    ensures Consistent(cmtNode, transactions, nullifiers', commitments', anchored)
    ensures commitments' == CommitmentsOf(cmtNode, transactions)
       <==> commitments == CommitmentsOf(cmtNode, transactions) && LogicTags(logics[..k], false) == []
    ensures nullifiers' == SetOf(Spent(transactions))
       <==> nullifiers == SetOf(Spent(transactions)) && LogicTags(logics[..k], true) == []
  {
    hide Distinct, Spent, CreatedIn, LogicTags;
    var consumed, created := LogicTags(logics[..k], true), LogicTags(logics[..k], false);
    assert |Nodes(cmtNode, created)| == |created|;
    if consumed != [] {
      assert consumed[0] in consumed && consumed[0] in nullifiers' && consumed[0] !in nullifiers;
    }
  }

  lemma SpentIsReason<T, N>(v: Verifiers<T>, hash: Hasher<T>, cmtNode: T -> N, anchors: set<N>, circuits: set<T>,
      nullifiers: set<T>, tx: Transaction<T>)
    requires Sound(v, hash, cmtNode, anchors, circuits, tx)
    ensures Fresh(nullifiers, tx.logics) || Justified(v, hash, cmtNode, anchors, circuits, nullifiers, tx,
        DuplicateNullifier)
  {
  }

  lemma RootIsAnchor<N>(hash: Hasher<N>, commitments: seq<N>, root: N)
    requires root == TopNode(hash, commitments, MAX_TREE_DEPTH)
    ensures root == AnchorOf(hash, commitments)
  {
  }

  // ---------------------------------------------------------------- in terms of the entries

  /** A sound transaction's instances spend exactly its nullifiers. */
  lemma SoundSpends<T(!new), N>(v: Verifiers<T>, hash: Hasher<T>, cmtNode: T -> N, anchors: set<N>, circuits: set<T>,
      tx: Transaction<T>, nullifiers: set<T>)
    requires Sound(v, hash, cmtNode, anchors, circuits, tx)
    ensures SetOf(LogicTags(tx.logics, true)) == set i | 0 <= i < tx.compliance.consumedCount ::
      tx.compliance.consumed[i].public.tag
    ensures Fresh(nullifiers, tx.logics) <==> Unspent(nullifiers, tx.compliance)
  {
    hide RootsAgree, ActionRoot, LogicsHold, AnchorsKnown, Distinct, LogicTags;
    var c, ls, ts := tx.compliance, LogicTags(tx.logics, true), TagsOf(Consumptions(tx));
    assert forall i :: 0 <= i < c.consumedCount ==> ts[i] == c.consumed[i].public.tag;
    assert forall t :: t in ls <==> t in multiset(ls);
    assert forall t :: t in ts <==> t in multiset(ts);
    assert forall i :: 0 <= i < c.consumedCount ==> c.consumed[i].public.tag in ts;
  }

  /** Where the tag of a creating instance is among the created tags. */
  lemma {:induction false} CreationAt<T>(logics: seq<LogicInstance<T>>, n: nat, j: nat)
    requires n <= |logics|
    ensures |LogicTags(logics[..n], false)| == CreatedBefore(logics, n)
    ensures j < n && !logics[j].isConsumed ==>
      CreatedBefore(logics, j) < CreatedBefore(logics, n)
      && LogicTags(logics[..n], false)[CreatedBefore(logics, j)] == logics[j].tag
  {
    hide LogicTags;
    if n > 0 {
      CreationAt(logics, n - 1, j);
      LogicTagsNext(logics, false, n - 1);
    } else {
      NoLogicTags<T>();
      assert logics[..0] == [];
    }
  }

  /** What an accepted transaction does, in terms of its entries. */
  lemma AcceptedEffect<T(!new), N>(v: Verifiers<T>, hash: Hasher<T>, cmtNode: T -> N, anchors: set<N>, circuits: set<T>,
      tx: Transaction<T>, nullifiers: set<T>, commitments: seq<N>, nullifiers': set<T>, commitments': seq<N>)
    requires Sound(v, hash, cmtNode, anchors, circuits, tx)
    requires Applied(cmtNode, tx.logics, |tx.logics|, nullifiers, commitments, nullifiers', commitments')
    ensures Spends(tx.compliance, nullifiers, nullifiers') && Creates(cmtNode, tx, commitments, commitments')
  {
    hide RootsAgree, ActionRoot, LogicsHold, AnchorsKnown, Distinct, LogicTags, SetOf, Fresh;
    SoundSpends(v, hash, cmtNode, anchors, circuits, tx, nullifiers);
    assert tx.logics[..|tx.logics|] == tx.logics;
    forall j | 0 <= j <= |tx.logics|
      ensures |LogicTags(tx.logics, false)| == CreatedBefore(tx.logics, |tx.logics|)
      ensures j < |tx.logics| && !tx.logics[j].isConsumed ==>
        CreatedBefore(tx.logics, j) < CreatedBefore(tx.logics, |tx.logics|)
        && LogicTags(tx.logics, false)[CreatedBefore(tx.logics, j)] == tx.logics[j].tag
    {
      CreationAt(tx.logics, |tx.logics|, j);
    }
    assert |multiset(LogicTags(tx.logics, false))| == |multiset(TagsOf(Creations(tx)))|;
  }

  lemma RefOfResource<T>(tx: Transaction<T>, l: LogicInstance<T>) returns (i: nat)
    requires WellFormed(tx) && Distinct(TagsOf(Consumptions(tx))) && Distinct(TagsOf(Creations(tx)))
    requires l.tag in RefsFor(tx, l.isConsumed)
    ensures if l.isConsumed
      then i < tx.compliance.consumedCount
        && tx.compliance.consumed[i].public == Public(l.tag, RefsFor(tx, true)[l.tag])
      else i < tx.compliance.createdCount && tx.compliance.created[i] == Public(l.tag, RefsFor(tx, false)[l.tag])
  {
    hide Distinct, RefsFor;
    RefsAreOwn(tx);
    if l.isConsumed {
      i :| 0 <= i < tx.compliance.consumedCount && tx.compliance.consumed[i].public.tag == l.tag;
    } else {
      i :| 0 <= i < tx.compliance.createdCount && tx.compliance.created[i].tag == l.tag;
    }
  }

  /** What it means that an instance fails. */
  lemma InstanceErrorMeans<T>(v: Verifiers<T>, circuits: set<T>, tx: Transaction<T>, j: nat, reason: Reason)
    requires WellFormed(tx) && Distinct(TagsOf(Consumptions(tx))) && Distinct(TagsOf(Creations(tx)))
    requires j < |tx.logics| && InstanceError(v, circuits, tx, j) == Some(reason)
    ensures reason.UnpairedNullifier? ==> NullifiersUnpaired(tx)
    ensures reason.UnpairedCommitment? ==> CommitmentsUnpaired(tx)
    ensures !reason.UnpairedNullifier? && !reason.UnpairedCommitment? ==>
      InstanceFails(v, circuits, tx.compliance, tx.logics[j], reason)
  {
    hide Distinct, LogicTags, RefsFor;
    var l := tx.logics[j];
    if l.tag in LogicTags(tx.logics[..j], l.isConsumed) {
      LogicTagsHas(tx.logics[..j], l.isConsumed, l.tag);
      var k :| 0 <= k < j && tx.logics[..j][k].isConsumed == l.isConsumed && tx.logics[..j][k].tag == l.tag;
      assert tx.logics[k].tag == tx.logics[j].tag;
    } else if l.tag in RefsFor(tx, l.isConsumed) {
      var i := RefOfResource(tx, l);
      assert FailsFor(v, circuits, Public(l.tag, RefsFor(tx, l.isConsumed)[l.tag]), l, reason);
    } else {
      RefsAreOwn(tx);
    }
  }

  lemma LeftOverMeans<T>(v: Verifiers<T>, circuits: set<T>, tx: Transaction<T>, reason: Reason)
    requires WellFormed(tx) && LeftOver(v, circuits, tx, reason)
    ensures reason.UnpairedNullifier? || reason.UnpairedCommitment?
    ensures reason.UnpairedNullifier? ==> NullifiersUnpaired(tx)
    ensures reason.UnpairedCommitment? ==> CommitmentsUnpaired(tx)
  {
    hide LogicTags, RefsFor, InstanceError;
    RefsAreOwn(tx);
    var c := tx.compliance;
    if !AllNamed(tx, true) {
      var i :| 0 <= i < c.consumedCount && c.consumed[i].public.tag !in LogicTags(tx.logics, true);
      LogicTagsHas(tx.logics, true, c.consumed[i].public.tag);
    } else {
      var i :| 0 <= i < c.createdCount && c.created[i].tag !in LogicTags(tx.logics, false);
      LogicTagsHas(tx.logics, false, c.created[i].tag);
    }
  }

  lemma LogicsFailMeans<T(!new), N>(v: Verifiers<T>, hash: Hasher<T>, cmtNode: T -> N, anchors: set<N>,
      circuits: set<T>, nullifiers: set<T>, tx: Transaction<T>, reason: Reason)
    requires WellFormed(tx) && Distinct(TagsOf(Consumptions(tx))) && Distinct(TagsOf(Creations(tx)))
    requires LogicsFail(v, circuits, tx, reason)
    requires reason in {UnpairedNullifier, UnpairedCommitment, CircuitNotRegistered, LogicProof, BarretenbergError}
    ensures Explained(v, hash, cmtNode, anchors, circuits, nullifiers, tx, reason)
  {
    hide Distinct, InstanceError, InstanceFails, NullifiersUnpaired, CommitmentsUnpaired, LeftOver;
    if j: nat :| FailsFirst(v, circuits, tx, j, reason) {
      InstanceErrorMeans(v, circuits, tx, j, reason);
      assert tx.logics[j] in tx.logics;
    } else {
      LeftOverMeans(v, circuits, tx, reason);
    }
  }

  /** A justified reason, in terms of the transaction's entries. */
  lemma ReasonMeans<T(!new), N>(v: Verifiers<T>, hash: Hasher<T>, cmtNode: T -> N, anchors: set<N>, circuits: set<T>,
      nullifiers: set<T>, tx: Transaction<T>, reason: Reason)
    requires WellFormed(tx) && Justified(v, hash, cmtNode, anchors, circuits, nullifiers, tx, reason)
    ensures Explained(v, hash, cmtNode, anchors, circuits, nullifiers, tx, reason)
  {
    hide Distinct, RootsAgree, RootsClaimed, ActionRoot, LogicsFail, InstanceFails, NullifiersUnpaired,
      CommitmentsUnpaired, LogicsHold, Paired, Unspent, Fresh, LogicTags;
    var c := tx.compliance;
    DistinctTagsAre(tx);
    assert forall i :: 0 <= i < c.consumedCount ==> c.consumed[..c.consumedCount][i] == c.consumed[i];
    match reason
    case InvalidActionTreeRoot => RootsAgreeIs(hash, tx);
    case DuplicateNullifier =>
      if Sound(v, hash, cmtNode, anchors, circuits, tx) {
        SoundSpends(v, hash, cmtNode, anchors, circuits, tx, nullifiers);
      }
    case UnpairedNullifier | UnpairedCommitment | CircuitNotRegistered | LogicProof =>
      LogicsFailMeans(v, hash, cmtNode, anchors, circuits, nullifiers, tx, reason);
    case BarretenbergError =>
      if v.compliance(tx) != Failed {
        LogicsFailMeans(v, hash, cmtNode, anchors, circuits, nullifiers, tx, reason);
      }
    case _ =>
  }

  // ---------------------------------------------------------------- runs

  /** The accepted transactions of a run, as the pool records them. */
  function AcceptedOf<T>(requests: seq<(Verifiers<T>, Transaction<T>)>, outcomes: seq<Outcome>): seq<Transaction<T>>
    requires |requests| == |outcomes|
  {
    if requests == [] then []
    else
      var n := |requests| - 1;
      AcceptedOf(requests[..n], outcomes[..n])
      + if outcomes[n].Accepted? then [requests[n].1.(isSigned := false)] else []
  }

  /** No two accepted transactions spend the same nullifier. */
  ghost predicate NoneShared<T(!new)>(requests: seq<(Verifiers<T>, Transaction<T>)>, outcomes: seq<Outcome>)
    requires |requests| == |outcomes|
  {
    forall i, j, t ::
      (0 <= i < j < |requests| && outcomes[i].Accepted? && outcomes[j].Accepted?
       && t in LogicTags(requests[i].1.logics, true)) ==> t !in LogicTags(requests[j].1.logics, true)
  }

  lemma NoneAccepted<T>()
    ensures AcceptedOf<T>([], []) == []
  {
  }

  lemma AcceptedNext<T>(requests: seq<(Verifiers<T>, Transaction<T>)>, outcomes: seq<Outcome>, outcome: Outcome)
    requires |outcomes| < |requests|
    ensures AcceptedOf(requests[..|outcomes| + 1], outcomes + [outcome])
         == AcceptedOf(requests[..|outcomes|], outcomes)
            + if outcome.Accepted? then [requests[|outcomes|].1.(isSigned := false)] else []
  {
    var n := |outcomes|;
    assert requests[..n + 1][..n] == requests[..n] && (outcomes + [outcome])[..n] == outcomes;
  }

  /** Where the record holds an accepted transaction. */
  lemma {:induction false} AcceptedAt<T>(requests: seq<(Verifiers<T>, Transaction<T>)>, outcomes: seq<Outcome>, i: nat)
    requires i < |requests| == |outcomes| && outcomes[i].Accepted?
    ensures var a := |AcceptedOf(requests[..i], outcomes[..i])|;
      a < |AcceptedOf(requests[..i + 1], outcomes[..i + 1])| <= |AcceptedOf(requests, outcomes)|
      && AcceptedOf(requests, outcomes)[a] == requests[i].1.(isSigned := false)
    decreases |requests|
  {
    var n := |requests| - 1;
    if i == n {
      assert requests[..n + 1] == requests && outcomes[..n + 1] == outcomes;
    } else {
      AcceptedAt(requests[..n], outcomes[..n], i);
      assert requests[..n][..i] == requests[..i] && outcomes[..n][..i] == outcomes[..i];
      assert requests[..n][..i + 1] == requests[..i + 1] && outcomes[..n][..i + 1] == outcomes[..i + 1];
    }
  }

  lemma {:induction false} AcceptedGrows<T>(requests: seq<(Verifiers<T>, Transaction<T>)>, outcomes: seq<Outcome>,
      i: nat)
    requires i <= |requests| == |outcomes|
    ensures |AcceptedOf(requests[..i], outcomes[..i])| <= |AcceptedOf(requests, outcomes)|
    decreases |requests|
  {
    if i == |requests| {
      assert requests[..i] == requests && outcomes[..i] == outcomes;
    } else {
      var n := |requests| - 1;
      AcceptedGrows(requests[..n], outcomes[..n], i);
      assert requests[..n][..i] == requests[..i] && outcomes[..n][..i] == outcomes[..i];
    }
  }

  lemma AcceptedShareNothing<T(!new)>(before: seq<Transaction<T>>, requests: seq<(Verifiers<T>, Transaction<T>)>,
      outcomes: seq<Outcome>)
    requires |requests| == |outcomes| && Distinct(Spent(before + AcceptedOf(requests, outcomes)))
    ensures NoneShared(requests, outcomes)
  {
    hide AcceptedOf, Spent, LogicTags, Distinct;
    var added := AcceptedOf(requests, outcomes);
    forall i, j, t | 0 <= i < j < |requests| && outcomes[i].Accepted? && outcomes[j].Accepted? &&
      t in LogicTags(requests[i].1.logics, true) ensures t !in LogicTags(requests[j].1.logics, true)
    {
      var a, b := |AcceptedOf(requests[..i], outcomes[..i])|, |AcceptedOf(requests[..j], outcomes[..j])|;
      AcceptedAt(requests, outcomes, i);
      AcceptedAt(requests, outcomes, j);
      AcceptedGrows(requests[..j], outcomes[..j], i + 1);
      assert requests[..j][..i + 1] == requests[..i + 1] && outcomes[..j][..i + 1] == outcomes[..i + 1];
      assert (before + added)[|before| + a] == added[a] && (before + added)[|before| + b] == added[b];
      NeverSpentTwice(before + added, |before| + a, |before| + b, t);
    }
  }

  class ShieldedPool<T(==, !new), N(==, !new)> {
    const actHash: Hasher<T>
    const cmtHash: Hasher<N>
    const cmtNode: T -> N

    var nullifiers: set<T>
    var commitments: seq<N>
    var transactions: seq<Transaction<T>>
    var anchors: set<N>
    var logicCircuits: set<T>

    /** The commitments when the newest anchor was inserted. */
    ghost var anchored: seq<N>

    ghost predicate Valid()
      reads this
    {
      && Newest() in anchors
      && Consistent(cmtNode, transactions, nullifiers, commitments, anchored)
    }

    /** The anchor inserted last. */
    ghost function Newest(): N
      reads this
    {
      AnchorOf(cmtHash, anchored)
    }

    /** The commitments are those that the recorded transactions create. */
    ghost predicate Whole()
      reads this
    {
      commitments == CommitmentsOf(cmtNode, transactions)
    }

    /** The nullifiers are those that the recorded transactions spend. */
    ghost predicate Exact()
      reads this
    {
      nullifiers == SetOf(Spent(transactions))
    }

    /** The newest anchor stands for the commitments of the recorded transactions. */
    ghost predicate Synced()
      reads this
    {
      anchored == CommitmentsOf(cmtNode, transactions)
    }

    /** Submitting the transaction leaves something of the given kind behind: it passes every
        check, it spends a nullifier of the pool, and an instance of that kind comes first. */
    ghost predicate LeavesBehind(v: Verifiers<T>, tx: Transaction<T>, isConsumed: bool)
      reads this
    {
      && Sound(v, actHash, cmtNode, anchors, logicCircuits, tx)
      && !Fresh(nullifiers, tx.logics)
      && LogicTags(tx.logics[..FirstSpent(nullifiers, tx.logics)], isConsumed) != []
    }

    constructor (actHash: Hasher<T>, cmtHash: Hasher<N>, cmtNode: T -> N)
      ensures Valid() && Whole() && Exact() && Synced() && transactions == []
      ensures this.actHash == actHash && this.cmtHash == cmtHash && this.cmtNode == cmtNode
      ensures anchors == {EmptyRoot(cmtHash, 32)}
    {
      this.actHash, this.cmtHash, this.cmtNode := actHash, cmtHash, cmtNode;
      hide NodeAt, Width, TopNode, Consistent, EmptyRoot;
      var tree := CommitmentTree.New(cmtHash, MAX_TREE_DEPTH, []);
      var root := tree.Root();
      nullifiers, commitments, transactions, anchors, logicCircuits := {}, [], [], {root}, {};
      anchored := [];
      new;
      EmptyAnchor(cmtHash);
      EmptyPool(cmtNode);
    }

    method RegisterLogic(hash: T)
      requires Valid()
      modifies this`logicCircuits
      ensures Valid() && logicCircuits == old(logicCircuits) + {hash}
    {
      logicCircuits := logicCircuits + {hash};
    }

    method DeregisterLogic(hash: T)
      requires Valid()
      modifies this`logicCircuits
      ensures Valid() && logicCircuits == old(logicCircuits) - {hash}
    {
      logicCircuits := logicCircuits - {hash};
    }

    /** Every check that comes before the pool is changed. */
    method Check(v: Verifiers<T>, tx: Transaction<T>) returns (error: Option<Reason>)
      requires WellFormed(tx) && v.signature(tx) == Verified
      ensures error.None? <==> Sound(v, actHash, cmtNode, anchors, logicCircuits, tx)
      ensures error.Some? ==>
        && error.value != InvalidSignature
        && Justified(v, actHash, cmtNode, anchors, logicCircuits, nullifiers, tx, error.value)
    {
      hide RootsAgree, ActionRoot, Paired, LogicsHold, LogicsFail, AnchorsKnown, Distinct, WellFormed, Fresh;
      var ok := CheckActionRoots(actHash, tx);
      if !ok {
        return Some(InvalidActionTreeRoot);
      }
      match v.compliance(tx) {
        case Failed => return Some(BarretenbergError);
        case Refuted => return Some(ComplianceProof);
        case Verified =>
      }
      var trackedNullifiers, trackedCommitments;
      error, trackedNullifiers := TrackNullifiers(cmtNode, anchors, tx);
      if error.Some? {
        return;
      }
      ok, trackedCommitments := TrackCommitments(tx);
      if !ok {
        return Some(DuplicateCommitment);
      }
      error := CheckLogics(v, logicCircuits, tx, trackedNullifiers, trackedCommitments);
    }

    /** The instances take effect one by one, until one spends a nullifier of the pool. */
    method Apply(logics: seq<LogicInstance<T>>) returns (k: nat)
      requires Distinct(LogicTags(logics, true))
      modifies this`nullifiers, this`commitments
      ensures k <= |logics| && k == FirstSpent(old(nullifiers), logics)
      ensures k == |logics| <==> Fresh(old(nullifiers), logics)
      ensures k < |logics| ==> Torn(cmtNode, logics, k, old(nullifiers), old(commitments), nullifiers, commitments)
      ensures k == |logics| ==> Applied(cmtNode, logics, k, old(nullifiers), old(commitments), nullifiers, commitments)
    {
      hide LogicTags, Distinct, Applied, Fresh, Torn, FirstSpent;
      NothingApplied(cmtNode, logics, nullifiers, commitments);
      k := 0;
      while k < |logics|
        invariant k <= |logics| && Fresh(old(nullifiers), logics[..k])
        invariant Applied(cmtNode, logics, k, old(nullifiers), old(commitments), nullifiers, commitments)
      {
        var l := logics[k];
        ApplyNext(cmtNode, logics, k, old(nullifiers), old(commitments), nullifiers, commitments);
        if l.isConsumed {
          if l.tag in nullifiers {
            TornAt(cmtNode, logics, k, old(nullifiers), old(commitments), nullifiers, commitments);
            return;
          }
          nullifiers := nullifiers + {l.tag};
        } else {
          commitments := commitments + [cmtNode(l.tag)];
        }
        k := k + 1;
      }
      assert logics[..k] == logics;
      FirstSpentIs(old(nullifiers), logics, k);
    }

    /** The changes to the pool after all checks. */
    method Record(tx: Transaction<T>) returns (accepted: bool)
      requires Valid() && Distinct(LogicTags(tx.logics, true))
      modifies this`nullifiers, this`commitments, this`anchors, this`transactions, this`anchored
      ensures Valid()
      ensures accepted <==> Fresh(old(nullifiers), tx.logics)
      ensures accepted ==>
        && Applied(cmtNode, tx.logics, |tx.logics|, old(nullifiers), old(commitments), nullifiers, commitments)
        && transactions == old(transactions) + [tx.(isSigned := false)] && anchored == commitments
        && anchors == old(anchors) + {AnchorOf(cmtHash, commitments)}
        && (Whole() <==> old(Whole())) && (Exact() <==> old(Exact()))
      ensures !accepted ==>
        var k := FirstSpent(old(nullifiers), tx.logics);
        && transactions == old(transactions) && anchors == old(anchors) && anchored == old(anchored)
        && Torn(cmtNode, tx.logics, k, old(nullifiers), old(commitments), nullifiers, commitments)
        && (Whole() <==> old(Whole()) && LogicTags(tx.logics[..k], false) == [])
        && (Exact() <==> old(Exact()) && LogicTags(tx.logics[..k], true) == [])
    {
      hide Distinct, AnchorOf, LogicTags, Fresh, Consistent, Applied, Torn, TopNode, Packed, CacheOk, FirstSpent,
        CommitmentsOf, Spent, SetOf;
      var k := Apply(tx.logics);
      if k < |tx.logics| {
        TornKeeps(cmtNode, transactions, old(nullifiers), old(commitments), anchored, tx.logics, k,
                  nullifiers, commitments);
        return false;
      }
      var tree := CommitmentTree.New(cmtHash, MAX_TREE_DEPTH, commitments);
      var root := tree.Root();
      RootIsAnchor(cmtHash, commitments, root);
      AcceptedKeeps(cmtNode, transactions, old(nullifiers), old(commitments), anchored, tx, nullifiers, commitments);
      anchors, anchored := anchors + {root}, commitments;
      transactions := transactions + [tx.(isSigned := false)];
      return true;
    }

    /** `submit`: accepted are exactly the sound transactions whose nullifiers are new. A
        refusal is justified, and it leaves the pool as it was unless the transaction is sound.
        The pool stops being whole, or exact, exactly when something is left behind. */
    method Submit(v: Verifiers<T>, tx: Transaction<T>) returns (outcome: Outcome)
      requires Valid()
      modifies this`nullifiers, this`commitments, this`anchors, this`transactions, this`anchored
      ensures Valid()
      ensures outcome.Panicked? <==>
        !tx.isSigned || v.signature(tx) == Failed || (v.signature(tx) == Verified && !WellFormed(tx))
      ensures outcome.Accepted? <==>
        && Acceptable(v, actHash, cmtNode, old(anchors), logicCircuits, tx)
        && Unspent(old(nullifiers), tx.compliance)
      ensures outcome.Accepted? ==>
        && Spends(tx.compliance, old(nullifiers), nullifiers)
        && Creates(cmtNode, tx, old(commitments), commitments)
      ensures outcome.Accepted? <==>
        && Sound(v, actHash, cmtNode, old(anchors), logicCircuits, tx)
        && Fresh(old(nullifiers), tx.logics)
      ensures outcome == Rejected(InvalidSignature) <==> tx.isSigned && v.signature(tx) == Refuted
      ensures outcome.Rejected? && outcome.reason != InvalidSignature ==>
        && WellFormed(tx) && v.signature(tx) == Verified
        && Justified(v, actHash, cmtNode, old(anchors), logicCircuits, old(nullifiers), tx, outcome.reason)
        && Explained(v, actHash, cmtNode, old(anchors), logicCircuits, old(nullifiers), tx, outcome.reason)
      ensures outcome.Accepted? ==>
        && Applied(cmtNode, tx.logics, |tx.logics|, old(nullifiers), old(commitments), nullifiers, commitments)
        && transactions == old(transactions) + [tx.(isSigned := false)] && anchored == commitments
        && anchors == old(anchors) + {AnchorOf(cmtHash, commitments)}
      ensures !outcome.Accepted? ==>
        transactions == old(transactions) && anchors == old(anchors) && anchored == old(anchored)
      ensures !outcome.Accepted? && Sound(v, actHash, cmtNode, old(anchors), logicCircuits, tx) ==>
        && outcome == Rejected(DuplicateNullifier)
        && Torn(cmtNode, tx.logics, FirstSpent(old(nullifiers), tx.logics), old(nullifiers), old(commitments),
                nullifiers, commitments)
      ensures !outcome.Accepted? && !Sound(v, actHash, cmtNode, old(anchors), logicCircuits, tx) ==>
        nullifiers == old(nullifiers) && commitments == old(commitments)
      ensures Whole() <==> old(Whole()) && !old(LeavesBehind(v, tx, false))
      ensures Exact() <==> old(Exact()) && !old(LeavesBehind(v, tx, true))
      ensures Synced() <==> if outcome.Accepted? then old(Whole()) else old(Synced())
    {
      hide RootsAgree, ActionRoot, LogicsHold, AnchorsKnown, Distinct, AnchorOf, LogicTags, Fresh, Paired, Consistent,
        Justified, Applied, Torn, Valid, FirstSpent, CommitmentsOf, Spent, SetOf, Acceptable, Explained, Unspent,
        Spends, Creates;
      SoundIsAcceptable(v, actHash, cmtNode, anchors, logicCircuits, tx);
      AcceptableIsFormed(v, actHash, cmtNode, anchors, logicCircuits, tx);
      if !tx.isSigned || v.signature(tx) == Failed {
        return Panicked;
      }
      if v.signature(tx) == Refuted {
        return Rejected(InvalidSignature);
      }
      if !WellFormed(tx) {
        return Panicked;
      }
      var error := Check(v, tx);
      if error.Some? {
        ReasonMeans(v, actHash, cmtNode, anchors, logicCircuits, nullifiers, tx, error.value);
        return Rejected(error.value);
      }
      PairedDistinct(tx);
      SoundSpends(v, actHash, cmtNode, anchors, logicCircuits, tx, nullifiers);
      SpentIsReason(v, actHash, cmtNode, anchors, logicCircuits, nullifiers, tx);
      if !Fresh(nullifiers, tx.logics) {
        ReasonMeans(v, actHash, cmtNode, anchors, logicCircuits, nullifiers, tx, DuplicateNullifier);
      }
      var accepted := Record(tx);
      if accepted {
        AcceptedEffect(v, actHash, cmtNode, old(anchors), logicCircuits, tx, old(nullifiers), old(commitments),
                       nullifiers, commitments);
      }
      return if accepted then Accepted else Rejected(DuplicateNullifier);
    }

    lemma NothingSpentTwice()
      requires Valid()
      ensures Distinct(Spent(transactions))
    {
      hide Distinct, Spent;
    }

    /** An acceptable transaction leaves nothing behind. */
    lemma AcceptedAgrees(v: Verifiers<T>, tx: Transaction<T>)
      ensures Fresh(nullifiers, tx.logics) ==> forall isConsumed :: !LeavesBehind(v, tx, isConsumed)
    {
      hide Sound, Fresh;
    }

    /** A run of submissions, each judged by verifiers of its own. Exactly the accepted
        transactions are recorded, in order, no two of them share a nullifier, and a run without
        refusals keeps the pool in agreement with its transactions. */
    method SubmitAll(requests: seq<(Verifiers<T>, Transaction<T>)>) returns (outcomes: seq<Outcome>)
      requires Valid()
      modifies this`nullifiers, this`commitments, this`anchors, this`transactions, this`anchored
      ensures Valid() && |outcomes| == |requests|
      ensures transactions == old(transactions) + AcceptedOf(requests, outcomes)
      ensures NoneShared(requests, outcomes)
      ensures (forall o :: o in outcomes ==> o.Accepted?) ==>
        && (old(Whole()) ==> Whole()) && (old(Exact()) ==> Exact())
        && (old(Whole()) && old(Synced()) ==> Synced())
    {
      hide *;
      outcomes := [];
      NoneAccepted<T>();
      for i := 0 to |requests|
        invariant Valid() && |outcomes| == i
        invariant transactions == old(transactions) + AcceptedOf(requests[..i], outcomes)
        invariant (forall o :: o in outcomes ==> o.Accepted?) ==>
          && (old(Whole()) ==> Whole()) && (old(Exact()) ==> Exact())
          && (old(Whole()) && old(Synced()) ==> Synced())
      {
        AcceptedAgrees(requests[i].0, requests[i].1);
        var outcome := Submit(requests[i].0, requests[i].1);
        ghost var before := outcomes;
        outcomes := outcomes + [outcome];
        assert outcome in outcomes && forall o :: o in before ==> o in outcomes;
        AcceptedNext(requests, before, outcome);
      }
      assert requests[..|requests|] == requests;
      NothingSpentTwice();
      AcceptedShareNothing(old(transactions), requests, outcomes);
    }
  }

  // ---------------------------------------------------------------- the client

  /** The commitment scan of `ClientState::synchronize`. */
  method Synchronize<T, N>(cmtHash: Hasher<N>, cmtNode: T -> N, transactions: seq<Transaction<T>>)
      returns (tree: CommitmentTree<N>, currentPos: nat)
    ensures fresh(tree) && tree.Valid() && tree.hash == cmtHash && tree.depth == MAX_TREE_DEPTH
    ensures tree.leaves == Nodes(cmtNode, CreatedIn(transactions)) && currentPos == |tree.leaves|
  {
    hide LogicTags;
    var commitments := [];
    currentPos := 0;
    for i := 0 to |transactions|
      invariant commitments == Nodes(cmtNode, CreatedIn(transactions[..i])) && currentPos == |commitments|
    {
      var logics := transactions[i].logics;
      ghost var before := commitments;
      NoLogicTags<T>();
      for j := 0 to |logics|
        invariant commitments == before + Nodes(cmtNode, LogicTags(logics[..j], false)) && currentPos == |commitments|
      {
        LogicTagsNext(logics, false, j);
        if logics[j].isConsumed {
          continue;
        }
        commitments := commitments + [cmtNode(logics[j].tag)];
        currentPos := currentPos + 1;
      }
      assert logics[..|logics|] == logics;
      assert transactions[..i + 1][..i] == transactions[..i];
      NodesAppend(cmtNode, CreatedIn(transactions[..i]), LogicTags(logics, false));
    }
    assert transactions[..|transactions|] == transactions;
    tree := CommitmentTree.New(cmtHash, MAX_TREE_DEPTH, commitments);
  }

  /** The client rebuilds the pool's commitments exactly if the pool is whole, and those under
      the newest anchor exactly if the pool is synced. Then the path of every position below
      `currentPos` leads from the commitment there to the newest anchor; otherwise its root is
      another one unless padding hides the difference. */
  method ClientAgreesWithPool<T(==, !new), N(==, !new)>(pool: ShieldedPool<T, N>, pos: nat)
    returns (tree: CommitmentTree<N>, currentPos: nat)
    requires pool.Valid()
    ensures fresh(tree) && tree.Valid() && currentPos == |tree.leaves|
    ensures tree.leaves == pool.commitments <==> pool.Whole()
    ensures tree.leaves == pool.anchored <==> pool.Synced()
    ensures pool.Whole() ==> pool.Synced()
    ensures pool.Synced() ==> AnchorOf(pool.cmtHash, tree.leaves) == pool.Newest() && pool.Newest() in pool.anchors
    ensures pool.Synced() && pos < currentPos <= Exp2(MAX_TREE_DEPTH) ==>
      Fold(pool.cmtHash, tree.leaves[pos], AuthPath(pool.cmtHash, tree.leaves, 0, MAX_TREE_DEPTH, pos)) == pool.Newest()
    ensures Injective(pool.cmtHash) && |pool.anchored| <= Exp2(MAX_TREE_DEPTH) ==>
      (AnchorOf(pool.cmtHash, tree.leaves) == pool.Newest() <==> SamePadded(pool.cmtHash, tree.leaves, pool.anchored))
  {
    hide NodeAt, TopNode, Fold, AuthPath, Exp2, Injective, LeafAt, SamePadded;
    tree, currentPos := Synchronize(pool.cmtHash, pool.cmtNode, pool.transactions);
    if Injective(pool.cmtHash) && |pool.anchored| <= Exp2(MAX_TREE_DEPTH) {
      AnchorsAgree(pool.cmtHash, tree.leaves, pool.anchored);
    }
    if pos < currentPos <= Exp2(MAX_TREE_DEPTH) {
      PathAuthenticates(pool.cmtHash, tree.leaves, MAX_TREE_DEPTH, pos);
      TopNodeIsRoot(pool.cmtHash, tree.leaves, MAX_TREE_DEPTH);
      LeafIs(pool.cmtHash, tree.leaves, pos);
    }
  }

  lemma LeafIs<N>(hash: Hasher<N>, leaves: seq<N>, pos: nat)
    requires pos < |leaves|
    ensures LeafAt(hash, leaves, pos) == leaves[pos]
  {
  }
}
