/** `CommitmentTree`: a Merkle tree over any number of leaves, padded with empty subtrees and
    packed row by row into one vector. It is measured against the padded perfect tree, whose
    nodes `NodeAt` defines without any packing. */
module CommitmentTrees {
  import opened MerkleRoot
  import opened Powers

  datatype Hasher<!N> = Hasher(combine: (N, N) -> N, emptyLeaf: N)

  // ---------------------------------------------------------------- the perfect tree

  /** The root of an empty tree of the given height. */
  function EmptyRoot<N>(hash: Hasher<N>, height: nat): N {
    if height == 0 then hash.emptyLeaf
    else hash.combine(EmptyRoot(hash, height - 1), EmptyRoot(hash, height - 1))
  }

  /** Node `j` of the row at height `h`, in the tree continued to the right with empty leaves. */
  function NodeAt<N>(hash: Hasher<N>, leaves: seq<N>, h: nat, j: nat): N {
    if h == 0 then if j < |leaves| then leaves[j] else hash.emptyLeaf
    else hash.combine(NodeAt(hash, leaves, h - 1, 2 * j), NodeAt(hash, leaves, h - 1, 2 * j + 1))
  }

  /** Number of nodes of the row at height `h` that have a leaf below them. */
  function Width(n: nat, h: nat): nat {
    if h == 0 then n else (Width(n, h - 1) + 1) / 2
  }

  /** The row with the dummy that makes its length even. */
  function PaddedWidth(n: nat, h: nat): nat {
    Width(n, h) + Width(n, h) % 2
  }

  /** Where the row at height `h` begins in the vector. */
  function Start(n: nat, h: nat): nat {
    if h == 0 then 0 else Start(n, h - 1) + PaddedWidth(n, h - 1)
  }

  function Row<N>(hash: Hasher<N>, leaves: seq<N>, h: nat, width: nat): (row: seq<N>)
    ensures |row| == width && forall j :: 0 <= j < width ==> row[j] == NodeAt(hash, leaves, h, j)
  {
    seq(width, j requires 0 <= j => NodeAt(hash, leaves, h, j))
  }

  /** The rows below height `h`, each padded to even length. */
  function Below<N>(hash: Hasher<N>, leaves: seq<N>, h: nat): (nodes: seq<N>)
    ensures |nodes| == Start(|leaves|, h)
  {
    if h == 0 then []
    else Below(hash, leaves, h - 1) + Row(hash, leaves, h - 1, PaddedWidth(|leaves|, h - 1))
  }

  /** The whole vector of a tree of the given depth. */
  function Packed<N>(hash: Hasher<N>, leaves: seq<N>, depth: nat): (nodes: seq<N>)
    ensures |nodes| == Start(|leaves|, depth) + Width(|leaves|, depth)
  {
    Below(hash, leaves, depth) + Row(hash, leaves, depth, Width(|leaves|, depth))
  }

  /** Right of the last leaf everything is empty. */
  lemma {:induction false} NodeBeyond<N>(hash: Hasher<N>, leaves: seq<N>, h: nat, j: nat)
    requires Width(|leaves|, h) <= j
    ensures NodeAt(hash, leaves, h, j) == EmptyRoot(hash, h)
  {
    if h > 0 {
      NodeBeyond(hash, leaves, h - 1, 2 * j);
      NodeBeyond(hash, leaves, h - 1, 2 * j + 1);
    }
  }

  lemma {:induction false} BelowAt<N>(hash: Hasher<N>, leaves: seq<N>, d: nat, h: nat, j: nat)
    requires h < d && j < PaddedWidth(|leaves|, h)
    ensures Start(|leaves|, h) + j < Start(|leaves|, d)
    ensures Below(hash, leaves, d)[Start(|leaves|, h) + j] == NodeAt(hash, leaves, h, j)
  {
    if h < d - 1 {
      BelowAt(hash, leaves, d - 1, h, j);
    }
  }

  /** Every row of the vector holds the nodes of the perfect tree. */
  lemma PackedAt<N>(hash: Hasher<N>, leaves: seq<N>, d: nat, h: nat, j: nat)
    requires h <= d && j < if h < d then PaddedWidth(|leaves|, h) else Width(|leaves|, h)
    ensures Start(|leaves|, h) + j < |Packed(hash, leaves, d)|
    ensures Packed(hash, leaves, d)[Start(|leaves|, h) + j] == NodeAt(hash, leaves, h, j)
  {
    if h < d {
      BelowAt(hash, leaves, d, h, j);
    }
  }

  /** A row has a single node exactly if the leaves fit below it. */
  lemma WidthWithin(n: nat, h: nat)
    ensures Width(n, h) == 1 <==> 1 <= n <= Exp2(h)
  {
    WidthPositive(n, h);
    if n <= Exp2(h) {
      WidthBound(n, h, 1);
    } else {
      WidthExceeds(n, h, 1);
    }
  }

  lemma {:induction false} WidthBound(n: nat, h: nat, m: nat)
    requires n <= m * Exp2(h)
    ensures Width(n, h) <= m
  {
    if h > 0 {
      EvenBlocks(m, h);
      TwiceBlocks(m, h);
      WidthBound(n, h - 1, 2 * m);
    }
  }

  lemma {:induction false} WidthExceeds(n: nat, h: nat, m: nat)
    requires n > m * Exp2(h)
    ensures Width(n, h) > m
  {
    if h > 0 {
      TwiceBlocks(m, h);
      WidthExceeds(n, h - 1, 2 * m);
    }
  }

  lemma TwiceBlocks(m: nat, h: nat)
    requires h > 0
    ensures m * Exp2(h) == (2 * m) * Exp2(h - 1)
  {
  }

  lemma {:induction false} WidthPositive(n: nat, h: nat)
    ensures n > 0 <==> Width(n, h) > 0
  {
    if h > 0 {
      WidthPositive(n, h - 1);
    }
  }

  // ---------------------------------------------------------------- the number of nodes

  /** The number of rows below height `d` that get a dummy. */
  function OddRows(n: nat, d: nat): nat {
    if d == 0 then 0 else OddRows(n, d - 1) + Width(n, d - 1) % 2
  }

  lemma {:induction false} ExactCount(n: nat, d: nat)
    ensures Start(n, d) + 2 * Width(n, d) == 2 * n + 2 * OddRows(n, d)
  {
    if d > 0 {
      ExactCount(n, d - 1);
    }
  }

  lemma {:induction false} OddRowsBound(n: nat, d: nat)
    ensures OddRows(n, d) <= d
  {
    if d > 0 {
      OddRowsBound(n, d - 1);
    }
  }

  /** The tree needs at most two nodes per leaf and two per level. */
  lemma NodeCount<N>(hash: Hasher<N>, leaves: seq<N>, depth: nat)
    ensures |Packed(hash, leaves, depth)| == 2 * |leaves| + 2 * OddRows(|leaves|, depth) - Width(|leaves|, depth)
    ensures leaves != [] ==> |Packed(hash, leaves, depth)| <= 2 * |leaves| + 2 * depth - 1
  {
    ExactCount(|leaves|, depth);
    OddRowsBound(|leaves|, depth);
    WidthPositive(|leaves|, depth);
  }

  /** The zeros among the lowest `d` bits of `m`. */
  function ZeroBits(m: nat, d: nat): nat {
    if d == 0 then 0 else 1 - m % 2 + ZeroBits(m / 2, d - 1)
  }

  lemma {:induction false} WidthOfHalf(n: nat, h: nat)
    ensures Width((n + 1) / 2, h) == Width(n, h + 1)
  {
    if h > 0 {
      WidthOfHalf(n, h - 1);
    }
  }

  lemma {:induction false} OddRowsOfHalf(n: nat, d: nat)
    ensures OddRows(n, d + 1) == n % 2 + OddRows((n + 1) / 2, d)
  {
    if d > 0 {
      OddRowsOfHalf(n, d - 1);
      WidthOfHalf(n, d - 1);
    }
  }

  /** A row is odd exactly where the last position, counted from zero, has a zero bit. */
  lemma {:induction false} OddRowsAreZeroBits(n: nat, d: nat)
    requires n > 0
    ensures OddRows(n, d) == ZeroBits(n - 1, d)
    decreases d
  {
    if d > 0 {
      OddRowsOfHalf(n, d - 1);
      OddRowsAreZeroBits((n + 1) / 2, d - 1);
    }
  }

  /** When the capacity computed in `new` is enough. For a tree that is not overfull: if at
      most half of the lowest `depth` bits of the last position are zero. */
  lemma CapacitySuffices<N>(hash: Hasher<N>, leaves: seq<N>, depth: nat)
    ensures |Packed(hash, leaves, depth)| <= 2 * |leaves| + depth - 1
       <==> 2 * OddRows(|leaves|, depth) <= depth - 1 + Width(|leaves|, depth)
    ensures 1 <= |leaves| <= Exp2(depth) ==>
      (|Packed(hash, leaves, depth)| <= 2 * |leaves| + depth - 1 <==> 2 * ZeroBits(|leaves| - 1, depth) <= depth)
  {
    NodeCount(hash, leaves, depth);
    WidthWithin(|leaves|, depth);
    if leaves != [] {
      OddRowsAreZeroBits(|leaves|, depth);
    }
  }

  /** The capacity computed in `new` is no bound on the number of nodes. */
  lemma CapacityIsExceeded<N>(hash: Hasher<N>, leaf: N)
    ensures |Packed(hash, [leaf], 1)| == 3 > 2 * 1 + 1 - 1
  {
    assert Width(1, 0) == 1 && Width(1, 1) == 1;
    assert Start(1, 1) == Start(1, 0) + PaddedWidth(1, 0);
  }

  // ---------------------------------------------------------------- root of the padded leaves

  function LeafAt<N>(hash: Hasher<N>, leaves: seq<N>, pos: nat): N {
    if pos < |leaves| then leaves[pos] else hash.emptyLeaf
  }

  /** `2^h` leaves from `from` on, empty ones beyond the end. */
  function Window<N>(hash: Hasher<N>, leaves: seq<N>, from: nat, h: nat): (w: seq<N>)
    ensures |w| == Exp2(h) && forall i :: 0 <= i < |w| ==> w[i] == LeafAt(hash, leaves, from + i)
  {
    seq(Exp2(h), i requires 0 <= i => LeafAt(hash, leaves, from + i))
  }

  lemma {:induction false} Exp2IsPowerOfTwo(h: nat)
    ensures IsPowerOfTwo(Exp2(h))
  {
    if h > 0 {
      Exp2IsPowerOfTwo(h - 1);
    }
  }

  /** A node is the Merkle root of the leaves below it, padded with empty leaves. */
  lemma {:induction false} NodeIsRoot<N>(hash: Hasher<N>, leaves: seq<N>, h: nat, j: nat)
    ensures IsPowerOfTwo(Exp2(h))
    ensures NodeAt(hash, leaves, h, j) == Root(hash.combine, Window(hash, leaves, j * Exp2(h), h))
  {
    hide Root, IsPowerOfTwo;
    Exp2IsPowerOfTwo(h);
    if h == 0 {
      WindowOfOne(hash, leaves, j);
    } else {
      NodeIsRoot(hash, leaves, h - 1, 2 * j);
      NodeIsRoot(hash, leaves, h - 1, 2 * j + 1);
      WindowHalves(hash, leaves, j, h);
      RootOfHalves(hash.combine, Window(hash, leaves, 2 * j * Exp2(h - 1), h - 1),
                   Window(hash, leaves, (2 * j + 1) * Exp2(h - 1), h - 1));
    }
  }

  lemma WindowOfOne<N>(hash: Hasher<N>, leaves: seq<N>, j: nat)
    ensures IsPowerOfTwo(Exp2(0))
    ensures NodeAt(hash, leaves, 0, j) == Root(hash.combine, Window(hash, leaves, j * Exp2(0), 0))
  {
    assert Window(hash, leaves, j * Exp2(0), 0)[0] == LeafAt(hash, leaves, j * Exp2(0) + 0) == LeafAt(hash, leaves, j);
  }

  lemma WindowHalves<N>(hash: Hasher<N>, leaves: seq<N>, j: nat, h: nat)
    requires h > 0
    ensures Window(hash, leaves, j * Exp2(h), h)
         == Window(hash, leaves, 2 * j * Exp2(h - 1), h - 1) + Window(hash, leaves, (2 * j + 1) * Exp2(h - 1), h - 1)
  {
    var m := Exp2(h - 1);
    assert j * Exp2(h) == 2 * j * m && (2 * j + 1) * m == 2 * j * m + m;
  }

  // ---------------------------------------------------------------- concatenated leaves

  /** A full block of leaves on the left does not affect the nodes to its right, ... */
  lemma {:induction false} NodeAtSuffix<N>(hash: Hasher<N>, xs: seq<N>, ys: seq<N>, h: nat, q: nat, i: nat)
    requires |xs| == q * Exp2(h)
    ensures NodeAt(hash, xs + ys, h, q + i) == NodeAt(hash, ys, h, i)
  {
    if h > 0 {
      assert q * Exp2(h) == (2 * q) * Exp2(h - 1);
      NodeAtSuffix(hash, xs, ys, h - 1, 2 * q, 2 * i);
      NodeAtSuffix(hash, xs, ys, h - 1, 2 * q, 2 * i + 1);
      assert 2 * (q + i) == 2 * q + 2 * i;
    }
  }

  /** ... and leaves on the right do not affect the full nodes to their left. */
  lemma {:induction false} NodeAtPrefix<N>(hash: Hasher<N>, xs: seq<N>, ys: seq<N>, h: nat, j: nat)
    requires (j + 1) * Exp2(h) <= |xs|
    ensures NodeAt(hash, xs + ys, h, j) == NodeAt(hash, xs, h, j)
  {
    if h > 0 {
      var m := Exp2(h - 1);
      assert (j + 1) * Exp2(h) == (2 * j + 1) * m + m && (2 * j + 1) * m >= 0;
      assert (2 * j + 1 + 1) * m == (2 * j + 1) * m + m;
      NodeAtPrefix(hash, xs, ys, h - 1, 2 * j);
      NodeAtPrefix(hash, xs, ys, h - 1, 2 * j + 1);
    }
  }

  /** Full blocks contribute full rows. */
  lemma {:induction false} WidthOfBlocks(q: nat, l: nat, k: nat, h: nat)
    requires h <= k
    ensures Width(q * Exp2(k) + l, h) == q * Exp2(k - h) + Width(l, h)
  {
    hide Exp2;
    if h > 0 {
      WidthOfBlocks(q, l, k, h - 1);
      EvenBlocks(q, k - h + 1);
      HalfOfSum(q * Exp2(k - h), Width(l, h - 1));
    }
  }

  lemma HalfOfSum(m: int, w: int)
    ensures (2 * m + w + 1) / 2 == m + (w + 1) / 2
  {
  }

  lemma PaddedWidthOfBlocks(q: nat, l: nat, k: nat, h: nat)
    requires h < k
    ensures PaddedWidth(q * Exp2(k) + l, h) == q * Exp2(k - h) + PaddedWidth(l, h)
  {
    hide Exp2, Width;
    WidthOfBlocks(q, l, k, h);
    EvenBlocks(q, k - h);
    EvenPlus(q * Exp2(k - h - 1), Width(l, h));
  }

  lemma EvenBlocks(q: nat, k: nat)
    requires k > 0
    ensures q * Exp2(k) == 2 * (q * Exp2(k - 1))
  {
  }

  lemma EvenPlus(m: nat, w: nat)
    ensures (2 * m + w) % 2 == w % 2
  {
  }

  lemma {:induction false} StartOfBlocks(q: nat, l: nat, k: nat, h: nat)
    requires h <= k
    ensures Start(q * Exp2(k) + l, h) == q * Start(Exp2(k), h) + Start(l, h)
  {
    hide Exp2, Width, PaddedWidth;
    if h > 0 {
      StartOfBlocks(q, l, k, h - 1);
      PaddedWidthOfBlocks(q, l, k, h - 1);
      FullWidth(k, h - 1);
      Distributes(q, Start(Exp2(k), h - 1), Exp2(k - (h - 1)));
    }
  }

  lemma Distributes(q: nat, a: nat, b: nat)
    ensures q * (a + b) == q * a + q * b
  {
  }

  /** The rows of a full block halve until a single node is left. */
  lemma FirstWidth(k: nat, h: nat)
    requires h <= k
    ensures Exp2(k - h) > 1 <==> h < k
    ensures h < k ==> Exp2(k - h) / 2 == Exp2(k - h - 1) && Start(Exp2(k), h + 1) == Start(Exp2(k), h) + Exp2(k - h)
  {
    FullWidth(k, h);
  }

  lemma SameParity(q: nat, l: nat, k: nat, h: nat)
    requires h < k
    ensures Width(q * Exp2(k) + l, h) % 2 == Width(l, h) % 2
  {
    hide Exp2, Width;
    WidthOfBlocks(q, l, k, h);
    EvenBlocks(q, k - h);
    EvenPlus(q * Exp2(k - h - 1), Width(l, h));
  }

  lemma BelowNothing<N>(hash: Hasher<N>, leaves: seq<N>)
    ensures Below(hash, leaves, 0) == []
  {
  }

  lemma FullWidth(k: nat, h: nat)
    requires h <= k
    ensures Width(Exp2(k), h) == Exp2(k - h) && (h < k ==> PaddedWidth(Exp2(k), h) == Exp2(k - h))
  {
    hide Exp2, Width;
    WidthOfBlocks(1, 0, k, h);
    WidthOfNothing(h);
    if h < k {
      EvenBlocks(1, k - h);
    }
  }

  lemma {:induction false} WidthOfNothing(h: nat)
    ensures Width(0, h) == 0
  {
    if h > 0 {
      WidthOfNothing(h - 1);
    }
  }

  /** Every entry of the cache is the empty root of its index, whatever was asked before. */
  ghost predicate CacheOk<N>(hash: Hasher<N>, cache: seq<N>) {
    forall i :: 0 <= i < |cache| ==> cache[i] == EmptyRoot(hash, i)
  }

  /** `Hashable::empty_root`, which grows the cache as far as needed. */
  method CachedEmptyRoot<N>(hash: Hasher<N>, cache: seq<N>, level: nat) returns (root: N, cache': seq<N>)
    requires CacheOk(hash, cache)
    ensures root == EmptyRoot(hash, level)
    ensures CacheOk(hash, cache') && cache <= cache' && |cache'| > level
  {
    cache' := cache;
    if cache' == [] {
      cache' := [hash.emptyLeaf];
    }
    for i := |cache'| - 1 to if level < |cache'| - 1 then |cache'| - 1 else level
      invariant CacheOk(hash, cache') && cache <= cache' && |cache'| == i + 1
    {
      cache' := cache' + [hash.combine(cache'[i], cache'[i])];
    }
    root := cache'[level];
  }

  lemma NodeAtJoins<N>(hash: Hasher<N>, leaves: seq<N>, h: nat, j: nat)
    ensures NodeAt(hash, leaves, h + 1, j)
         == hash.combine(NodeAt(hash, leaves, h, 2 * j), NodeAt(hash, leaves, h, 2 * j + 1))
  {
  }

  lemma RowAppend<N>(hash: Hasher<N>, leaves: seq<N>, h: nat, j: nat)
    ensures Row(hash, leaves, h, j + 1) == Row(hash, leaves, h, j) + [NodeAt(hash, leaves, h, j)]
  {
    hide NodeAt;
  }

  lemma HalfWidth(n: nat, h: nat)
    ensures Width(n, h + 1) == PaddedWidth(n, h) / 2 && PaddedWidth(n, h) % 2 == 0
  {
  }

  // ---------------------------------------------------------------- the top of the vector

  /** What `root` returns: the last node of the topmost row. */
  function TopNode<N>(hash: Hasher<N>, leaves: seq<N>, depth: nat): N {
    var width := Width(|leaves|, depth);
    NodeAt(hash, leaves, depth, if width == 0 then 0 else width - 1)
  }

  /** If the leaves fit, it is the root of the padded tree. */
  lemma TopNodeIsRoot<N>(hash: Hasher<N>, leaves: seq<N>, depth: nat)
    requires |leaves| <= Exp2(depth)
    ensures TopNode(hash, leaves, depth) == NodeAt(hash, leaves, depth, 0)
  {
    hide NodeAt, Width, Exp2;
    WidthWithin(|leaves|, depth);
    WidthPositive(|leaves|, depth);
  }

  /** If they do not, the first `2^depth` leaves do not enter it. */
  lemma TopNodeForgets<N>(hash: Hasher<N>, xs: seq<N>, ys: seq<N>, depth: nat)
    requires |xs| == Exp2(depth) && ys != []
    ensures TopNode(hash, xs + ys, depth) == TopNode(hash, ys, depth)
  {
    hide NodeAt, Width;
    WidthPositive(|ys|, depth);
    WidthOfBlocks(1, |ys|, depth, depth);
    NodeAtSuffix(hash, xs, ys, depth, 1, Width(|ys|, depth) - 1);
  }

  /** The leaves below a node, padding included, are determined by the node if the hash is
      injective. */
  lemma {:induction false} NodeDeterminesLeaves<N(!new)>(hash: Hasher<N>, xs: seq<N>, ys: seq<N>, h: nat, j: nat,
      pos: nat)
    requires Injective(hash) && NodeAt(hash, xs, h, j) == NodeAt(hash, ys, h, j)
    requires j * Exp2(h) <= pos < (j + 1) * Exp2(h)
    ensures LeafAt(hash, xs, pos) == LeafAt(hash, ys, pos)
  {
    if h > 0 {
      HalfOfBlock(j, h);
      if pos < (2 * j + 1) * Exp2(h - 1) {
        NodeDeterminesLeaves(hash, xs, ys, h - 1, 2 * j, pos);
      } else {
        NodeDeterminesLeaves(hash, xs, ys, h - 1, 2 * j + 1, pos);
      }
    }
  }

  lemma HalfOfBlock(j: nat, h: nat)
    requires h > 0
    ensures j * Exp2(h) == (2 * j) * Exp2(h - 1) && (j + 1) * Exp2(h) == (2 * j + 2) * Exp2(h - 1)
  {
  }

  /** And the node by its leaves. */
  lemma {:induction false} LeavesDetermineNode<N>(hash: Hasher<N>, xs: seq<N>, ys: seq<N>, h: nat, j: nat)
    requires forall pos :: j * Exp2(h) <= pos < (j + 1) * Exp2(h) ==> LeafAt(hash, xs, pos) == LeafAt(hash, ys, pos)
    ensures NodeAt(hash, xs, h, j) == NodeAt(hash, ys, h, j)
  {
    if h == 0 {
      assert j * Exp2(0) == j && (j + 1) * Exp2(0) == j + 1;
      assert LeafAt(hash, xs, j) == LeafAt(hash, ys, j);
    } else {
      HalfOfBlock(j, h);
      HalvesMeet(j, Exp2(h - 1));
      LeavesDetermineNode(hash, xs, ys, h - 1, 2 * j);
      LeavesDetermineNode(hash, xs, ys, h - 1, 2 * j + 1);
    }
  }

  lemma HalvesMeet(j: nat, m: nat)
    ensures (2 * j) * m <= (2 * j + 1) * m <= (2 * j + 2) * m
  {
    assert (2 * j + 1) * m == (2 * j) * m + m && (2 * j + 2) * m == (2 * j + 1) * m + m;
  }

  // ---------------------------------------------------------------- authentication paths

  /** From node `p` at height `h` to the top: each sibling, and whether the node is a right child. */
  function AuthPath<N>(hash: Hasher<N>, leaves: seq<N>, h: nat, depth: nat, p: nat): (path: seq<(N, bool)>)
    requires h <= depth
    ensures |path| == depth - h
    decreases depth - h
  {
    if h == depth then []
    else
      [(NodeAt(hash, leaves, h, if p % 2 == 0 then p + 1 else p - 1), p % 2 == 1)]
      + AuthPath(hash, leaves, h + 1, depth, p / 2)
  }

  /** The number whose bits, least significant first, are the directions of a path. */
  function PositionOf<N>(path: seq<(N, bool)>): nat {
    if path == [] then 0 else (if path[0].1 then 1 else 0) + 2 * PositionOf(path[1..])
  }

  /** The directions of a path are the bits of its position. */
  lemma {:induction false} DirectionsArePosition<N>(hash: Hasher<N>, leaves: seq<N>, h: nat, depth: nat, p: nat)
    requires h <= depth && p < Exp2(depth - h)
    ensures PositionOf(AuthPath(hash, leaves, h, depth, p)) == p
    decreases depth - h
  {
    hide NodeAt;
    if h < depth {
      DirectionsArePosition(hash, leaves, h + 1, depth, p / 2);
      assert AuthPath(hash, leaves, h, depth, p)[1..] == AuthPath(hash, leaves, h + 1, depth, p / 2);
    }
  }

  lemma AuthPathNext<N>(hash: Hasher<N>, leaves: seq<N>, h: nat, depth: nat, p: nat)
    requires h < depth
    ensures AuthPath(hash, leaves, h, depth, p)
         == [(NodeAt(hash, leaves, h, if p % 2 == 0 then p + 1 else p - 1), p % 2 == 1)]
            + AuthPath(hash, leaves, h + 1, depth, p / 2)
  {
  }

  lemma AuthPathEnds<N>(hash: Hasher<N>, leaves: seq<N>, depth: nat, p: nat)
    ensures AuthPath(hash, leaves, depth, depth, p) == []
  {
  }

  /** How the packing continues from one row to the next. */
  lemma NextRow(n: nat, h: nat)
    ensures PaddedWidth(n, h) == if Width(n, h) % 2 == 1 then Width(n, h) + 1 else Width(n, h)
    ensures Start(n, h + 1) == Start(n, h) + PaddedWidth(n, h) && Width(n, h + 1) == PaddedWidth(n, h) / 2
    ensures Start(n, 0) == 0 && Width(n, 0) == n
  {
  }

  /** The root a path leads to from a leaf. */
  function Fold<N>(hash: Hasher<N>, leaf: N, path: seq<(N, bool)>): N {
    if path == [] then leaf
    else Fold(hash, if path[0].1 then hash.combine(path[0].0, leaf) else hash.combine(leaf, path[0].0), path[1..])
  }

  lemma {:induction false} FoldAppend<N>(hash: Hasher<N>, leaf: N, path: seq<(N, bool)>, sibling: N, right: bool)
    ensures Fold(hash, leaf, path + [(sibling, right)])
         == var node := Fold(hash, leaf, path); if right then hash.combine(sibling, node) else hash.combine(node,
             sibling)
  {
    if path != [] {
      var (s, r) := path[0];
      FoldAppend(hash, if r then hash.combine(s, leaf) else hash.combine(leaf, s), path[1..], sibling, right);
      assert (path + [(sibling, right)])[1..] == path[1..] + [(sibling, right)];
    }
  }

  lemma {:induction false} FoldReachesTop<N>(hash: Hasher<N>, leaves: seq<N>, h: nat, depth: nat, p: nat)
    requires h <= depth && p < Exp2(depth - h)
    ensures Fold(hash, NodeAt(hash, leaves, h, p), AuthPath(hash, leaves, h, depth, p)) == NodeAt(hash, leaves,
        depth, 0)
    decreases depth - h
  {
    if h < depth {
      var path := AuthPath(hash, leaves, h, depth, p);
      FoldReachesTop(hash, leaves, h + 1, depth, p / 2);
      NodeAtJoins(hash, leaves, h, p / 2);
      assert path[1..] == AuthPath(hash, leaves, h + 1, depth, p / 2);
      assert p == if p % 2 == 0 then 2 * (p / 2) else 2 * (p / 2) + 1;
    }
  }

  /** Folding the path of any position, including padding positions, from its leaf gives the
      root of the tree. */
  lemma PathAuthenticates<N>(hash: Hasher<N>, leaves: seq<N>, depth: nat, pos: nat)
    requires pos < Exp2(depth)
    ensures Fold(hash, LeafAt(hash, leaves, pos), AuthPath(hash, leaves, 0, depth, pos))
         == NodeAt(hash, leaves, depth, 0)
  {
    FoldReachesTop(hash, leaves, 0, depth, pos);
  }

  ghost predicate Injective<N(!new)>(hash: Hasher<N>) {
    forall a, b, c, d :: hash.combine(a, b) == hash.combine(c, d) ==> a == c && b == d
  }

  ghost predicate SameDirections<N>(p: seq<(N, bool)>, q: seq<(N, bool)>) {
    |p| == |q| && forall i :: 0 <= i < |p| ==> p[i].1 == q[i].1
  }

  /** With a collision-free hash, one root and one position admit only one leaf and path. */
  lemma {:induction false} PathIsBinding<N(!new)>(hash: Hasher<N>, leaf: N, path: seq<(N, bool)>, leaf': N,
      path': seq<(N, bool)>)
    requires Injective(hash) && SameDirections(path, path')
    requires Fold(hash, leaf, path) == Fold(hash, leaf', path')
    ensures leaf == leaf' && path == path'
  {
    if path != [] {
      var s, s' := path[0].0, path'[0].0;
      var up := if path[0].1 then hash.combine(s, leaf) else hash.combine(leaf, s);
      var up' := if path[0].1 then hash.combine(s', leaf') else hash.combine(leaf', s');
      PathIsBinding(hash, up, path[1..], up', path'[1..]);
      assert path == [path[0]] + path[1..] && path' == [path'[0]] + path'[1..];
    }
  }

  const MAX_TREE_DEPTH: nat := 32

  /** The fixed-size path of the circuits, of which the first `depth` entries count. */
  datatype CircuitPath<N> = CircuitPath(path: seq<(N, bool)>, depth: nat)

  /** `MerklePath::root`. */
  method PathRoot<N>(hash: Hasher<N>, p: CircuitPath<N>, leaf: N) returns (currentRoot: N)
    requires |p.path| == MAX_TREE_DEPTH
    ensures currentRoot == Fold(hash, leaf, p.path[..if p.depth < MAX_TREE_DEPTH then p.depth else MAX_TREE_DEPTH])
  {
    currentRoot := leaf;
    for i := 0 to MAX_TREE_DEPTH
      invariant currentRoot == Fold(hash, leaf, p.path[..if i < p.depth then i else p.depth])
    {
      if i < p.depth {
        var (sibling, leafIsOnRight) := p.path[i];
        FoldAppend(hash, leaf, p.path[..i], sibling, leafIsOnRight);
        assert p.path[..i + 1] == p.path[..i] + [(sibling, leafIsOnRight)];
        currentRoot := if leafIsOnRight then hash.combine(sibling, currentRoot) else hash.combine(currentRoot, sibling);
      }
    }
  }

  // ---------------------------------------------------------------- blocks of leaves

  function ConcatLeaves<N>(blocks: seq<seq<N>>): seq<N> {
    if blocks == [] then [] else blocks[0] + ConcatLeaves(blocks[1..])
  }

  lemma {:induction false} ConcatAt<N>(blocks: seq<seq<N>>, t: nat)
    requires t < |blocks|
    ensures ConcatLeaves(blocks) == ConcatLeaves(blocks[..t]) + (blocks[t] + ConcatLeaves(blocks[t + 1..]))
  {
    if t > 0 {
      ConcatAt(blocks[1..], t - 1);
      assert blocks[1..][..t - 1] == blocks[..t][1..] && blocks[1..][t..] == blocks[t + 1..];
    } else {
      assert blocks[..0] == [];
    }
  }

  lemma {:induction false} ConcatLength<N>(blocks: seq<seq<N>>, size: nat)
    requires forall b :: b in blocks ==> |b| == size
    ensures |ConcatLeaves(blocks)| == |blocks| * size
  {
    if blocks != [] {
      ConcatLength(blocks[1..], size);
      OneMore(|blocks| - 1, size);
    }
  }

  lemma OneMore(n: nat, size: nat)
    ensures (n + 1) * size == size + n * size
  {
  }

  /** All blocks but the last have `2^k` leaves. */
  ghost predicate Blocks<N>(blocks: seq<seq<N>>, k: nat) {
    && |blocks| > 0
    && (forall t :: 0 <= t < |blocks| - 1 ==> |blocks[t]| == Exp2(k))
  }

  /** Up to height `k`, the nodes over a block are those of the block's own tree. */
  lemma BlockNode<N>(hash: Hasher<N>, blocks: seq<seq<N>>, k: nat, h: nat, t: nat, i: nat)
    requires Blocks(blocks, k) && h <= k && t < |blocks|
    requires t < |blocks| - 1 ==> i < Exp2(k - h)
    ensures NodeAt(hash, ConcatLeaves(blocks), h, t * Exp2(k - h) + i) == NodeAt(hash, blocks[t], h, i)
  {
    hide NodeAt, ConcatLeaves, Exp2;
    NoBlocks<N>();
    var before, rest := ConcatLeaves(blocks[..t]), ConcatLeaves(blocks[t + 1..]);
    ConcatAt(blocks, t);
    ConcatLength(blocks[..t], Exp2(k));
    Exp2Sum(k - h, h);
    BlockArithmetic(t, Exp2(k - h), Exp2(h), i);
    NodeAtSuffix(hash, before, blocks[t] + rest, h, t * Exp2(k - h), i);
    if t < |blocks| - 1 {
      NodeAtPrefix(hash, blocks[t], rest, h, i);
    } else {
      assert blocks[t + 1..] == [] && blocks[t] + rest == blocks[t];
    }
  }

  lemma BlockArithmetic(t: nat, a: nat, b: nat, i: nat)
    ensures t * (a * b) == (t * a) * b
    ensures i < a ==> (i + 1) * b <= a * b
  {
    if i < a {
      assert a * b == (i + 1) * b + (a - i - 1) * b;
    }
  }

  /** The number of levels of a full tree. */
  function Log2(n: nat): (k: nat)
    requires IsPowerOfTwo(n)
    ensures Exp2(k) == n
  {
    if n == 1 then 0 else 1 + Log2(n / 2)
  }

  // ---------------------------------------------------------------- the tree

  class CommitmentTree<N> {
    const hash: Hasher<N>
    const depth: nat
    const leafCount: nat
    const nodes: seq<N>
    var cache: seq<N>
    ghost const leaves: seq<N>

    ghost predicate Valid()
      reads this
    {
      leafCount == |leaves| && nodes == Packed(hash, leaves, depth) && CacheOk(hash, cache)
    }

    /** A tree from its parts, as the struct literals of the source build it. */
    constructor (hash: Hasher<N>, depth: nat, nodes: seq<N>, leafCount: nat, cache: seq<N>, ghost leaves: seq<N>)
      requires nodes == Packed(hash, leaves, depth) && leafCount == |leaves| && CacheOk(hash, cache)
      ensures Valid() && this.hash == hash && this.depth == depth && this.leaves == leaves
    {
      this.hash, this.depth, this.nodes, this.leafCount, this.cache := hash, depth, nodes, leafCount, cache;
      this.leaves := leaves;
    }

    /** `new`. The capacity hint `2 * n + depth - 1` underflows for an empty tree of depth 0. */
    static method New(hash: Hasher<N>, depth: nat, leafs: seq<N>) returns (t: CommitmentTree<N>)
      requires 2 * |leafs| + depth > 0
      ensures fresh(t) && t.Valid() && t.hash == hash && t.depth == depth && t.leaves == leafs
    {
      assert Row(hash, leafs, 0, |leafs|) == leafs;
      t := Complete(hash, depth, leafs, 0, |leafs|, 0, |leafs|, leafs);
    }

    /** The row above a complete padded row. */
    static method CompleteRow(hash: Hasher<N>, below: seq<N>, start: nat, width: nat, height: nat, ghost leaves: seq<N>)
      returns (nodes: seq<N>)
      requires below == Below(hash, leaves, height + 1)
      requires start == Start(|leaves|, height) && width == PaddedWidth(|leaves|, height)
      ensures nodes == Packed(hash, leaves, height + 1)
    {
      hide NodeAt, Below, Width;
      nodes := below;
      for j := 0 to width / 2
        invariant nodes == below + Row(hash, leaves, height + 1, j)
      {
        BelowAt(hash, leaves, height + 1, height, 2 * j);
        BelowAt(hash, leaves, height + 1, height, 2 * j + 1);
        NodeAtJoins(hash, leaves, height, j);
        RowAppend(hash, leaves, height + 1, j);
        nodes := nodes + [hash.combine(nodes[start + 2 * j], nodes[start + 2 * j + 1])];
      }
      HalfWidth(|leaves|, height);
    }

    /** Infers the rows from `heightp` up to the top, given those below and the one at
        `heightp`. */
    static method Complete(hash: Hasher<N>, treeDepth: nat, tree: seq<N>, prevStart: nat, prevWidth: nat, heightp: nat,
        leafs: nat, ghost leaves: seq<N>) returns (t: CommitmentTree<N>)
      requires heightp <= treeDepth && leafs == |leaves|
      requires tree == Packed(hash, leaves, heightp)
      requires prevStart == Start(leafs, heightp) && prevWidth == Width(leafs, heightp)
      ensures fresh(t) && t.Valid() && t.hash == hash && t.depth == treeDepth && t.leaves == leaves
    {
      var nodes, start, width, cache := tree, prevStart, prevWidth, [];
      for height := heightp to treeDepth
        invariant nodes == Packed(hash, leaves, height) && CacheOk(hash, cache)
        invariant start == Start(leafs, height) && width == Width(leafs, height)
      {
        if width % 2 == 1 {
          var dummy;
          dummy, cache := CachedEmptyRoot(hash, cache, height);
          NodeBeyond(hash, leaves, height, width);
          RowAppend(hash, leaves, height, width);
          width := width + 1;
          nodes := nodes + [dummy];
        }
        nodes := CompleteRow(hash, nodes, start, width, height, leaves);
        start := start + width;
        width := width / 2;
      }
      t := new CommitmentTree(hash, treeDepth, nodes, leafs, cache, leaves);
    }

    /** `merge`: full trees of `2^k` leaves, followed by one of any size, become the tree that
        `new` builds from all their leaves. The source asserts the sizes of the full trees and
        indexes every subtree up to height `k`. */
    static method Merge(hash: Hasher<N>, treeDepth: nat, subtrees: seq<CommitmentTree<N>>)
      returns (t: CommitmentTree<N>)
      requires forall s :: s in subtrees ==> s.Valid() && s.hash == hash
      requires |subtrees| > 1 ==>
        && IsPowerOfTwo(subtrees[0].leafCount) && Log2(subtrees[0].leafCount) <= treeDepth
        && (forall s :: s in subtrees ==> Log2(subtrees[0].leafCount) <= s.depth)
        && (forall i :: 0 <= i < |subtrees| - 1 ==> subtrees[i].leafCount == subtrees[0].leafCount)
      ensures fresh(t) && t.Valid() && t.hash == hash
      ensures t.leaves == ConcatLeaves(LeavesOf(subtrees))
      ensures t.depth == if |subtrees| == 1 then subtrees[0].depth else treeDepth
      ensures t.nodes == Packed(hash, ConcatLeaves(LeavesOf(subtrees)), t.depth)
    {
      hide NodeAt, Below, Start, Width, Exp2;
      if subtrees == [] {
        WidthOfNothing(treeDepth);
        PositiveStart(0, treeDepth);
        t := new CommitmentTree(hash, treeDepth, [], 0, [], []);
      } else if |subtrees| == 1 {
        var s := subtrees[0];
        assert s in subtrees;
        ConcatOne(s.leaves);
        assert LeavesOf(subtrees) == [s.leaves];
        t := new CommitmentTree(hash, s.depth, s.nodes, s.leafCount, s.cache, s.leaves);
      } else {
        assert forall i :: 0 <= i < |subtrees| ==> subtrees[i] in subtrees;
        assert forall i :: 0 <= i < |subtrees| ==> LeavesOf(subtrees)[i] == subtrees[i].leaves;
        t := MergeSeveral(hash, treeDepth, subtrees, Log2(subtrees[0].leafCount));
      }
    }

    static method MergeSeveral(hash: Hasher<N>, treeDepth: nat, subtrees: seq<CommitmentTree<N>>, ghost k: nat)
      returns (t: CommitmentTree<N>)
      requires |subtrees| > 1 && k <= treeDepth && Mergeable(hash, subtrees, k)
      ensures fresh(t) && t.Valid() && t.hash == hash && t.depth == treeDepth
      ensures t.leaves == ConcatLeaves(LeavesOf(subtrees))
    {
      hide NodeAt, Below, ConcatLeaves, Exp2, Width, PaddedWidth, Start, Mergeable;
      ghost var leaves := ConcatLeaves(LeavesOf(subtrees));
      var q, last := |subtrees| - 1, subtrees[|subtrees| - 1];
      MergeableCounts(hash, subtrees, k);
      BlocksLength(LeavesOf(subtrees), k);
      NextRow(last.leafCount, 0);
      NextRow(q * Exp2(k) + last.leafCount, 0);
      NextRow(Exp2(k), 0);
      BelowNothing(hash, leaves);
      var height := 0;
      var firstStart, firstWidth := 0, subtrees[0].leafCount;
      var lastStart, lastWidth := 0, last.leafCount;
      var start, width := 0, q * firstWidth + lastWidth;
      var leafs := width;
      var tree := [];
      while true
        invariant height <= k && tree == Below(hash, leaves, height)
        invariant firstStart == Start(Exp2(k), height) && firstWidth == Exp2(k - height)
        invariant lastStart == Start(last.leafCount, height) && lastWidth == Width(last.leafCount, height)
        invariant start == Start(leafs, height) && width == Width(leafs, height)
        decreases k - height
      {
        FirstWidth(k, height);
        NextRow(last.leafCount, height);
        NextRow(leafs, height);
        WidthOfBlocks(q, last.leafCount, k, height);
        if lastWidth % 2 == 1 && firstWidth > 1 {
          lastWidth := lastWidth + 1;
          width := width + 1;
        }
        if height < k {
          SameParity(q, last.leafCount, k, height);
          PaddedWidthOfBlocks(q, last.leafCount, k, height);
        }
        MergeableCounts(hash, subtrees, k);
        var row := MergedRow(hash, subtrees, k, height, firstStart, firstWidth, lastStart, lastWidth);
        tree := tree + row;
        if firstWidth == 1 {
          break;
        }
        BelowNext(hash, leaves, height);
        firstStart, firstWidth := firstStart + firstWidth, firstWidth / 2;
        lastStart, lastWidth := lastStart + lastWidth, lastWidth / 2;
        start, width := start + width, width / 2;
        height := height + 1;
      }
      t := Complete(hash, treeDepth, tree, start, width, height, leafs, leaves);
    }

    /** The part of a subtree's vector that holds its row is its share of the merged row. */
    static function SubtreeRow(hash: Hasher<N>, subtrees: seq<CommitmentTree<N>>, ghost k: nat, ghost height: nat,
        t: nat, start: nat, width: nat): (part: seq<N>)
      requires t < |subtrees| && height <= k && Mergeable(hash, subtrees, k)
      requires IsRowOf(subtrees[t].leafCount, t < |subtrees| - 1, k, height, start, width)
      reads subtrees
      ensures part == Share(hash, ConcatLeaves(LeavesOf(subtrees)), height, t * Exp2(k - height), width)
    {
      hide *;
      SubtreeParts(hash, subtrees, k, t);
      ShareOfBlock(hash, LeavesOf(subtrees), k, height, t, subtrees[t].depth, width);
      subtrees[t].nodes[start..start + width]
    }

    /** The row at one height, gathered from the subtrees. */
    static method MergedRow(hash: Hasher<N>, subtrees: seq<CommitmentTree<N>>, ghost k: nat, ghost height: nat,
        firstStart: nat, firstWidth: nat, lastStart: nat, lastWidth: nat) returns (row: seq<N>)
      requires |subtrees| > 1 && height <= k && Mergeable(hash, subtrees, k)
      requires firstWidth == Exp2(k - height)
      requires forall t :: 0 <= t < |subtrees| - 1 ==> firstStart == Start(subtrees[t].leafCount, height)
      requires lastStart == Start(subtrees[|subtrees| - 1].leafCount, height)
      requires lastWidth == var n := subtrees[|subtrees| - 1].leafCount;
        if height < k then PaddedWidth(n, height) else Width(n, height)
      ensures row == Row(hash, ConcatLeaves(LeavesOf(subtrees)), height,
                         RowWidth(|subtrees| - 1, firstWidth, lastWidth))
    {
      hide NodeAt, Below, Start, Width, PaddedWidth, Exp2, ConcatLeaves, Row, Share, RowWidth, Mergeable, LeavesOf;
      ghost var leaves := ConcatLeaves(LeavesOf(subtrees));
      row := [];
      NoParts(hash, leaves, height, firstWidth);
      for t := 0 to |subtrees| - 1
        invariant row == Row(hash, leaves, height, RowWidth(t, firstWidth, 0))
      {
        var part := SubtreeRow(hash, subtrees, k, height, t, firstStart, firstWidth);
        NextPart(hash, leaves, height, t, firstWidth, firstWidth);
        row := row + part;
      }
      var part := SubtreeRow(hash, subtrees, k, height, |subtrees| - 1, lastStart, lastWidth);
      NextPart(hash, leaves, height, |subtrees| - 1, firstWidth, lastWidth);
      row := row + part;
    }

    /** `root`. A tree with more leaves than its depth allows has no single top node, and
        then the last node of its topmost row is returned. */
    method Root() returns (root: N)
      requires Valid()
      modifies this`cache
      ensures Valid()
      ensures root == TopNode(hash, leaves, depth)
      ensures leafCount <= Exp2(depth) ==> root == NodeAt(hash, leaves, depth, 0)
    {
      hide NodeAt, Exp2;
      WidthPositive(leafCount, depth);
      if leafCount <= Exp2(depth) {
        TopNodeIsRoot(hash, leaves, depth);
      }
      if |nodes| > 0 {
        PositiveStart(leafCount, depth);
        PackedAt(hash, leaves, depth, depth, Width(leafCount, depth) - 1);
        root := nodes[|nodes| - 1];
      } else {
        WidthOfNothing(depth);
        NodeBeyond(hash, leaves, depth, 0);
        root, cache := CachedEmptyRoot(hash, cache, depth);
      }
    }

    /** `path`: the siblings on the way from a position to the top, in the tree or beyond its
        last leaf. Every index into the vector is within bounds. */
    method Path(pos: nat) returns (authPath: seq<(N, bool)>)
      requires Valid()
      modifies this`cache
      ensures Valid()
      ensures authPath == AuthPath(hash, leaves, 0, depth, pos)
    {
      hide NodeAt, Start, Width, PaddedWidth, AuthPath, Packed, CacheOk;
      authPath := [];
      var p, start, width := pos, 0, leafCount;
      NextRow(leafCount, 0);
      for height := 0 to depth
        invariant Valid()
        invariant start == Start(leafCount, height) && width == Width(leafCount, height)
        invariant authPath + AuthPath(hash, leaves, height, depth, p) == AuthPath(hash, leaves, 0, depth, pos)
      {
        NextRow(leafCount, height);
        AuthPathNext(hash, leaves, height, depth, p);
        var node := Sibling(height, p, start, if width % 2 == 1 then width + 1 else width);
        ghost var rest := AuthPath(hash, leaves, height + 1, depth, p / 2);
        assert authPath + ([(node, p % 2 == 1)] + rest) == (authPath + [(node, p % 2 == 1)]) + rest;
        authPath := authPath + [(node, p % 2 == 1)];
        if width % 2 == 1 {
          width := width + 1;
        }
        start := start + width;
        width := width / 2;
        p := p / 2;
      }
      AuthPathEnds(hash, leaves, depth, p);
    }

    method Sibling(height: nat, p: nat, start: nat, width: nat) returns (node: N)
      requires Valid() && height < depth
      requires start == Start(leafCount, height) && width == PaddedWidth(leafCount, height)
      modifies this`cache
      ensures Valid()
      ensures node == NodeAt(hash, leaves, height, if p % 2 == 0 then p + 1 else p - 1)
    {
      hide NodeAt, EmptyRoot, Start;
      var q := if p % 2 == 0 then p + 1 else p - 1;
      if q < width {
        PackedAt(hash, leaves, depth, height, q);
        node := nodes[start + q];
      } else {
        NodeBeyond(hash, leaves, height, q);
        node, cache := CachedEmptyRoot(hash, cache, height);
      }
    }
  }

  ghost function LeavesOf<N>(subtrees: seq<CommitmentTree<N>>): (blocks: seq<seq<N>>)
    ensures |blocks| == |subtrees|
  {
    seq(|subtrees|, i requires 0 <= i < |subtrees| => subtrees[i].leaves)
  }

  /** The slice of a subtree's vector that holds its row at the given height. */
  ghost predicate IsRowOf(leafCount: nat, isFull: bool, k: nat, height: nat, start: nat, width: nat)
    requires height <= k
  {
    && start == Start(leafCount, height)
    && width == if isFull then Exp2(k - height)
                else if height < k then PaddedWidth(leafCount, height) else Width(leafCount, height)
  }

  lemma SubtreeParts<N>(hash: Hasher<N>, subtrees: seq<CommitmentTree<N>>, k: nat, t: nat)
    requires t < |subtrees| && Mergeable(hash, subtrees, k)
    ensures Blocks(LeavesOf(subtrees), k) && k <= subtrees[t].depth
    ensures var block := LeavesOf(subtrees)[t];
      subtrees[t].leafCount == |block| && subtrees[t].nodes == Packed(hash, block, subtrees[t].depth)
  {
    hide Packed, CacheOk, Exp2;
    assert subtrees[t] in subtrees;
  }

  /** Subtrees that `merge` accepts: built to at least the height of the full ones. */
  ghost predicate Mergeable<N>(hash: Hasher<N>, subtrees: seq<CommitmentTree<N>>, k: nat)
    reads subtrees
  {
    && (forall s :: s in subtrees ==> s.Valid() && s.hash == hash && k <= s.depth)
    && Blocks(LeavesOf(subtrees), k)
  }

  lemma BlocksLength<N>(blocks: seq<seq<N>>, k: nat)
    requires Blocks(blocks, k)
    ensures |ConcatLeaves(blocks)| == (|blocks| - 1) * Exp2(k) + |blocks[|blocks| - 1]|
  {
    hide ConcatLeaves, Exp2;
    var q := |blocks| - 1;
    ConcatAt(blocks, q);
    ConcatLength(blocks[..q], Exp2(k));
    assert blocks[q + 1..] == [] && ConcatLeaves(blocks[q + 1..]) == [] by { NoBlocks<N>(); }
  }

  lemma NoBlocks<N>()
    ensures ConcatLeaves<N>([]) == []
  {
  }

  lemma MergeableCounts<N>(hash: Hasher<N>, subtrees: seq<CommitmentTree<N>>, k: nat)
    requires Mergeable(hash, subtrees, k)
    ensures Blocks(LeavesOf(subtrees), k)
    ensures forall t :: 0 <= t < |subtrees| - 1 ==> subtrees[t].leafCount == Exp2(k)
    ensures subtrees != [] ==>
      subtrees[|subtrees| - 1].leafCount == |LeavesOf(subtrees)[|subtrees| - 1]|
  {
    assert forall t :: 0 <= t < |subtrees| ==> subtrees[t] in subtrees && LeavesOf(subtrees)[t] == subtrees[t].leaves;
  }

  lemma ConcatOne<N>(leaves: seq<N>)
    ensures ConcatLeaves([leaves]) == leaves
  {
    assert [leaves][1..] == [];
  }

  lemma BelowNext<N>(hash: Hasher<N>, leaves: seq<N>, h: nat)
    ensures Below(hash, leaves, h + 1) == Below(hash, leaves, h) + Row(hash, leaves, h, PaddedWidth(|leaves|, h))
  {
  }

  function RowWidth(blocks: nat, firstWidth: nat, lastWidth: nat): nat {
    blocks * firstWidth + lastWidth
  }

  /** Nodes `from`, `from + 1`, ... of a row. */
  ghost function Share<N>(hash: Hasher<N>, leaves: seq<N>, h: nat, from: nat, width: nat): (part: seq<N>)
    ensures |part| == width && forall i :: 0 <= i < width ==> part[i] == NodeAt(hash, leaves, h, from + i)
  {
    seq(width, i requires 0 <= i => NodeAt(hash, leaves, h, from + i))
  }

  lemma NoParts<N>(hash: Hasher<N>, leaves: seq<N>, h: nat, firstWidth: nat)
    ensures Row(hash, leaves, h, RowWidth(0, firstWidth, 0)) == []
  {
  }

  /** One more share of the row, of the common width or the last one. */
  lemma NextPart<N>(hash: Hasher<N>, leaves: seq<N>, h: nat, blocks: nat, firstWidth: nat, width: nat)
    ensures Row(hash, leaves, h, RowWidth(blocks, firstWidth, 0)) + Share(hash, leaves, h, blocks * firstWidth, width)
         == Row(hash, leaves, h, RowWidth(blocks, firstWidth, width))
    ensures RowWidth(blocks, firstWidth, firstWidth) == RowWidth(blocks + 1, firstWidth, 0)
  {
    hide Row, Share;
    RowExtend(hash, leaves, h, blocks * firstWidth, width);
    Distributes(firstWidth, blocks, 1);
  }

  lemma RowExtend<N>(hash: Hasher<N>, leaves: seq<N>, h: nat, j: nat, width: nat)
    ensures Row(hash, leaves, h, j) + Share(hash, leaves, h, j, width) == Row(hash, leaves, h, j + width)
  {
    hide NodeAt;
  }

  lemma ShareOfBlock<N>(hash: Hasher<N>, blocks: seq<seq<N>>, k: nat, h: nat, t: nat, depth: nat, width: nat)
    requires Blocks(blocks, k) && t < |blocks| && h <= k <= depth
    requires IsRowOf(|blocks[t]|, t < |blocks| - 1, k, h, Start(|blocks[t]|, h), width)
    ensures var s, nodes := Start(|blocks[t]|, h), Packed(hash, blocks[t], depth);
      && s + width <= |nodes|
      && nodes[s..s + width] == Share(hash, ConcatLeaves(blocks), h, t * Exp2(k - h), width)
  {
    hide NodeAt, Below, Start, Width;
    var s, nodes := Start(|blocks[t]|, h), Packed(hash, blocks[t], depth);
    FullWidth(k, h);
    RowFits(hash, blocks[t], depth, h, width);
    var share := Share(hash, ConcatLeaves(blocks), h, t * Exp2(k - h), width);
    forall i | 0 <= i < width ensures nodes[s..s + width][i] == share[i] {
      PackedAt(hash, blocks[t], depth, h, i);
      BlockNode(hash, blocks, k, h, t, i);
    }
  }

  lemma RowFits<N>(hash: Hasher<N>, leaves: seq<N>, d: nat, h: nat, width: nat)
    requires h <= d && width <= if h < d then PaddedWidth(|leaves|, h) else Width(|leaves|, h)
    ensures Start(|leaves|, h) + width <= |Packed(hash, leaves, d)|
  {
    if width > 0 {
      PackedAt(hash, leaves, d, h, width - 1);
    } else {
      StartGrows(|leaves|, h, d);
    }
  }

  lemma {:induction false} StartGrows(n: nat, h: nat, d: nat)
    requires h <= d
    ensures Start(n, h) <= Start(n, d)
  {
    if h < d {
      StartGrows(n, h, d - 1);
    }
  }

  lemma {:induction false} PositiveStart(n: nat, h: nat)
    ensures n == 0 ==> Start(n, h) + Width(n, h) == 0
  {
    WidthOfNothing(h);
    if h > 0 {
      PositiveStart(n, h - 1);
    }
  }
}
