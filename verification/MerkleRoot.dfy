/** Merkle roots of power-of-two batches, for an arbitrary two-to-one hash `combine`.

    `Root` (halving) is the reference every aggregator, transport and verifier in this
    project is measured against; the layer-by-layer loops are proved equal to it. */
module MerkleRoot {

  predicate IsPowerOfTwo(n: nat) {
    n == 1 || (n > 1 && n % 2 == 0 && IsPowerOfTwo(n / 2))
  }

  function Root<N>(combine: (N, N) -> N, xs: seq<N>): N
    requires IsPowerOfTwo(|xs|)
    decreases |xs|
  {
    if |xs| == 1 then xs[0]
    else combine(Root(combine, xs[..|xs| / 2]), Root(combine, xs[|xs| / 2..]))
  }

  /** The layer above `xs`: neighbours combined pairwise. */
  function NextLayer<N>(combine: (N, N) -> N, xs: seq<N>): (ys: seq<N>)
    ensures |ys| == |xs| / 2
    ensures forall i :: 0 <= i < |ys| ==> ys[i] == combine(xs[2 * i], xs[2 * i + 1])
  {
    seq(|xs| / 2, i requires 0 <= i < |xs| / 2 => combine(xs[2 * i], xs[2 * i + 1]))
  }

  lemma HalfIsPowerOfTwo(n: nat)
    requires IsPowerOfTwo(n) && n > 1
    ensures n % 2 == 0 && IsPowerOfTwo(n / 2)
  {
  }

  lemma PowerIsPositive(n: nat)
    requires IsPowerOfTwo(n)
    ensures n > 0
  {
  }

  lemma RootOfOne<N>(combine: (N, N) -> N, xs: seq<N>)
    requires IsPowerOfTwo(|xs|) && |xs| <= 1
    ensures |xs| == 1 && Root(combine, xs) == xs[0]
  {
  }

  /** Two equally large subtrees may be aggregated separately and then joined. */
  lemma RootOfHalves<N>(combine: (N, N) -> N, xs: seq<N>, ys: seq<N>)
    requires |xs| == |ys| && IsPowerOfTwo(|xs|)
    ensures IsPowerOfTwo(|xs + ys|)
    ensures Root(combine, xs + ys) == combine(Root(combine, xs), Root(combine, ys))
  {
    var both := xs + ys;
    assert both[..|both| / 2] == xs && both[|both| / 2..] == ys;
  }

  /** Replacing a layer by the one above it does not change the root. */
  lemma {:induction false} NextLayerKeepsRoot<N>(combine: (N, N) -> N, xs: seq<N>)
    requires |xs| > 1 && IsPowerOfTwo(|xs|)
    ensures Root(combine, NextLayer(combine, xs)) == Root(combine, xs)
    decreases |xs|
  {
    hide Root, IsPowerOfTwo;
    var m := |xs| / 2;
    var up := NextLayer(combine, xs);
    RootIsJoin(combine, xs);
    if m == 1 {
      RootOfOne(combine, xs[..1]);
      RootOfOne(combine, xs[1..]);
      RootOfOne(combine, up);
    } else {
      RootIsJoin(combine, up);
      NextLayerKeepsRoot(combine, xs[..m]);
      NextLayerKeepsRoot(combine, xs[m..]);
      assert up[..m / 2] == NextLayer(combine, xs[..m]);
      assert up[m / 2..] == NextLayer(combine, xs[m..]);
    }
  }

  lemma RootIsJoin<N>(combine: (N, N) -> N, xs: seq<N>)
    requires IsPowerOfTwo(|xs|) && |xs| > 1
    ensures |xs| % 2 == 0 && IsPowerOfTwo(|xs| / 2)
    ensures Root(combine, xs) == combine(Root(combine, xs[..|xs| / 2]), Root(combine, xs[|xs| / 2..]))
  {
  }

  /** Rust's `usize::next_power_of_two`: the least power of two that is at least `n`. */
  function NextPowerOfTwo(n: nat): (p: nat)
    ensures IsPowerOfTwo(p) && n <= p && (0 < n ==> p < 2 * n)
    ensures forall q: nat :: IsPowerOfTwo(q) && n <= q ==> p <= q
  {
    NextPowerOfTwoFrom(n, 1)
  }

  function NextPowerOfTwoFrom(n: nat, p: nat): (r: nat)
    requires IsPowerOfTwo(p) && (1 < p ==> p < 2 * n)
    ensures IsPowerOfTwo(r) && n <= r && (0 < n ==> r < 2 * n) && p <= r
    ensures forall q: nat :: IsPowerOfTwo(q) && n <= q && p <= q ==> r <= q
    decreases if p < n then n - p else 0
  {
    if n <= p then p
    else
      assert forall q: nat :: IsPowerOfTwo(q) && p < q ==> 2 * p <= q by {
        forall q: nat | IsPowerOfTwo(q) && p < q ensures 2 * p <= q { PowersOfTwoAreApart(p, q); }
      }
      NextPowerOfTwoFrom(n, 2 * p)
  }

  lemma {:induction false} PowersOfTwoAreApart(p: nat, q: nat)
    requires IsPowerOfTwo(p) && IsPowerOfTwo(q) && p < q
    ensures 2 * p <= q
    decreases q
  {
    if p > 1 {
      PowersOfTwoAreApart(p / 2, q / 2);
    }
  }
}
