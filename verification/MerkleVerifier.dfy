/** `MerkleVerifier.sol`: the root is computed inside the leaf array itself. */
module MerkleVerifier {
  import opened MerkleRoot

  /** One pass of the inner loop: the first half of the live prefix becomes the next layer,
      and no node is overwritten before both its readers have used it. */
  method ReduceLayer<N>(combine: (N, N) -> N, nodes: array<N>, count: nat)
    requires 2 * count <= nodes.Length
    modifies nodes
    ensures nodes[..count] == NextLayer(combine, old(nodes[..2 * count]))
  {
    for i := 0 to count
      invariant forall j :: 0 <= j < i ==> nodes[j] == combine(old(nodes[2 * j]), old(nodes[2 * j + 1]))
      invariant forall j :: i <= j < nodes.Length ==> nodes[j] == old(nodes[j])
    {
      var left := nodes[i * 2];
      var right := nodes[i * 2 + 1];
      nodes[i] := combine(left, right);
    }
  }

  /** The four `verifyRoot` overloads are this loop at 128, 256, 512 and 1024 leaves. */
  method VerifyRoot<N(==)>(combine: (N, N) -> N, nodes: array<N>, expectedRoot: N) returns (ok: bool)
    requires IsPowerOfTwo(nodes.Length)
    modifies nodes
    ensures ok <==> Root(combine, old(nodes[..])) == expectedRoot
  {
    hide Root, IsPowerOfTwo;
    var count := nodes.Length;
    PowerIsPositive(count);
    assert nodes[..count] == nodes[..];
    while count > 1
      invariant 1 <= count <= nodes.Length && IsPowerOfTwo(count)
      invariant Root(combine, nodes[..count]) == Root(combine, old(nodes[..]))
    {
      NextLayerKeepsRoot(combine, nodes[..count]);
      HalfIsPowerOfTwo(count);
      count := count / 2;
      ReduceLayer(combine, nodes, count);
    }
    RootOfOne(combine, nodes[..count]);
    ok := nodes[0] == expectedRoot;
  }
}
