/** `EqPolynomialLib`: one evaluation of the multilinear equality polynomial, and the table of
    its evaluations on the whole hypercube, built by doubling in place. */
module EqPolynomial {
  import opened NumberTheory
  import opened Powers
  import opened Wrappers

  /** The equality polynomial in one variable. */
  function Factor(r: int, x: int): int {
    x * r + (1 - x) * (1 - r)
  }

  function Eq(r: seq<nat>, x: seq<nat>): int
    requires |r| == |x|
  {
    if r == [] then 1 else Factor(r[0], x[0]) * Eq(r[1..], x[1..])
  }

  /** The lowest `n` bits of `k`, highest first. */
  function Bits(k: nat, n: nat): (bits: seq<nat>)
    ensures |bits| == n
  {
    if n == 0 then [] else [if k < Exp2(n - 1) then 0 else 1] + Bits(if k < Exp2(n - 1) then k else k - Exp2(n - 1),
        n - 1)
  }

  function Minus(x: int): int {
    -x
  }

  /** `negateBase` really negates. */
  ghost predicate Negates(m: nat, negate: nat -> nat)
    requires m > 0
  {
    forall x: nat :: Cong(m, negate(x), Minus(x))
  }

  /** One minus a value, as the contract computes it. */
  lemma OneMinus(m: nat, negate: nat -> nat, x: nat)
    requires m > 0 && Negates(m, negate)
    ensures Cong(m, AddMod(m, 1, negate(x)), 1 - (x as int))
  {
    hide Residue, AddMod;
    assert Cong(m, negate(x), Minus(x));
    CongAdd(m, 1, 1, negate(x), Minus(x));
  }

  lemma FactorMod(m: nat, negate: nat -> nat, r: nat, x: nat)
    requires m > 0 && Negates(m, negate)
    ensures Cong(m, AddMod(m, MulMod(m, x, r), MulMod(m, AddMod(m, 1, negate(x)), AddMod(m, 1, negate(r)))),
        Factor(r, x))
  {
    hide Residue, AddMod, MulMod, Negates;
    OneMinus(m, negate, x);
    OneMinus(m, negate, r);
    var a, b := AddMod(m, 1, negate(x)), AddMod(m, 1, negate(r));
    CongMul(m, a, 1 - (x as int), b, 1 - (r as int));
    CongAdd(m, MulMod(m, x, r), x * r, MulMod(m, a, b), (1 - (x as int)) * (1 - (r as int)));
  }

  /** The product so far times the factors that are still missing. */
  function Completed(product: int, r: seq<nat>, rx: seq<nat>, i: nat): int
    requires i <= |r| == |rx|
  {
    product * Eq(r[i..], rx[i..])
  }

  lemma CompletedEnds(product: int, r: seq<nat>, rx: seq<nat>)
    requires |r| == |rx|
    ensures Completed(1, r, rx, 0) == Eq(r, rx) && Completed(product, r, rx, |r|) == product
  {
    assert r[0..] == r && rx[0..] == rx;
  }

  /** Multiplying the next factor into the product. */
  lemma EvaluateStep(m: nat, r: seq<nat>, rx: seq<nat>, i: nat, factor: nat, product: nat)
    requires m > 0 && i < |r| == |rx| && Cong(m, factor, Factor(r[i], rx[i]))
    ensures Cong(m, Completed(MulMod(m, factor, product), r, rx, i + 1), Completed(product, r, rx, i))
  {
    hide Residue, Factor, MulMod;
    var f, rest := Factor(r[i], rx[i]), Eq(r[i + 1..], rx[i + 1..]);
    assert r[i..][1..] == r[i + 1..] && rx[i..][1..] == rx[i + 1..];
    CongMul(m, factor, f, product, product);
    CongMul(m, MulMod(m, factor, product), f * product, rest, rest);
    assert (f * product) * rest == product * (f * rest);
  }

  /** `evaluate`; `None` is the revert on different lengths. */
  method Evaluate(r: seq<nat>, rx: seq<nat>, m: nat, negate: nat -> nat) returns (result: Option<nat>)
    requires m > 0 && Negates(m, negate)
    ensures result.None? <==> |r| != |rx|
    ensures result.Some? ==> Cong(m, result.value, Eq(r, rx)) && (m > 1 ==> result.value < m)
  {
    hide Residue, AddMod, MulMod, Negates, Factor, Eq, Completed;
    if |r| != |rx| {
      return None;
    }
    var product: nat := 1;
    for i := 0 to |rx|
      invariant Cong(m, Completed(product, r, rx, i), Completed(1, r, rx, 0))
      invariant m > 1 ==> product < m
    {
      FactorMod(m, negate, r[i], rx[i]);
      var minusRx, minusR := negate(rx[i]), negate(r[i]);
      var tmp1, tmp2, tmp3 := MulMod(m, rx[i], r[i]), AddMod(m, 1, minusRx), AddMod(m, 1, minusR);
      var tmp4 := AddMod(m, tmp1, MulMod(m, tmp2, tmp3));
      EvaluateStep(m, r, rx, i, tmp4, product);
      product := MulMod(m, tmp4, product);
    }
    CompletedEnds(product, r, rx);
    result := Some(product);
  }

  /** `evals`: the table is doubled in place, one challenge at a time from the last. */
  method Evals(r: seq<nat>, m: nat, negate: nat -> nat) returns (table: array<nat>)
    requires m > 1 && Negates(m, negate)
    ensures fresh(table) && table.Length == Exp2(|r|)
    ensures forall k :: 0 <= k < table.Length ==> table[k] < m && Cong(m, table[k], Eq(r, Bits(k, |r|)))
  {
    hide Residue, Exp2, Negates, Evaluated;
    table := new nat[Exp2(|r|)](_ => 0);
    var size := 1;
    table[0] := 1;
    EvaluatedNothing(m, table[..1]);
    assert r[|r|..] == [];
    for i := 0 to |r|
      invariant 1 <= size == Exp2(i) <= table.Length == Exp2(|r|)
      invariant Evaluated(m, r[|r| - i..], table[..size])
    {
      Exp2Monotone(i + 1, |r|);
      Exp2Next(i);
      var suffix := r[|r| - i..];
      assert r[|r| - i - 1..] == [r[|r| - i - 1]] + suffix;
      Double(m, negate, r[|r| - i - 1], suffix, table, size);
      size := size * 2;
    }
    assert r[0..] == r && table[..size] == table[..];
    EvaluatedAt(m, r, table[..]);
  }

  lemma EvaluatedNothing(m: nat, values: seq<nat>)
    requires m > 1 && values == [1]
    ensures Evaluated(m, [], values) && Exp2(0) == 1
  {
  }

  lemma EvaluatedAt(m: nat, r: seq<nat>, values: seq<nat>)
    requires m > 0 && Evaluated(m, r, values)
    ensures forall k :: 0 <= k < |values| ==> values[k] < m && Cong(m, values[k], Eq(r, Bits(k, |r|)))
  {
    hide Residue, Eq, Bits;
  }

  ghost predicate Evaluated(m: nat, r: seq<nat>, values: seq<nat>)
    requires m > 0
  {
    |values| == Exp2(|r|) && forall k :: 0 <= k < |values| ==> values[k] < m && Cong(m, values[k], Eq(r, Bits(k, |r|)))
  }

  /** One round of the table: each entry splits into its two extensions by the next bit. */
  method Double(m: nat, negate: nat -> nat, c: nat, r: seq<nat>, table: array<nat>, size: nat)
    requires m > 1 && Negates(m, negate)
    requires 2 * size <= table.Length && size == Exp2(|r|) && Evaluated(m, r, table[..size])
    modifies table
    ensures Evaluated(m, [c] + r, table[..2 * size])
  {
    hide Residue, AddMod, MulMod, Negates, Eq, Bits;
    ghost var before := table[..size];
    for j := 0 to size
      invariant forall k :: 0 <= k < j ==> IsPair(m, c, before[k], table[k], table[k + size])
      invariant forall k :: j <= k < size ==> table[k] == before[k]
    {
      var x := table[j];
      var y := MulMod(m, x, c);
      SplitEntry(m, negate, c, x, y);
      table[j] := AddMod(m, x, negate(y));
      table[j + size] := y;
    }
    ghost var after := table[..2 * size];
    forall k | 0 <= k < 2 * size ensures after[k] < m && Cong(m, after[k], Eq([c] + r, Bits(k, |r| + 1))) {
      var j := if k < size then k else k - size;
      assert IsPair(m, c, before[j], after[j], after[j + size]);
      assert Cong(m, before[j], Eq(r, Bits(j, |r|)));
      Extend(m, c, r, j, before[j], after[j], after[j + size]);
    }
  }

  /** The entries for bit zero and bit one that replace the entry `x`. */
  ghost predicate IsPair(m: nat, c: nat, x: nat, zero: nat, one: nat)
    requires m > 0
  {
    zero < m && one < m && Cong(m, zero, x * Factor(c, 0)) && Cong(m, one, x * Factor(c, 1))
  }

  lemma SplitEntry(m: nat, negate: nat -> nat, c: nat, x: nat, y: nat)
    requires m > 1 && Negates(m, negate) && y == MulMod(m, x, c)
    ensures IsPair(m, c, x, AddMod(m, x, negate(y)), y)
  {
    hide Residue, AddMod, MulMod;
    assert Cong(m, negate(y), Minus(y));
    CongAdd(m, x, x, negate(y), Minus(y));
    CongAdd(m, x, x, y, x * c);
    assert x * (1 - (c as int)) == x - x * c;
  }

  lemma EqExtended(c: nat, r: seq<nat>, j: nat)
    requires j < Exp2(|r|)
    ensures Eq([c] + r, Bits(j, |r| + 1)) == Factor(c, 0) * Eq(r, Bits(j, |r|))
    ensures Eq([c] + r, Bits(j + Exp2(|r|), |r| + 1)) == Factor(c, 1) * Eq(r, Bits(j, |r|))
  {
    hide Factor;
    BitsExtended(j, |r|);
    var bits := Bits(j, |r|);
    assert ([c] + r)[1..] == r && ([0] + bits)[1..] == bits && ([1] + bits)[1..] == bits;
  }

  lemma BitsExtended(j: nat, n: nat)
    requires j < Exp2(n)
    ensures Bits(j, n + 1) == [0] + Bits(j, n) && Bits(j + Exp2(n), n + 1) == [1] + Bits(j, n)
  {
  }

  lemma Extend(m: nat, c: nat, r: seq<nat>, j: nat, x: nat, zero: nat, one: nat)
    requires m > 0 && j < Exp2(|r|) && Cong(m, x, Eq(r, Bits(j, |r|))) && IsPair(m, c, x, zero, one)
    ensures Cong(m, zero, Eq([c] + r, Bits(j, |r| + 1)))
    ensures Cong(m, one, Eq([c] + r, Bits(j + Exp2(|r|), |r| + 1)))
  {
    hide Residue, Factor, Eq, Bits;
    EqExtended(c, r, j);
    ExtendBy(m, Factor(c, 0), x, Eq(r, Bits(j, |r|)), zero);
    ExtendBy(m, Factor(c, 1), x, Eq(r, Bits(j, |r|)), one);
  }

  lemma ExtendBy(m: nat, f: int, x: int, e: int, entry: int)
    requires m > 0 && Cong(m, x, e) && Cong(m, entry, x * f)
    ensures Cong(m, entry, f * e)
  {
    hide Residue;
    CongMul(m, x, e, f, f);
    assert e * f == f * e;
  }

  /** An entry of the table is what `evaluate` returns for the bits of its index. */
  method TableAgreesWithEvaluate(r: seq<nat>, m: nat, negate: nat -> nat, k: nat)
    returns (entry: nat, value: Option<nat>)
    requires m > 1 && Negates(m, negate) && k < Exp2(|r|)
    ensures value == Some(entry)
  {
    hide Residue, Negates, Eq, Bits;
    var table := Evals(r, m, negate);
    entry := table[k];
    value := Evaluate(r, Bits(k, |r|), m, negate);
    CongBoth(m, entry, value.value, Eq(r, Bits(k, |r|)));
  }

  lemma CongBoth(m: nat, a: nat, b: nat, c: int)
    requires m > 0 && a < m && b < m && Cong(m, a, c) && Cong(m, b, c)
    ensures a == b
  {
    hide Residue;
    CongUnique(m, a, b);
  }

  // ---------------------------------------------------------------- partition of unity

  /** The sum of the polynomial over the first `n` points of the hypercube. */
  function SumOver(r: seq<nat>, n: nat): int {
    if n == 0 then 0 else SumOver(r, n - 1) + Eq(r, Bits(n - 1, |r|))
  }

  lemma {:induction false} SumSplits(c: nat, r: seq<nat>, n: nat)
    requires n <= 2 * Exp2(|r|)
    ensures var h := Exp2(|r|);
      SumOver([c] + r, n)
        == if n <= h then Factor(c, 0) * SumOver(r, n)
           else Factor(c, 0) * SumOver(r, h) + Factor(c, 1) * SumOver(r, n - h)
  {
    hide Factor, Eq, Bits;
    if n > 0 {
      SumSplits(c, r, n - 1);
      var h, f0, f1 := Exp2(|r|), Factor(c, 0), Factor(c, 1);
      var j := if n - 1 < h then n - 1 else n - 1 - h;
      EqExtended(c, r, j);
      var s, e := SumOver(r, j), Eq(r, Bits(j, |r|));
      Distribute(f0, s, e);
      Distribute(f1, s, e);
    }
  }

  lemma Distribute(f: int, s: int, e: int)
    ensures f * (s + e) == f * s + f * e
  {
  }

  /** The whole table sums to one. */
  lemma {:induction false} SumsToOne(r: seq<nat>)
    ensures SumOver(r, Exp2(|r|)) == 1
  {
    if r != [] {
      var h := Exp2(|r| - 1);
      SumsToOne(r[1..]);
      SumSplits(r[0], r[1..], 2 * h);
      assert r == [r[0]] + r[1..];
    } else {
      assert SumOver(r, 1) == SumOver(r, 0) + Eq(r, Bits(0, 0));
    }
  }

  function Sum(values: seq<nat>): int {
    if values == [] then 0 else Sum(values[..|values| - 1]) + values[|values| - 1]
  }

  lemma {:induction false} SumIsSumOver(m: nat, r: seq<nat>, values: seq<nat>)
    requires m > 0 && forall k :: 0 <= k < |values| ==> Cong(m, values[k], Eq(r, Bits(k, |r|)))
    ensures Cong(m, Sum(values), SumOver(r, |values|))
  {
    hide Residue, Eq, Bits;
    if values != [] {
      var n := |values| - 1;
      SumIsSumOver(m, r, values[..n]);
      CongAdd(m, Sum(values[..n]), SumOver(r, n), values[n], Eq(r, Bits(n, |r|)));
    }
  }

  /** The evaluations returned by `evals` sum to one modulo `m`. */
  lemma TableSumsToOne(m: nat, r: seq<nat>, values: seq<nat>)
    requires m > 0 && Evaluated(m, r, values)
    ensures Cong(m, Sum(values), 1)
  {
    SumIsSumOver(m, r, values);
    SumsToOne(r);
  }
}
