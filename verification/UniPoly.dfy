/** `PolyLib`: the univariate polynomials of the sum-check, sent without their linear term. */
module UniPoly {
  import opened NumberTheory
  import opened Wrappers
  import opened GeminiFold

  lemma {:induction false} EvalAppend(poly: seq<int>, c: int, x: int)
    ensures Eval(poly + [c], x) == Eval(poly, x) + c * Pow(x, |poly|)
  {
    if poly == [] {
      assert Eval([c], x) == c + x * Eval([c][1..], x);
    } else {
      EvalAppend(poly[1..], c, x);
      assert (poly + [c])[1..] == poly[1..] + [c];
      NextPower(x, Eval(poly[1..], x), c, Pow(x, |poly| - 1));
    }
  }

  lemma NextPower(x: int, e: int, c: int, p: int)
    ensures x * (e + c * p) == x * e + c * (x * p)
  {
    assert x * (c * p) == c * (x * p);
  }

  lemma EvalPrefix(coeffs: seq<int>, i: nat, x: int)
    requires i < |coeffs|
    ensures Eval(coeffs[..i + 1], x) == Eval(coeffs[..i], x) + coeffs[i] * Pow(x, i)
  {
    assert coeffs[..i + 1] == coeffs[..i] + [coeffs[i]];
    EvalAppend(coeffs[..i], coeffs[i], x);
  }

  /** One more coefficient, with a congruent result and power. */
  lemma TermAdded(m: nat, coeffs: seq<int>, i: nat, x: int, power: int, result: int)
    requires m > 0 && i < |coeffs| && Cong(m, result, Eval(coeffs[..i], x)) && Cong(m, power, Pow(x, i))
    ensures Cong(m, result + power * coeffs[i], Eval(coeffs[..i + 1], x))
    ensures Cong(m, power * x, Pow(x, i + 1))
  {
    hide Residue, Eval;
    EvalPrefix(coeffs, i, x);
    CongMul(m, power, Pow(x, i), coeffs[i], coeffs[i]);
    CongMul(m, power, Pow(x, i), x, x);
    CongAdd(m, result, Eval(coeffs[..i], x), power * coeffs[i], Pow(x, i) * coeffs[i]);
    Commute(Pow(x, i), coeffs[i]);
    Commute(Pow(x, i), x);
  }

  lemma Commute(a: int, b: int)
    ensures a * b == b * a
  {
  }

  /** `evalAtOne`: the sum of the coefficients. */
  method EvalAtOne(coeffs: seq<nat>, m: nat) returns (result: nat)
    requires m > 0
    ensures result < m && Cong(m, result, Eval(coeffs, 1))
  {
    hide Residue, Eval, AddMod;
    result := 0;
    NoCoefficients(coeffs[..0], 1);
    for i := 0 to |coeffs|
      invariant result < m && Cong(m, result, Eval(coeffs[..i], 1))
    {
      PowOne(i);
      TermAdded(m, coeffs, i, 1, 1, result);
      result := AddMod(m, result, coeffs[i]);
    }
    assert coeffs[..|coeffs|] == coeffs;
  }

  lemma NoCoefficients(coeffs: seq<int>, x: int)
    requires coeffs == []
    ensures Eval(coeffs, x) == 0
  {
  }

  /** `evaluate`; `None` is the revert for a polynomial without coefficients. */
  method Evaluate(coeffs: seq<nat>, r: nat, m: nat) returns (result: Option<nat>)
    requires m > 0
    ensures result.None? <==> coeffs == []
    ensures result.Some? ==> Cong(m, result.value, Eval(coeffs, r))
    ensures result.Some? && |coeffs| > 1 ==> result.value < m
  {
    hide Residue, Eval, AddMod, MulMod, Pow;
    if coeffs == [] {
      return None;
    }
    var power, sum: nat := r, coeffs[0];
    FirstCoefficient(coeffs, r);
    for i := 1 to |coeffs|
      invariant Cong(m, sum, Eval(coeffs[..i], r)) && Cong(m, power, Pow(r, i))
      invariant i > 1 ==> sum < m
    {
      TermAdded(m, coeffs, i, r, power, sum);
      CongAdd(m, sum, sum, MulMod(m, power, coeffs[i]), power * coeffs[i]);
      sum := AddMod(m, sum, MulMod(m, power, coeffs[i]));
      power := MulMod(m, power, r);
    }
    assert coeffs[..|coeffs|] == coeffs;
    return Some(sum);
  }

  lemma FirstCoefficient(coeffs: seq<int>, x: int)
    requires coeffs != []
    ensures Eval(coeffs[..1], x) == coeffs[0] && Pow(x, 1) == x
  {
    assert Pow(x, 1) == x * Pow(x, 0);
    assert Eval(coeffs[..1], x) == coeffs[0] + x * Eval(coeffs[..1][1..], x);
  }

  function Negate(x: nat, m: nat): (r: nat)
    requires m > 0
    ensures 0 < r <= m && Cong(m, r, Neg(x))
  {
    CongMod(m, x);
    CongIntro(m, m - x % m, -(x % m), 1);
    CongAdd(m, 0, 0, x % m, x);
    m - x % m
  }

  /** The values at zero and one of the polynomial with the given linear term. */
  function SumAtEnds(rest: seq<int>, linear: int): int
    requires rest != []
  {
    rest[0] + Eval([rest[0], linear] + rest[1..], 1)
  }

  lemma SumAtEndsIs(rest: seq<int>, linear: int)
    requires rest != []
    ensures SumAtEnds(rest, linear) == linear + rest[0] + Eval(rest, 1)
    ensures Eval([rest[0], linear] + rest[1..], 0) == rest[0]
  {
    hide Eval;
    var poly, tail := [rest[0], linear] + rest[1..], [linear] + rest[1..];
    assert poly[1..] == tail && tail[1..] == rest[1..];
    EvalStep(poly, 0);
    EvalStep(poly, 1);
    EvalStep(tail, 1);
    EvalStep(rest, 1);
  }

  /** `decompress`: the linear term is the one for which the values at zero and at one add up
      to the hint. */
  method Decompress(rest: seq<nat>, hint: nat, m: nat) returns (coeffs: Option<seq<nat>>)
    requires m > 0
    ensures coeffs.None? <==> rest == []
    ensures coeffs.Some? ==> var poly := coeffs.value;
      && |poly| == |rest| + 1 && poly[0] == rest[0] && poly[2..] == rest[1..] && poly[1] < m
      && Cong(m, Eval(poly, 0) + Eval(poly, 1), hint)
  {
    hide Residue, Eval, AddMod;
    if rest == [] {
      return None;
    }
    var linear: nat := AddMod(m, hint, Negate(AddMod(m, rest[0], rest[0]), m));
    FirstTwice(m, rest, hint);
    for i := 1 to |rest|
      invariant linear < m && Cong(m, linear, hint - (rest[0] + Eval(rest[..i], 1)))
    {
      SubtractNext(m, rest, i, linear, hint);
      linear := AddMod(m, linear, Negate(rest[i], m));
    }
    assert rest[..|rest|] == rest;
    var poly: seq<nat> := [rest[0], linear];
    for i := 1 to |rest|
      invariant poly == [rest[0], linear] + rest[1..i]
    {
      poly := poly + [rest[i]];
    }
    assert rest[1..] == rest[1..|rest|];
    SumAtEndsIs(rest, linear);
    CongAdd(m, linear, hint - (rest[0] + Eval(rest, 1)), rest[0] + Eval(rest, 1), rest[0] + Eval(rest, 1));
    return Some(poly);
  }

  lemma FirstTwice(m: nat, rest: seq<nat>, hint: nat)
    requires m > 0 && rest != []
    ensures Cong(m, AddMod(m, hint, Negate(AddMod(m, rest[0], rest[0]), m)), hint - (rest[0] + Eval(rest[..1], 1)))
  {
    hide Residue, AddMod, Eval;
    FirstCoefficient(rest, 1);
    var twice: nat := AddMod(m, rest[0], rest[0]);
    CongAdd(m, 0, 0, twice, rest[0] + rest[0]);
    CongAdd(m, hint, hint, Negate(twice, m), Neg(rest[0] + rest[0]));
  }

  lemma SubtractNext(m: nat, rest: seq<nat>, i: nat, linear: nat, hint: nat)
    requires m > 0 && 1 <= i < |rest| && Cong(m, linear, hint - (rest[0] + Eval(rest[..i], 1)))
    ensures Cong(m, AddMod(m, linear, Negate(rest[i], m)), hint - (rest[0] + Eval(rest[..i + 1], 1)))
  {
    hide Residue, AddMod, Eval;
    EvalPrefix(rest, i, 1);
    PowOne(i);
    CongAdd(m, linear, hint - (rest[0] + Eval(rest[..i], 1)), Negate(rest[i], m), Neg(rest[i]));
  }

  /** The linear term is determined by the hint, so decompressing what was sent of a
      polynomial gives the polynomial back. */
  lemma LinearTermIsUnique(m: nat, rest: seq<nat>, hint: nat, a: nat, b: nat)
    requires m > 0 && rest != [] && a < m && b < m
    requires Cong(m, SumAtEnds(rest, a), hint) && Cong(m, SumAtEnds(rest, b), hint)
    ensures a == b
  {
    hide Residue, Eval, SumAtEnds;
    SumAtEndsIs(rest, a);
    SumAtEndsIs(rest, b);
    var s := rest[0] + Eval(rest, 1);
    CongAdd(m, SumAtEnds(rest, a), hint, s, s);
    CongAdd(m, SumAtEnds(rest, b), hint, s, s);
    CongUnique(m, a, b);
  }

  /** A polynomial sent without its linear term arrives unchanged, if the hint is right. */
  method RoundTrip(poly: seq<nat>, hint: nat, m: nat) returns (arrived: Option<seq<nat>>)
    requires m > 0 && |poly| >= 2 && poly[1] < m && Cong(m, Eval(poly, 0) + Eval(poly, 1), hint)
    ensures arrived == Some(poly)
  {
    hide Residue, Eval;
    var rest := [poly[0]] + poly[2..];
    arrived := Decompress(rest, hint, m);
    assert rest[1..] == poly[2..];
    assert poly == [rest[0], poly[1]] + rest[1..];
    var a := arrived.value;
    assert a == [rest[0], a[1]] + rest[1..];
    SumAtEndsIs(rest, poly[1]);
    SumAtEndsIs(rest, a[1]);
    LinearTermIsUnique(m, rest, hint, poly[1], a[1]);
  }
}
