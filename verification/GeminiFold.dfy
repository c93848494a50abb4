/** `CommitmentSchemeLib` of `Verifier.sol`: from the claimed evaluations of the Gemini folds
    at `-r^(2^l)`, the verifier reconstructs their evaluations at `r^(2^l)`. */
module GeminiFold {
  import opened NumberTheory
  import opened Powers
  import opened Wrappers

  // ---------------------------------------------------------------- FrLib

  function SubMod(p: nat, a: nat, b: nat): (r: nat)
    requires p > 0 && b < p
    ensures r < p && Cong(p, r, a - b)
  {
    CongMod(p, a + (p - b));
    CongIntro(p, a + (p - b), a - b, 1);
    (a + (p - b)) % p
  }

  /** The inverse by Fermat's little theorem; inverting zero reverts. */
  function Invert(p: nat, v: nat): (r: Option<nat>)
    requires Prime(p) && v < p
    ensures r.None? <==> v == 0
    ensures r.Some? ==> r.value < p && Cong(p, v * r.value, 1)
  {
    if v == 0 then None
    else
      InverseLaw(p, v);
      Some(Pow(v, p - 2) % p)
  }

  lemma InverseLaw(p: nat, v: nat)
    requires Prime(p) && 0 < v < p
    ensures Cong(p, v * (Pow(v, p - 2) % p), 1)
  {
    if Cong(p, v, 0) {
      CongUnique(p, v, 0);
    }
    Fermat(p, v);
    CongMod(p, Pow(v, p - 2));
    CongMul(p, v, v, Pow(v, p - 2) % p, Pow(v, p - 2));
  }

  // ---------------------------------------------------------------- polynomials

  function Eval(poly: seq<int>, x: int): int {
    if poly == [] then 0 else poly[0] + x * Eval(poly[1..], x)
  }

  function Neg(x: int): int {
    -x
  }

  function Evens(poly: seq<int>): seq<int>
    requires |poly| % 2 == 0
  {
    if poly == [] then [] else [poly[0]] + Evens(poly[2..])
  }

  function Odds(poly: seq<int>): seq<int>
    requires |poly| % 2 == 0
  {
    if poly == [] then [] else [poly[1]] + Odds(poly[2..])
  }

  /** A polynomial is the even part at the square plus `x` times the odd part at the square. */
  lemma {:induction false} EvenOdd(poly: seq<int>, x: int)
    requires |poly| % 2 == 0
    ensures Eval(poly, x) == Eval(Evens(poly), x * x) + x * Eval(Odds(poly), x * x)
  {
    if poly != [] {
      EvenOdd(poly[2..], x);
      var e, o, y := Eval(Evens(poly[2..]), x * x), Eval(Odds(poly[2..]), x * x), x * x;
      assert Evens(poly)[1..] == Evens(poly[2..]) && Odds(poly)[1..] == Odds(poly[2..]);
      assert poly[1..][1..] == poly[2..];
      assert Eval(poly, x) == poly[0] + x * (poly[1] + x * (e + x * o));
      Expand(poly[0], poly[1], x, e, o);
    }
  }

  lemma Expand(a: int, b: int, x: int, e: int, o: int)
    ensures a + x * (b + x * (e + x * o)) == (a + (x * x) * e) + x * (b + (x * x) * o)
  {
    assert x * (e + x * o) == x * e + x * (x * o);
    assert x * (b + (x * e + x * (x * o))) == x * b + x * (x * e) + x * (x * (x * o));
    assert x * (x * e) == (x * x) * e && x * (x * o) == (x * x) * o;
    assert x * (b + (x * x) * o) == x * b + x * ((x * x) * o);
  }

  lemma EvalStep(poly: seq<int>, x: int)
    requires poly != []
    ensures Eval(poly, x) == poly[0] + x * Eval(poly[1..], x)
  {
  }

  lemma HalvesStep(poly: seq<int>, x: int)
    requires |poly| % 2 == 0 && poly != []
    ensures Eval(Evens(poly), x) == poly[0] + x * Eval(Evens(poly[2..]), x)
    ensures Eval(Odds(poly), x) == poly[1] + x * Eval(Odds(poly[2..]), x)
  {
    assert Evens(poly)[1..] == Evens(poly[2..]) && Odds(poly)[1..] == Odds(poly[2..]);
    EvalStep(Evens(poly), x);
    EvalStep(Odds(poly), x);
  }

  /** The value at `u` of the line through `a` at zero and `b` at one. */
  function Mix(u: int, a: int, b: int): int {
    (1 - u) * a + u * b
  }

  /** The coefficients of a fold at `u` mix the neighbouring coefficients of the polynomial. */
  ghost predicate IsFold(p: nat, poly: seq<int>, u: int, folded: seq<int>)
    requires p > 0
  {
    && |poly| == 2 * |folded|
    && forall j :: 0 <= j < |folded| ==> Cong(p, folded[j], Mix(u, poly[2 * j], poly[2 * j + 1]))
  }

  /** The value of a fold mixes the values of the even and the odd part. */
  lemma {:induction false} FoldEval(p: nat, poly: seq<int>, u: int, folded: seq<int>, y: int)
    requires p > 0 && IsFold(p, poly, u, folded)
    ensures |poly| % 2 == 0
    ensures Cong(p, Eval(folded, y), Mix(u, Eval(Evens(poly), y), Eval(Odds(poly), y)))
  {
    hide Residue, Eval, Evens, Odds, Mix, Cong;
    if folded == [] {
      FoldNothing(p, poly, u, folded, y);
    } else {
      FoldTail(p, poly, u, folded);
      FoldEval(p, poly[2..], u, folded[1..], y);
      EvalStep(folded, y);
      HalvesStep(poly, y);
      MixStep(p, u, y, folded[0], poly[0], poly[1],
              Eval(folded[1..], y), Eval(Evens(poly[2..]), y), Eval(Odds(poly[2..]), y));
    }
  }

  lemma FoldNothing(p: nat, poly: seq<int>, u: int, folded: seq<int>, y: int)
    requires p > 0 && poly == [] && folded == []
    ensures Cong(p, Eval(folded, y), Mix(u, Eval(Evens(poly), y), Eval(Odds(poly), y)))
  {
    hide Residue;
    assert (1 - u) * 0 + u * 0 == 0;
  }

  lemma FoldTail(p: nat, poly: seq<int>, u: int, folded: seq<int>)
    requires p > 0 && folded != [] && IsFold(p, poly, u, folded)
    ensures |poly| >= 2 && Cong(p, folded[0], Mix(u, poly[0], poly[1]))
    ensures IsFold(p, poly[2..], u, folded[1..])
  {
    hide Cong, Mix;
    assert Cong(p, folded[0], Mix(u, poly[2 * 0], poly[2 * 0 + 1]));
    forall j | 0 <= j < |folded[1..]|
      ensures Cong(p, folded[1..][j], Mix(u, poly[2..][2 * j], poly[2..][2 * j + 1]))
    {
      assert Cong(p, folded[j + 1], Mix(u, poly[2 * (j + 1)], poly[2 * (j + 1) + 1]));
    }
  }

  /** One more coefficient in front. */
  lemma MixStep(p: nat, u: int, y: int, c: int, a: int, b: int, f: int, e: int, o: int)
    requires p > 0 && Cong(p, c, Mix(u, a, b)) && Cong(p, f, Mix(u, e, o))
    ensures Cong(p, c + y * f, Mix(u, a + y * e, b + y * o))
  {
    hide Residue, Cong;
    Collect(u, a, b, y, e, o);
    hide Mix;
    CongSelf(p, y);
    CongMul(p, y, y, f, Mix(u, e, o));
    CongAdd(p, c, Mix(u, a, b), y * f, y * Mix(u, e, o));
  }

  lemma CongSelf(p: nat, a: int)
    requires p > 0
    ensures Cong(p, a, a)
  {
  }

  lemma CongTrans(p: nat, a: int, b: int, c: int)
    requires p > 0 && Cong(p, a, b) && Cong(p, b, c)
    ensures Cong(p, a, c)
  {
  }

  lemma Collect(u: int, a: int, b: int, y: int, e: int, o: int)
    ensures Mix(u, a, b) + y * Mix(u, e, o) == Mix(u, a + y * e, b + y * o)
  {
    var v := 1 - u;
    assert y * (v * e + u * o) == y * (v * e) + y * (u * o);
    assert v * (a + y * e) == v * a + v * (y * e) && u * (b + y * o) == u * b + u * (y * o);
    assert y * (v * e) == v * (y * e) && y * (u * o) == u * (y * o);
  }

  // ---------------------------------------------------------------- one round

  function DenominatorOf(u: int, r: int): int {
    r * (1 - u) + u
  }

  function Denominator(p: nat, u: nat, r: nat): (d: nat)
    requires p > 1 && u < p
    ensures d < p && Cong(p, d, DenominatorOf(u, r))
  {
    CongMul(p, r, r, SubMod(p, 1, u), 1 - u);
    CongAdd(p, MulMod(p, r, SubMod(p, 1, u)), r * (1 - u), u, u);
    AddMod(p, MulMod(p, r, SubMod(p, 1, u)), u)
  }

  function Numerator(p: nat, u: nat, r: nat, acc: nat, neg: nat): (n: nat)
    requires p > 2 && u < p
    ensures n < p && Cong(p, n, 2 * r * acc - neg * (r * (1 - u) - u))
  {
    var twice := MulMod(p, MulMod(p, r, acc), 2);
    var weight := SubMod(p, MulMod(p, r, SubMod(p, 1, u)), u);
    NumeratorLaw(p, u, r, acc, neg);
    SubMod(p, twice, MulMod(p, neg, weight))
  }

  lemma NumeratorLaw(p: nat, u: nat, r: nat, acc: nat, neg: nat)
    requires p > 2 && u < p
    ensures var twice, weight := MulMod(p, MulMod(p, r, acc), 2), SubMod(p, MulMod(p, r, SubMod(p, 1, u)), u);
      Cong(p, twice - MulMod(p, neg, weight), 2 * r * acc - neg * (r * (1 - u) - u))
  {
    var twice, weight := MulMod(p, MulMod(p, r, acc), 2), SubMod(p, MulMod(p, r, SubMod(p, 1, u)), u);
    CongMul(p, MulMod(p, r, acc), r * acc, 2, 2);
    assert r * acc * 2 == 2 * r * acc;
    CongMul(p, r, r, SubMod(p, 1, u), 1 - u);
    CongAdd(p, MulMod(p, r, SubMod(p, 1, u)), r * (1 - u), u, u);
    CongMul(p, neg, neg, weight, r * (1 - u) - u);
    CongAdd(p, twice, 2 * r * acc, MulMod(p, neg, weight), neg * (r * (1 - u) - u));
  }

  lemma QuotientLaw(p: nat, n: nat, d: nat, i: nat)
    requires p > 0 && Cong(p, d * i, 1)
    ensures Cong(p, d * MulMod(p, n, i), n)
  {
    hide Residue, MulMod;
    CongMul(p, d, d, MulMod(p, n, i), n * i);
    CongMul(p, n, n, d * i, 1);
    assert d * (n * i) == n * (d * i);
  }

  /** The evaluation of one fold at `r` from the next fold's at `r^2` and its own at `-r`. */
  function Round(p: nat, u: nat, r: nat, acc: nat, neg: nat): (v: Option<nat>)
    requires Prime(p) && p > 2 && u < p
    ensures v.None? <==> Denominator(p, u, r) == 0
    ensures v.Some? ==> v.value < p && Cong(p, Denominator(p, u, r) * v.value, Numerator(p, u, r, acc, neg))
  {
    hide Residue, Prime, Numerator, Denominator, Invert, MulMod;
    var n, d := Numerator(p, u, r, acc, neg), Denominator(p, u, r);
    match Invert(p, d)
    case None => None
    case Some(i) =>
      QuotientLaw(p, n, d, i);
      Some(MulMod(p, n, i))
  }

  /** The rounds below level `n`, from the top down; `None` when one of them reverts. */
  function FoldPos(p: nat, us: seq<nat>, gemini: seq<nat>, rs: seq<nat>, acc: nat, n: nat): (vs: Option<seq<nat>>)
    requires Prime(p) && p > 2 && n <= |us| && n <= |gemini| && n <= |rs|
    requires forall l :: 0 <= l < n ==> us[l] < p
    ensures vs.Some? ==> |vs.value| == n
    decreases n
  {
    hide Residue, Prime, Numerator, Denominator, Round;
    if n == 0 then Some([])
    else match Round(p, us[n - 1], rs[n - 1], acc, gemini[n - 1])
      case None => None
      case Some(v) =>
        match FoldPos(p, us, gemini, rs, v, n - 1)
        case None => None
        case Some(below) => Some(below + [v])
  }

  /** Some denominator below level `n` vanishes. */
  ghost predicate Vanishes(p: nat, us: seq<nat>, rs: seq<nat>, n: nat)
    requires p > 0 && n <= |us| && n <= |rs|
  {
    exists l :: 0 <= l < n && Cong(p, DenominatorOf(us[l], rs[l]), 0)
  }

  /** The verifier reverts exactly if a denominator vanishes at some level. */
  lemma {:induction false} FoldPosReverts(p: nat, us: seq<nat>, gemini: seq<nat>, rs: seq<nat>, acc: nat, n: nat)
    requires Prime(p) && p > 2 && n <= |us| && n <= |gemini| && n <= |rs|
    requires forall l :: 0 <= l < n ==> us[l] < p
    ensures FoldPos(p, us, gemini, rs, acc, n).None? <==> Vanishes(p, us, rs, n)
    decreases n
  {
    hide Residue, Prime, Numerator, Round;
    if n > 0 {
      var v := Round(p, us[n - 1], rs[n - 1], acc, gemini[n - 1]);
      var d := Denominator(p, us[n - 1], rs[n - 1]);
      if Cong(p, d, 0) {
        CongUnique(p, d, 0);
      }
      if v.Some? {
        FoldPosReverts(p, us, gemini, rs, v.value, n - 1);
      }
    }
  }

  /** `computeFoldPosEvaluations`, which fills its array from the top down. */
  method ComputeFoldPosEvaluations(p: nat, us: seq<nat>, acc0: nat, gemini: seq<nat>, rs: seq<nat>, logSize: nat)
    returns (evaluations: Option<array<nat>>)
    requires Prime(p) && p > 2 && logSize <= |us| && logSize <= |gemini| && logSize <= |rs|
    requires forall l :: 0 <= l < logSize ==> us[l] < p
    ensures var vs := FoldPos(p, us, gemini, rs, acc0, logSize);
      if vs.None? then evaluations.None?
      else evaluations.Some? && fresh(evaluations.value) && evaluations.value[..] == vs.value
    ensures evaluations.None? <==> Vanishes(p, us, rs, logSize)
  {
    hide Residue, Prime, Denominator, Round, Vanishes;
    FoldPosReverts(p, us, gemini, rs, acc0, logSize);
    var fold := new nat[logSize];
    var i, acc := logSize, acc0;
    assert forall xs: seq<nat> :: xs + fold[logSize..] == xs;
    while i > 0
      invariant 0 <= i <= logSize
      invariant var vs := FoldPos(p, us, gemini, rs, acc0, logSize); var below := FoldPos(p, us, gemini, rs, acc, i);
        if below.None? then vs.None? else vs == Some(below.value + fold[i..])
    {
      var v := Round(p, us[i - 1], rs[i - 1], acc, gemini[i - 1]);
      if v.None? {
        return None;
      }
      acc := v.value;
      ghost var tail := fold[i..];
      fold[i - 1] := v.value;
      assert fold[i - 1..] == [v.value] + tail;
      assert forall xs: seq<nat> :: xs + [v.value] + tail == xs + ([v.value] + tail);
      i := i - 1;
    }
    assert fold[0..] == fold[..];
    evaluations := Some(fold);
  }

  lemma SquareNext(p: nat, r: nat, s: nat, i: nat)
    requires p > 0 && Cong(p, s, Pow(r, Exp2(i)))
    ensures Cong(p, MulMod(p, s, s), Pow(r, Exp2(i + 1)))
  {
    hide Residue, MulMod;
    CongMul(p, s, Pow(r, Exp2(i)), s, Pow(r, Exp2(i)));
    PowAdd(r, Exp2(i), Exp2(i));
  }

  /** `computeSquares`: entry `i` is congruent to `r^(2^i)`; without entries the first
      assignment reverts. */
  method ComputeSquares(p: nat, r: nat, logN: nat) returns (squares: Option<array<nat>>)
    requires p > 0
    ensures squares.None? <==> logN == 0
    ensures squares.Some? ==> var s := squares.value;
      && fresh(s) && s.Length == logN && s[0] == r
      && (forall i :: 0 <= i < logN - 1 ==> s[i + 1] == MulMod(p, s[i], s[i]))
      && (forall i :: 0 <= i < logN ==> Cong(p, s[i], Pow(r, Exp2(i))))
  {
    hide Residue, MulMod;
    if logN == 0 {
      return None;
    }
    var s := new nat[logN];
    s[0] := r;
    assert Pow(r, Exp2(0)) == r * Pow(r, 0);
    hide Exp2, Pow;
    for i := 1 to logN
      invariant s[0] == r
      invariant forall j :: 0 <= j < i - 1 ==> s[j + 1] == MulMod(p, s[j], s[j])
      invariant forall j :: 0 <= j < i ==> Cong(p, s[j], Pow(r, Exp2(j)))
    {
      SquareNext(p, r, s[i - 1], i - 1);
      s[i] := MulMod(p, s[i - 1], s[i - 1]);
    }
    return Some(s);
  }

  // ---------------------------------------------------------------- reconstruction

  /** The honest prover's folds over `m` levels: each polynomial is the previous one folded at
      its challenge, down to a constant, with evaluations at the negated challenge powers. The
      arrays may be longer; what is behind the first `m` entries is padding. */
  ghost predicate Honest(p: nat, us: seq<nat>, gemini: seq<nat>, rs: seq<nat>, polys: seq<seq<int>>, m: nat)
    requires p > 0
  {
    && m <= |us| && m <= |gemini| && m <= |rs| && |polys| == m + 1 && |polys[m]| == 1
    && (forall l :: 0 <= l < m ==> us[l] < p)
    && (forall l :: 0 <= l < m ==> IsFold(p, polys[l], us[l], polys[l + 1]))
    && (forall l :: 0 <= l < m ==> Cong(p, gemini[l], Eval(polys[l], Neg(rs[l]))))
    && (forall l :: 0 <= l < m - 1 ==> Cong(p, rs[l + 1], rs[l] * rs[l]))
  }

  /** One round is correct: the value it computes is the evaluation at `r`. */
  lemma RoundReconstructs(p: nat, u: nat, r: nat, acc: nat, neg: nat, poly: seq<int>, folded: seq<int>)
    requires Prime(p) && p > 2 && u < p && IsFold(p, poly, u, folded)
    requires Cong(p, acc, Eval(folded, r * r)) && Cong(p, neg, Eval(poly, Neg(r)))
    ensures var v := Round(p, u, r, acc, neg); v.Some? ==> Cong(p, v.value, Eval(poly, r))
  {
    hide Residue, Prime, Numerator, Denominator, Round, Eval, Evens, Odds;
    var v := Round(p, u, r, acc, neg);
    if v.Some? {
      var e, o := Eval(Evens(poly), r * r), Eval(Odds(poly), r * r);
      EvenOdd(poly, r);
      FoldNumerator(p, u, r, acc, neg, poly, folded);
      var d := Denominator(p, u, r);
      CongMul(p, d, DenominatorOf(u, r), e + r * o, e + r * o);
      if Cong(p, d, 0) {
        CongUnique(p, d, 0);
      }
      Cancel(p, d, v.value, e + r * o);
    }
  }

  lemma FoldNumerator(p: nat, u: nat, r: nat, acc: nat, neg: nat, poly: seq<int>, folded: seq<int>)
    requires Prime(p) && p > 2 && u < p && IsFold(p, poly, u, folded)
    requires Cong(p, acc, Eval(folded, r * r)) && Cong(p, neg, Eval(poly, Neg(r)))
    ensures |poly| % 2 == 0
    ensures Cong(p, Numerator(p, u, r, acc, neg),
                 DenominatorOf(u, r) * (Eval(Evens(poly), r * r) + r * Eval(Odds(poly), r * r)))
  {
    hide Residue, Prime, Numerator, Eval, Evens, Odds, Mix, Cong, DenominatorOf;
    FoldEval(p, poly, u, folded, r * r);
    var e, o := Eval(Evens(poly), r * r), Eval(Odds(poly), r * r);
    EvenOdd(poly, Neg(r));
    NegSquared(r, o);
    CongTrans(p, acc, Eval(folded, r * r), Mix(u, e, o));
    assert Eval(poly, Neg(r)) == e - r * o;
    NumeratorCong(p, u, r, acc, neg, Mix(u, e, o), e - r * o);
    RoundIdentity(u, r, e, o);
  }

  lemma NegSquared(r: int, o: int)
    ensures Neg(r) * Neg(r) == r * r && Neg(r) * o == -(r * o)
  {
  }

  /** The numerator of congruent arguments. */
  lemma NumeratorCong(p: nat, u: nat, r: nat, acc: nat, neg: nat, a: int, n: int)
    requires p > 2 && u < p && Cong(p, acc, a) && Cong(p, neg, n)
    ensures Cong(p, Numerator(p, u, r, acc, neg), 2 * r * a - n * (r * (1 - u) - u))
  {
    hide Residue, Numerator;
    CongMul(p, 2 * r, 2 * r, acc, a);
    CongMul(p, neg, n, r * (1 - u) - u, r * (1 - u) - u);
    CongAdd(p, 2 * r * acc, 2 * r * a, neg * (r * (1 - u) - u), n * (r * (1 - u) - u));
  }

  /** The identity behind the reconstruction. */
  lemma RoundIdentity(u: int, r: int, e: int, o: int)
    ensures 2 * r * Mix(u, e, o) - (e - r * o) * (r * (1 - u) - u) == DenominatorOf(u, r) * (e + r * o)
  {
    var w, f := r * (1 - u), r * o;
    assert (e - f) * (w - u) == e * w - e * u - f * w + f * u;
    assert (w + u) * (e + f) == e * w + w * f + e * u + u * f;
    assert 2 * r * ((1 - u) * e + u * o) == 2 * (r * ((1 - u) * e)) + 2 * (r * (u * o));
    assert r * ((1 - u) * e) == w * e && r * (u * o) == u * f;
  }

  /** The backward loop returns, at every level, the evaluation of that level's fold at its
      challenge power, whenever it returns at all. */
  lemma {:induction false} FoldPosReconstructs(p: nat, us: seq<nat>, gemini: seq<nat>, rs: seq<nat>,
      polys: seq<seq<int>>, m: nat, acc: nat, n: nat)
    requires Prime(p) && p > 2 && Honest(p, us, gemini, rs, polys, m) && n <= m
    requires if n == m then Cong(p, acc, polys[n][0]) else Cong(p, acc, Eval(polys[n], rs[n]))
    ensures var vs := FoldPos(p, us, gemini, rs, acc, n);
      vs.Some? ==> forall l :: 0 <= l < n ==> Cong(p, vs.value[l], Eval(polys[l], rs[l]))
    decreases n
  {
    hide Residue, Prime, Denominator, Round, IsFold, Eval;
    if n > 0 {
      var r := rs[n - 1];
      if n == m {
        EvalConstant(polys[n], r * r);
      } else {
        EvalCong(p, polys[n], rs[n], r * r);
      }
      RoundReconstructs(p, us[n - 1], r, acc, gemini[n - 1], polys[n - 1], polys[n]);
      var v := Round(p, us[n - 1], r, acc, gemini[n - 1]);
      if v.Some? {
        FoldPosReconstructs(p, us, gemini, rs, polys, m, v.value, n - 1);
      }
    }
  }

  /** What the prover claims: folds down to a constant, and their evaluations at the negated
      powers of `r`. */
  ghost predicate Claims(p: nat, us: seq<nat>, gemini: seq<nat>, r: nat, polys: seq<seq<int>>, m: nat)
    requires p > 0
  {
    && m <= |us| && m <= |gemini| && |polys| == m + 1 && |polys[m]| == 1
    && (forall l :: 0 <= l < m ==> us[l] < p)
    && (forall l :: 0 <= l < m ==> IsFold(p, polys[l], us[l], polys[l + 1]))
    && (forall l :: 0 <= l < m ==> Cong(p, gemini[l], Eval(polys[l], Neg(Pow(r, Exp2(l))))))
  }

  lemma ClaimsAreHonest(p: nat, us: seq<nat>, gemini: seq<nat>, r: nat, rs: seq<nat>, polys: seq<seq<int>>, m: nat)
    requires p > 0 && Claims(p, us, gemini, r, polys, m) && |rs| == m
    requires forall l :: 0 <= l < m - 1 ==> rs[l + 1] == MulMod(p, rs[l], rs[l])
    requires forall l :: 0 <= l < m ==> Cong(p, rs[l], Pow(r, Exp2(l)))
    ensures Honest(p, us, gemini, rs, polys, m)
  {
    hide Residue, IsFold, Eval, Pow, Exp2, MulMod;
    forall l | 0 <= l < m ensures Cong(p, gemini[l], Eval(polys[l], Neg(rs[l]))) {
      CongAdd(p, 0, 0, rs[l], Pow(r, Exp2(l)));
      EvalCong(p, polys[l], Neg(rs[l]), Neg(Pow(r, Exp2(l))));
    }
    forall l | 0 <= l < m - 1 ensures Cong(p, rs[l + 1], rs[l] * rs[l]) {
      var _ := MulMod(p, rs[l], rs[l]);
    }
  }

  lemma DenominatorCong(p: nat, u: int, r: int, r': int)
    requires p > 0 && Cong(p, r, r')
    ensures Cong(p, DenominatorOf(u, r), DenominatorOf(u, r'))
  {
    hide Residue;
    CongMul(p, r, r', 1 - u, 1 - u);
    CongAdd(p, r * (1 - u), r' * (1 - u), u, u);
  }

  /** A denominator at the square computed for a level vanishes if it does at the power. */
  lemma VanishesAtPowers(p: nat, us: seq<nat>, r: nat, rs: seq<nat>, n: nat)
    requires p > 0 && n <= |us| && n <= |rs|
    requires forall l :: 0 <= l < n ==> Cong(p, rs[l], Pow(r, Exp2(l)))
    ensures Vanishes(p, us, rs, n) <==> exists l :: 0 <= l < n && Cong(p, DenominatorOf(us[l], Pow(r, Exp2(l))), 0)
  {
    hide Residue, Pow, Exp2, DenominatorOf;
    forall l | 0 <= l < n ensures Cong(p, DenominatorOf(us[l], rs[l]), DenominatorOf(us[l], Pow(r, Exp2(l)))) {
      DenominatorCong(p, us[l], rs[l], Pow(r, Exp2(l)));
    }
  }

  /** The two calls of the verifier, on arrays as long as they may be: from an honest prover's
      claims it gets the evaluation of every fold at its power of `r`, or it reverts because a
      denominator vanishes or there are no levels. */
  method ReconstructFolds(p: nat, us: seq<nat>, acc: nat, gemini: seq<nat>, r: nat, logSize: nat,
      ghost polys: seq<seq<int>>) returns (evaluations: Option<array<nat>>)
    requires Prime(p) && p > 2 && Claims(p, us, gemini, r, polys, logSize)
    requires Cong(p, acc, polys[logSize][0])
    ensures evaluations.None? <==>
      (logSize == 0 || exists l :: 0 <= l < logSize && Cong(p, DenominatorOf(us[l], Pow(r, Exp2(l))), 0))
    ensures evaluations.Some? ==> evaluations.value.Length == logSize && forall l :: 0 <= l < logSize ==>
      Cong(p, evaluations.value[l], Eval(polys[l], Pow(r, Exp2(l))))
  {
    hide Residue, Prime, Eval, Pow, Exp2, IsFold, MulMod, Vanishes, FoldPos, DenominatorOf;
    var squares := ComputeSquares(p, r, logSize);
    if squares.None? {
      return None;
    }
    var rs := squares.value[..];
    ClaimsAreHonest(p, us, gemini, r, rs, polys, logSize);
    VanishesAtPowers(p, us, r, rs, logSize);
    FoldPosReconstructs(p, us, gemini, rs, polys, logSize, acc, logSize);
    evaluations := ComputeFoldPosEvaluations(p, us, acc, gemini, rs, logSize);
    if evaluations.Some? {
      forall l | 0 <= l < logSize ensures Cong(p, evaluations.value[l], Eval(polys[l], Pow(r, Exp2(l)))) {
        assert evaluations.value[..][l] == evaluations.value[l];
        EvalCong(p, polys[l], rs[l], Pow(r, Exp2(l)));
      }
    }
  }

  lemma EvalConstant(poly: seq<int>, x: int)
    requires |poly| == 1
    ensures Eval(poly, x) == poly[0]
  {
    assert Eval(poly[1..], x) == 0;
  }

  lemma {:induction false} EvalCong(p: nat, poly: seq<int>, x: int, y: int)
    requires p > 0 && Cong(p, x, y)
    ensures Cong(p, Eval(poly, x), Eval(poly, y))
  {
    if poly != [] {
      EvalCong(p, poly[1..], x, y);
      CongMul(p, x, y, Eval(poly[1..], x), Eval(poly[1..], y));
      CongAdd(p, poly[0], poly[0], x * Eval(poly[1..], x), y * Eval(poly[1..], y));
    }
  }
}
