/** `Field.powSmall` and `Field.sqrt` of `Utilities.sol`: square-and-multiply, and the
    Tonelli-Shanks square root modulo an odd prime. */
module FieldSqrt {
  import opened NumberTheory
  import opened Powers
  import opened Wrappers

  /** The big modular exponentiation precompile. */
  function PowMod(base: nat, exponent: nat, modulus: nat): (r: nat)
    requires modulus > 0
    ensures r < modulus && Cong(modulus, r, Pow(base, exponent))
  {
    CongMod(modulus, Pow(base, exponent));
    Pow(base, exponent) % modulus
  }

  // ---------------------------------------------------------------- powSmall

  /** The counter of `powSmall` after `k` rounds, doubled in arithmetic on words of the given
      number of bits (256 in the contract). */
  function Count(bits: nat, k: nat): nat {
    if k == 0 then 1 else (Count(bits, k - 1) + Count(bits, k - 1)) % Exp2(bits)
  }

  lemma {:induction false} CountIsPower(bits: nat, k: nat)
    requires bits > 0
    ensures Count(bits, k) == if k < bits then Exp2(k) else 0
  {
    if k == 0 {
      assert Exp2(0) == 1;
    } else {
      CountIsPower(bits, k - 1);
      assert Exp2(k - 1) + Exp2(k - 1) == Exp2(k);
      hide Exp2;
      if k < bits {
        Exp2Grows(k, bits);
        SmallMod(Exp2(k), Exp2(bits));
      } else if k == bits {
        ItselfMod(Exp2(bits));
      } else {
        SmallMod(0, Exp2(bits));
      }
    }
  }

  lemma Exp2Grows(k: nat, n: nat)
    requires k < n
    ensures Exp2(k) < Exp2(n)
  {
    Exp2Monotone(k, n - 1);
  }

  lemma ItselfMod(n: nat)
    requires n > 0
    ensures n % n == 0
  {
    CongIntro(n, n, 0, 1);
  }

  /** The loop guard `count < exponent + 1`, in word arithmetic, fails at some round exactly
      for exponents without the top bit and for the largest word: the others loop forever. */
  lemma PowSmallTerminates(bits: nat, exponent: nat)
    requires bits > 0 && exponent < Exp2(bits)
    ensures (exists k :: Count(bits, k) >= (exponent + 1) % Exp2(bits))
       <==> exponent < Exp2(bits - 1) || exponent == Exp2(bits) - 1
  {
    if exponent == Exp2(bits) - 1 {
      ItselfMod(Exp2(bits));
      assert Count(bits, 0) >= (exponent + 1) % Exp2(bits);
    } else {
      SmallMod(exponent + 1, Exp2(bits));
      CountIsPower(bits, bits - 1);
      if exponent >= Exp2(bits - 1) {
        forall k: nat ensures Count(bits, k) < exponent + 1 {
          CountIsPower(bits, k);
          if k < bits {
            Exp2Monotone(k, bits - 1);
          }
        }
      }
    }
  }

  /** Square-and-multiply over the bits of the exponent, wherever it terminates. The result is
      reduced as soon as a bit of the exponent is set. For the largest word the end point wraps
      around to zero and the result is one. */
  method PowSmall(bits: nat, base: nat, exponent: nat, modulus: nat) returns (result: nat)
    requires modulus > 0 && bits > 0
    requires exponent < Exp2(bits - 1) || exponent == Exp2(bits) - 1
    ensures exponent < Exp2(bits - 1) ==> Cong(modulus, result, Pow(base, exponent))
    ensures exponent < Exp2(bits - 1) && (exponent > 0 || modulus > 1) ==> result < modulus
    ensures exponent >= Exp2(bits - 1) ==> result == 1
  {
    result := 1;
    var input, count := base, 1;
    var endPoint := (exponent + 1) % Exp2(bits);
    if exponent < Exp2(bits - 1) {
      SmallMod(exponent + 1, Exp2(bits));
    } else {
      ItselfMod(Exp2(bits));
    }
    ghost var k := 0;
    while count < endPoint
      invariant exponent >= Exp2(bits - 1) ==> endPoint == 0 && result == 1
      invariant count == Exp2(k) && k < bits
      invariant Cong(modulus, input, Pow(base, count))
      invariant Cong(modulus, result, Pow(base, exponent % count))
      invariant exponent % count == 0 || modulus > 1 ==> result == 1 || result < modulus
      invariant exponent % count > 0 ==> result < modulus
      decreases exponent + 1 - count
    {
      var bit := (exponent / count) % 2;
      BitOf(exponent, count);
      if bit == 1 {
        CongMul(modulus, result, Pow(base, exponent % count), input, Pow(base, count));
        PowAdd(base, exponent % count, count);
        result := MulMod(modulus, result, input);
      }
      CongMul(modulus, input, Pow(base, count), input, Pow(base, count));
      PowAdd(base, count, count);
      input := MulMod(modulus, input, input);
      count := count + count;
      k := k + 1;
    }
    if exponent < Exp2(bits - 1) {
      SmallMod(exponent, count);
    }
  }

  /** The next bit of the exponent extends its remainder. */
  lemma BitOf(e: nat, c: nat)
    requires c > 0
    ensures e % (c + c) == e % c + if (e / c) % 2 == 1 then c else 0
  {
    hide Residue;
    var d, m := e / c, e % c;
    Halved(c, e, d, m, d / 2, d % 2);
    var r := m + if d % 2 == 1 then c else 0;
    CongIntro(c + c, e, r, d / 2);
    CongMod(c + c, e);
    CongUnique(c + c, e % (c + c), r);
  }

  lemma Halved(c: nat, e: nat, d: nat, m: nat, q: nat, b: nat)
    requires e == c * d + m && d == 2 * q + b && b < 2
    ensures e == (m + if b == 1 then c else 0) + q * (c + c)
  {
    assert c * (2 * q + b) == q * (c + c) + c * b;
  }

  lemma SmallMod(e: nat, c: nat)
    requires e < c
    ensures e % c == e
  {
  }

  // ---------------------------------------------------------------- sqrt

  /** Euler's criterion as the contract evaluates it. */
  predicate IsSquare(base: nat, modulus: nat)
    requires modulus > 0
  {
    PowMod(base, (modulus - 1) / 2, modulus) == 1
  }

  lemma IsSquareIsEuler(x: nat, p: nat)
    requires p > 1
    ensures IsSquare(x, p) <==> Cong(p, Pow(x, (p - 1) / 2), 1)
  {
    if Cong(p, Pow(x, (p - 1) / 2), 1) {
      CongUnique(p, PowMod(x, (p - 1) / 2, p), 1);
    }
  }

  lemma {:induction false} PowOfZero(p: nat, x: int, n: nat)
    requires p > 0 && n > 0 && Cong(p, x, 0)
    ensures Cong(p, Pow(x, n), 0)
  {
    CongMul(p, x, 0, Pow(x, n - 1), Pow(x, n - 1));
  }

  /** A non-zero residue that fails the criterion has the Euler power minus one. */
  lemma NonSquareIsMinusOne(n: nat, p: nat)
    requires Prime(p) && p > 2 && 0 < n < p && !IsSquare(n, p)
    ensures Cong(p, Pow(n, (p - 1) / 2), -1)
  {
    IsSquareIsEuler(n, p);
    if Cong(p, n, 0) {
      CongUnique(p, n, 0);
    }
    EulerIsSign(p, n);
  }

  /** The loop invariant of Tonelli-Shanks: `x` is a root of `a` up to the factor `b`, whose
      order divides `2^(r-1)`, while `g` has order exactly `2^r`. */
  ghost predicate Tonelli(p: nat, a: nat, x: nat, b: nat, g: nat, r: nat) {
    && p > 2 && r > 0
    && Cong(p, x * x, a * b)
    && Cong(p, Pow(g, Exp2(r - 1)), -1)
    && Cong(p, Pow(b, Exp2(r - 1)), 1)
  }

  /** `m` is the number of squarings that take `b` to one. */
  ghost predicate Order(p: nat, b: nat, m: nat)
    requires p > 0
  {
    Cong(p, Pow(b, Exp2(m)), 1) && forall k: nat :: k < m ==> !Cong(p, Pow(b, Exp2(k)), 1)
  }

  lemma OrderAbove(p: nat, b: nat, m: nat)
    requires Prime(p) && m > 0 && Order(p, b, m)
    ensures Cong(p, Pow(b, Exp2(m - 1)), -1)
  {
    PowAdd(b, Exp2(m - 1), Exp2(m - 1));
    RootsOfOne(p, Pow(b, Exp2(m - 1)));
  }

  lemma TonelliStep(p: nat, a: nat, x: nat, b: nat, g: nat, r: nat, m: nat)
    requires Prime(p) && Tonelli(p, a, x, b, g, r) && 0 < m < r && Order(p, b, m)
    ensures var gs := PowMod(g, Exp2(r - (m + 1)), p);
      var g' := MulMod(p, gs, gs);
      Tonelli(p, a, MulMod(p, x, gs), MulMod(p, b, g'), g', m)
  {
    var gs := PowMod(g, Exp2(r - (m + 1)), p);
    var g' := MulMod(p, gs, gs);
    NewRoot(p, a, x, b, gs, g');
    NewGenerator(p, g, r, m);
    OrderAbove(p, b, m);
    NewFactor(p, b, g', Exp2(m - 1));
  }

  lemma NewRoot(p: nat, a: nat, x: nat, b: nat, gs: nat, g': nat)
    requires p > 0 && Cong(p, x * x, a * b) && Cong(p, g', gs * gs)
    ensures var x' := MulMod(p, x, gs); Cong(p, x' * x', a * MulMod(p, b, g'))
  {
    var x', b' := MulMod(p, x, gs), MulMod(p, b, g');
    CongMul(p, x', x * gs, x', x * gs);
    Regroup(x, gs, x, gs);
    CongMul(p, x * x, a * b, gs * gs, g');
    CongMul(p, a, a, b', b * g');
    assert (a * b) * g' == a * (b * g');
  }

  lemma NewGenerator(p: nat, g: nat, r: nat, m: nat)
    requires p > 0 && 0 < m < r && Cong(p, Pow(g, Exp2(r - 1)), -1)
    ensures var gs := PowMod(g, Exp2(r - (m + 1)), p); Cong(p, Pow(MulMod(p, gs, gs), Exp2(m - 1)), -1)
  {
    var e := Exp2(r - (m + 1));
    var gs := PowMod(g, e, p);
    var g' := MulMod(p, gs, gs);
    Square(gs);
    CongPow(p, g', Pow(gs, 2), Exp2(m - 1));
    PowMul(gs, 2, Exp2(m - 1));
    CongPow(p, gs, Pow(g, e), Exp2(m));
    PowMul(g, e, Exp2(m));
    Exp2Sum(r - (m + 1), m);
  }

  lemma NewFactor(p: nat, b: nat, g: nat, e: nat)
    requires p > 0 && Cong(p, Pow(b, e), -1) && Cong(p, Pow(g, e), -1)
    ensures Cong(p, Pow(MulMod(p, b, g), e), 1)
  {
    CongPow(p, MulMod(p, b, g), b * g, e);
    PowProduct(b, g, e);
    CongMul(p, Pow(b, e), -1, Pow(g, e), -1);
  }

  lemma HalfOrder(p: nat, s: nat, e: nat)
    requires p - 1 == s * Exp2(e) && e > 0
    ensures s * Exp2(e - 1) == (p - 1) / 2
  {
    assert s * Exp2(e) == 2 * (s * Exp2(e - 1));
  }

  lemma TonelliStart(p: nat, a: nat, n: nat, s: nat, e: nat)
    requires Prime(p) && p > 2 && p - 1 == s * Exp2(e) && s % 2 == 1 && e > 0
    requires IsSquare(a, p) && 0 < n < p && !IsSquare(n, p)
    ensures Tonelli(p, a, PowMod(a, (s + 1) / 2, p), PowMod(a, s, p), PowMod(n, s, p), e)
  {
    hide Residue, PowMod, IsSquare, Exp2, Prime;
    var h := (s + 1) / 2;
    var x, b, g := PowMod(a, h, p), PowMod(a, s, p), PowMod(n, s, p);
    HalfOrder(p, s, e);
    CongMul(p, x, Pow(a, h), x, Pow(a, h));
    PowAdd(a, h, h);
    PowNext(a, s);
    hide Pow;
    CongMul(p, a, a, b, Pow(a, s));
    IsSquareIsEuler(a, p);
    NonSquareIsMinusOne(n, p);
    CongPow(p, b, Pow(a, s), Exp2(e - 1));
    PowMul(a, s, Exp2(e - 1));
    CongPow(p, g, Pow(n, s), Exp2(e - 1));
    PowMul(n, s, Exp2(e - 1));
  }

  lemma TonelliEnd(p: nat, a: nat, x: nat, b: nat, g: nat, r: nat)
    requires Tonelli(p, a, x, b, g, r) && Order(p, b, 0)
    ensures Cong(p, x * x, a)
  {
    assert Pow(b, 1) == b * Pow(b, 0);
    CongMul(p, a, a, b, 1);
  }

  /** For primes of the form `4k + 3` one power is enough. */
  lemma DirectRoot(a: nat, p: nat)
    requires p % 4 == 3 && IsSquare(a, p)
    ensures var y := PowMod(a, (p + 1) / 4, p); Cong(p, y * y, a)
  {
    hide Residue, PowMod, IsSquare;
    var q, e := (p + 1) / 4, (p - 1) / 2;
    var y := PowMod(a, q, p);
    IsSquareIsEuler(a, p);
    CongMul(p, y, Pow(a, q), y, Pow(a, q));
    assert q + q == 1 + e;
    PowAdd(a, q, q);
    PowNext(a, e);
    hide Pow;
    CongMul(p, a, a, Pow(a, e), 1);
  }

  lemma PowNext(a: int, n: nat)
    ensures Pow(a, 1 + n) == a * Pow(a, n)
  {
  }

  lemma PowOneTime(b: nat)
    ensures Pow(b, Exp2(0)) == b
  {
    assert Pow(b, 1) == b * Pow(b, 0);
  }

  lemma ExpNext(p: nat, b: nat, m: nat, t: nat)
    requires p > 0 && Cong(p, t, Pow(b, Exp2(m)))
    ensures Cong(p, MulMod(p, t, t), Pow(b, Exp2(m + 1)))
  {
    CongMul(p, t, Pow(b, Exp2(m)), t, Pow(b, Exp2(m)));
    PowAdd(b, Exp2(m), Exp2(m));
  }

  /** How often `b` has to be squared to become one: fewer than `r` times. */
  method LeastOrder(p: nat, b: nat, r: nat) returns (m: nat)
    requires Prime(p) && 0 < r && b < p && Cong(p, Pow(b, Exp2(r - 1)), 1)
    ensures m < r && Order(p, b, m)
  {
    hide Exp2, Pow;
    var t: nat := b;
    m := 0;
    PowOneTime(b);
    while m < r && t != 1
      invariant m < r && t < p && Cong(p, t, Pow(b, Exp2(m)))
      invariant forall k: nat :: k < m ==> !Cong(p, Pow(b, Exp2(k)), 1)
      decreases r - m
    {
      if Cong(p, t, 1) {
        CongUnique(p, t, 1);
      }
      ExpNext(p, b, m, t);
      t := MulMod(p, t, t);
      m := m + 1;
    }
  }

  lemma MoveTwo(h: nat, e: nat)
    ensures (2 * h) * Exp2(e) == h * Exp2(e + 1)
  {
  }

  /** The odd part of `p - 1` and the power of two in it. */
  method OddPart(p: nat) returns (s: nat, e: nat)
    requires p > 2 && p % 2 == 1
    ensures p - 1 == s * Exp2(e) && s % 2 == 1 && e > 0
  {
    s, e := p - 1, 0;
    while s % 2 == 0
      invariant s > 0 && p - 1 == s * Exp2(e) && (e == 0 ==> s == p - 1)
      decreases s
    {
      MoveTwo(s / 2, e);
      s := s / 2;
      e := e + 1;
    }
  }

  /** The least number from two on that is no square: it lies below the modulus. */
  method LeastNonSquare(p: nat) returns (n: nat)
    requires Prime(p) && p > 2
    ensures 2 <= n < p && !IsSquare(n, p)
  {
    ghost var z := NonResidueExists(p);
    IsSquareIsEuler(z, p);
    n := 2;
    while IsSquare(n, p)
      invariant 2 <= n <= z
      decreases z - n
    {
      n := n + 1;
    }
  }

  lemma OddPrime(p: nat)
    requires Prime(p) && p > 2
    ensures p % 2 == 1
  {
    assert p % 2 != 0;
  }

  /** `sqrt` modulo an odd prime; `None` is the revert. */
  method Sqrt(a: nat, p: nat) returns (root: Option<nat>)
    requires Prime(p) && p > 2
    ensures root.None? <==> !IsSquare(a, p)
    ensures root.Some? ==> root.value < p && Cong(p, root.value * root.value, a)
  {
    hide Pow, Exp2, Tonelli, Order, IsSquare;
    if !IsSquare(a, p) {
      return None;
    }
    if p % 4 == 3 {
      DirectRoot(a, p);
      return Some(PowMod(a, (p + 1) / 4, p));
    }
    OddPrime(p);
    var s, e := OddPart(p);
    var n := LeastNonSquare(p);
    TonelliStart(p, a, n, s, e);
    var x := Descend(p, a, PowMod(a, (s + 1) / 2, p), PowMod(a, s, p), PowMod(n, s, p), e);
    root := Some(x);
  }

  /** The outer loop: `r` falls until `b` is one. */
  method Descend(p: nat, a: nat, x0: nat, b0: nat, g0: nat, r0: nat) returns (x: nat)
    requires Prime(p) && Tonelli(p, a, x0, b0, g0, r0) && x0 < p && b0 < p
    ensures x < p && Cong(p, x * x, a)
  {
    hide Pow, Exp2, PowMod, MulMod;
    x := x0;
    var b: nat, g: nat, r: nat := b0, g0, r0;
    while true
      invariant Tonelli(p, a, x, b, g, r) && x < p && b < p
      decreases r
    {
      var m := LeastOrder(p, b, r);
      if m == 0 {
        TonelliEnd(p, a, x, b, g, r);
        return;
      }
      TonelliStep(p, a, x, b, g, r, m);
      var gs := PowMod(g, Exp2(r - (m + 1)), p);
      g := MulMod(p, gs, gs);
      x := MulMod(p, x, gs);
      b := MulMod(p, b, g);
      r := m;
    }
  }

  /** The same steps as an existence proof. */
  lemma RootFrom(p: nat, a: nat, x: nat, b: nat, g: nat, r: nat, m: nat) returns (y: nat)
    requires Prime(p) && Tonelli(p, a, x, b, g, r) && m < r
    requires forall k: nat :: k < m ==> !Cong(p, Pow(b, Exp2(k)), 1)
    ensures Cong(p, y * y, a)
    decreases r, r - m
  {
    if !Cong(p, Pow(b, Exp2(m)), 1) {
      y := RootFrom(p, a, x, b, g, r, m + 1);
    } else if m == 0 {
      TonelliEnd(p, a, x, b, g, r);
      y := x;
    } else {
      TonelliStep(p, a, x, b, g, r, m);
      var gs := PowMod(g, Exp2(r - (m + 1)), p);
      var g' := MulMod(p, gs, gs);
      y := RootFrom(p, a, MulMod(p, x, gs), MulMod(p, b, g'), g', m, 0);
    }
  }

  lemma {:induction false} TwoAdic(n: nat) returns (s: nat, e: nat)
    requires n > 0
    ensures n == s * Exp2(e) && s % 2 == 1 && (n % 2 == 0 ==> e > 0)
  {
    if n % 2 == 1 {
      s, e := n, 0;
    } else {
      s, e := TwoAdic(n / 2);
      e := e + 1;
    }
  }

  lemma RootExists(a: nat, p: nat) returns (y: nat)
    requires Prime(p) && p > 2 && IsSquare(a, p)
    ensures Cong(p, y * y, a)
  {
    assert p % 2 == 1;
    var s, e := TwoAdic(p - 1);
    var n := NonResidueExists(p);
    IsSquareIsEuler(n, p);
    TonelliStart(p, a, n, s, e);
    y := RootFrom(p, a, PowMod(a, (s + 1) / 2, p), PowMod(a, s, p), PowMod(n, s, p), e, 0);
  }

  /** `sqrt` accepts exactly the non-zero values that have a square root: zero, which is its
      own root, is rejected. */
  lemma AcceptedExactlyIfRoot(x: nat, p: nat)
    requires Prime(p) && p > 2
    ensures IsSquare(x, p) <==> !Cong(p, x, 0) && exists y: nat :: Cong(p, y * y, x)
  {
    var h := (p - 1) / 2;
    IsSquareIsEuler(x, p);
    if Cong(p, x, 0) {
      PowOfZero(p, x, h);
    } else if y: nat :| Cong(p, y * y, x) {
      if Cong(p, y, 0) {
        CongMul(p, y, 0, y, 0);
      }
      EulerIsSign(p, y);
      CongPow(p, y * y, x, h);
      PowProduct(y, y, h);
    } else if IsSquare(x, p) {
      var y := RootExists(x, p);
    }
  }
}
