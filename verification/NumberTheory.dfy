/** Arithmetic modulo a prime, from the definition of a prime: Euclid's lemma, Fermat's
    little theorem, and the existence of quadratic non-residues. */
module NumberTheory {

  ghost predicate Prime(p: nat) {
    p >= 2 && forall d :: 2 <= d < p ==> p % d != 0
  }

  function Pow(a: int, n: nat): int {
    if n == 0 then 1 else a * Pow(a, n - 1)
  }

  // ---------------------------------------------------------------- congruence

  /** The representative in range. Proofs that only calculate with congruences hide it. */
  function Residue(p: nat, a: int): (r: nat)
    requires p > 0
    ensures r < p
  {
    a % p
  }

  ghost predicate Cong(p: nat, a: int, b: int)
    requires p > 0
  {
    Residue(p, a) == Residue(p, b)
  }

  lemma MultipleGrows(p: nat, k: int)
    requires p > 0
    ensures (k >= 1 ==> k * p >= p) && (k <= -1 ==> k * p <= 0 - p)
  {
    assert (k - 1) * p == k * p - p && (k + 1) * p == k * p + p;
  }

  lemma MultipleTooSmall(p: nat, k: int)
    requires p > 0 && 0 - p < k * p < p
    ensures k == 0
  {
    MultipleGrows(p, k);
  }

  lemma QuotientIsNat(a: nat, b: nat)
    requires b > 0
    ensures a / b >= 0
  {
    var q, r := a / b, a % b;
    assert a == q * b + r;
    if q < 0 {
      MultipleGrows(b, q);
    }
  }

  lemma CongIntro(p: nat, a: int, b: int, k: int)
    requires p > 0 && a == b + k * p
    ensures Cong(p, a, b)
  {
    var m := a / p - b / p - k;
    assert a == p * (a / p) + a % p && b == p * (b / p) + b % p;
    assert m * p == b % p - a % p;
    MultipleTooSmall(p, m);
  }

  lemma CongElim(p: nat, a: int, b: int) returns (k: int)
    requires p > 0 && Cong(p, a, b)
    ensures a == b + k * p
  {
    k := a / p - b / p;
    assert a == p * (a / p) + a % p && b == p * (b / p) + b % p;
  }

  lemma CongMod(p: nat, a: int)
    requires p > 0
    ensures Cong(p, a % p, a) && 0 <= a % p < p && Residue(p, a) == a % p
  {
    CongIntro(p, a, a % p, a / p);
  }

  lemma CongAdd(p: nat, a: int, b: int, c: int, d: int)
    requires p > 0 && Cong(p, a, b) && Cong(p, c, d)
    ensures Cong(p, a + c, b + d) && Cong(p, a - c, b - d)
  {
    var k := CongElim(p, a, b);
    var m := CongElim(p, c, d);
    CongIntro(p, a + c, b + d, k + m);
    CongIntro(p, a - c, b - d, k - m);
  }

  lemma ProductOfShifted(b: int, k: int, d: int, m: int, p: int)
    ensures (b + k * p) * (d + m * p) == b * d + (b * m + k * d + k * m * p) * p
  {
    var u, v := k * p, m * p;
    assert (b + u) * (d + v) == b * d + b * v + u * d + u * v;
    assert b * v == (b * m) * p && u * d == (k * d) * p && u * v == (k * m * p) * p;
    assert (b * m + k * d + k * m * p) * p == (b * m) * p + (k * d) * p + (k * m * p) * p;
  }

  lemma CongMul(p: nat, a: int, b: int, c: int, d: int)
    requires p > 0 && Cong(p, a, b) && Cong(p, c, d)
    ensures Cong(p, a * c, b * d)
  {
    var k := CongElim(p, a, b);
    var m := CongElim(p, c, d);
    ProductOfShifted(b, k, d, m, p);
    CongIntro(p, a * c, b * d, b * m + k * d + k * m * p);
  }

  lemma {:induction false} CongPow(p: nat, a: int, b: int, n: nat)
    requires p > 0 && Cong(p, a, b)
    ensures Cong(p, Pow(a, n), Pow(b, n))
  {
    if n > 0 {
      CongPow(p, a, b, n - 1);
      CongMul(p, a, b, Pow(a, n - 1), Pow(b, n - 1));
    }
  }

  /** A representative in range is unique. */
  lemma CongUnique(p: nat, a: int, b: int)
    requires p > 0 && Cong(p, a, b) && 0 <= a < p && 0 <= b < p
    ensures a == b
  {
    var k := CongElim(p, a, b);
    MultipleTooSmall(p, k);
  }

  /** The `addmod` and `mulmod` instructions. */
  function AddMod(p: nat, a: nat, b: nat): (r: nat)
    requires p > 0
    ensures r < p && Cong(p, r, a + b)
  {
    CongMod(p, a + b);
    (a + b) % p
  }

  function MulMod(p: nat, a: nat, b: nat): (r: nat)
    requires p > 0
    ensures r < p && Cong(p, r, a * b)
  {
    CongMod(p, a * b);
    (a * b) % p
  }

  // ---------------------------------------------------------------- powers

  lemma {:induction false} PowAdd(a: int, m: nat, n: nat)
    ensures Pow(a, m + n) == Pow(a, m) * Pow(a, n)
  {
    if m > 0 {
      PowAdd(a, m - 1, n);
      assert a * (Pow(a, m - 1) * Pow(a, n)) == a * Pow(a, m - 1) * Pow(a, n);
    }
  }

  lemma {:induction false} PowMul(a: int, m: nat, n: nat)
    ensures Pow(Pow(a, m), n) == Pow(a, m * n)
  {
    if n > 0 {
      PowMul(a, m, n - 1);
      PowAdd(a, m, m * (n - 1));
      assert m * n == m + m * (n - 1);
    }
  }

  lemma Regroup(a: int, b: int, x: int, y: int)
    ensures (a * b) * (x * y) == (a * x) * (b * y)
  {
    assert (a * b) * (x * y) == a * (b * (x * y)) == a * (x * (b * y));
  }

  lemma {:induction false} PowProduct(a: int, b: int, n: nat)
    ensures Pow(a * b, n) == Pow(a, n) * Pow(b, n)
  {
    if n > 0 {
      PowProduct(a, b, n - 1);
      Regroup(a, b, Pow(a, n - 1), Pow(b, n - 1));
    }
  }

  lemma {:induction false} PowOne(n: nat)
    ensures Pow(1, n) == 1
  {
    if n > 0 {
      PowOne(n - 1);
    }
  }

  lemma Square(a: int)
    ensures Pow(a, 2) == a * a
  {
    assert Pow(a, 2) == a * Pow(a, 1) && Pow(a, 1) == a * Pow(a, 0);
  }

  // ---------------------------------------------------------------- primes

  /** Euclid's lemma. */
  lemma {:induction false} Euclid(p: nat, a: int, b: int)
    requires Prime(p) && Cong(p, a * b, 0)
    ensures Cong(p, a, 0) || Cong(p, b, 0)
  {
    CongMod(p, a);
    CongMul(p, a % p, a, b, b);
    EuclidBelow(p, a % p, b);
  }

  lemma {:induction false} EuclidBelow(p: nat, a: nat, b: int)
    requires Prime(p) && a < p && Cong(p, a * b, 0)
    ensures a == 0 || Cong(p, b, 0)
    decreases a
  {
    if a == 1 {
    } else if a > 1 {
      var q, r := p / a, p % a;
      var k := CongElim(p, a * b, 0);
      assert r * b == p * b - q * (a * b) == (b - q * k) * p;
      CongIntro(p, r * b, 0, b - q * k);
      EuclidBelow(p, r, b);
    }
  }

  /** Factors that are not multiples of the prime can be cancelled. */
  lemma Cancel(p: nat, a: int, b: int, c: int)
    requires Prime(p) && !Cong(p, a, 0) && Cong(p, a * b, a * c)
    ensures Cong(p, b, c)
  {
    var k := CongElim(p, a * b, a * c);
    assert a * (b - c) == k * p;
    CongIntro(p, a * (b - c), 0, k);
    Euclid(p, a, b - c);
    var m := CongElim(p, b - c, 0);
    CongIntro(p, b, c, m);
  }

  // ---------------------------------------------------------------- binomials

  function Choose(n: nat, k: nat): nat {
    if k == 0 then 1
    else if n == 0 then 0
    else Choose(n - 1, k - 1) + Choose(n - 1, k)
  }

  lemma {:induction false} ChooseBeyond(n: nat, k: nat)
    requires k > n
    ensures Choose(n, k) == 0
  {
    if n > 0 {
      ChooseBeyond(n - 1, k - 1);
      ChooseBeyond(n - 1, k);
    }
  }

  lemma {:induction false} ChooseAll(n: nat)
    ensures Choose(n, n) == 1 && Choose(n + 1, n) == n + 1
  {
    ChooseBeyond(n, n + 1);
    if n > 0 {
      ChooseAll(n - 1);
    }
  }

  lemma {:induction false} Absorption(n: nat, k: nat)
    requires n > 0 && k > 0
    ensures k * Choose(n, k) == n * Choose(n - 1, k - 1)
  {
    if n == 1 {
      assert Choose(1, k) == Choose(0, k - 1) + Choose(0, k);
    } else if k == 1 {
      Absorption(n - 1, 1);
    } else {
      Absorption(n - 1, k - 1);
      Absorption(n - 1, k);
      AbsorptionStep(n, k, Choose(n - 1, k - 1), Choose(n - 1, k), Choose(n - 2, k - 2), Choose(n - 2, k - 1));
    }
  }

  lemma AbsorptionStep(n: int, k: int, x: int, x': int, y: int, z: int)
    requires x == y + z && (k - 1) * x == (n - 1) * y && k * x' == (n - 1) * z
    ensures k * (x + x') == n * x
  {
    assert k * (x + x') == (k - 1) * x + x + k * x';
    assert (n - 1) * y + (n - 1) * z == (n - 1) * (y + z) == n * x - x;
  }

  /** The first terms of the binomial expansion of `(1 + x)^n`, up to the power `m`. */
  function Expansion(n: nat, m: nat, x: int): int {
    Choose(n, m) * Pow(x, m) + if m == 0 then 0 else Expansion(n, m - 1, x)
  }

  lemma {:induction false} ExpansionStep(n: nat, m: nat, x: int)
    requires m > 0
    ensures Expansion(n + 1, m, x) == Expansion(n, m, x) + x * Expansion(n, m - 1, x)
  {
    var c, d, y := Choose(n, m - 1), Choose(n, m), Pow(x, m - 1);
    TermSplits(c, d, x, y);
    if m > 1 {
      ExpansionStep(n, m - 1, x);
      Distributes(x, c * y, Expansion(n, m - 2, x));
    }
  }

  lemma TermSplits(c: int, d: int, x: int, y: int)
    ensures (c + d) * (x * y) == x * (c * y) + d * (x * y)
  {
  }

  lemma {:induction false} BinomialTheorem(n: nat, x: int)
    ensures Expansion(n, n, x) == Pow(1 + x, n)
  {
    if n > 0 {
      BinomialTheorem(n - 1, x);
      ExpansionStep(n - 1, n, x);
      ChooseBeyond(n - 1, n);
      var e := Expansion(n - 1, n - 1, x);
      assert e + x * e == (1 + x) * e;
    }
  }

  // ---------------------------------------------------------------- Fermat

  lemma ChoosePrime(p: nat, k: nat)
    requires Prime(p) && 0 < k < p
    ensures Cong(p, Choose(p, k), 0)
  {
    hide Choose;
    Absorption(p, k);
    CongIntro(p, k * Choose(p, k), 0, Choose(p - 1, k - 1));
    Euclid(p, k, Choose(p, k));
    if Cong(p, k, 0) {
      CongUnique(p, k, 0);
    }
  }

  lemma {:induction false} ExpansionPrime(p: nat, m: nat, x: int)
    requires Prime(p) && m < p
    ensures Cong(p, Expansion(p, m, x), 1)
  {
    if m > 0 {
      ExpansionPrime(p, m - 1, x);
      ChoosePrime(p, m);
      CongMul(p, Choose(p, m), 0, Pow(x, m), Pow(x, m));
      CongAdd(p, Choose(p, m) * Pow(x, m), 0, Expansion(p, m - 1, x), 1);
    }
  }

  lemma {:induction false} FermatForNat(p: nat, a: nat)
    requires Prime(p)
    ensures Cong(p, Pow(a, p), a)
  {
    if a > 0 {
      FermatForNat(p, a - 1);
      BinomialTheorem(p, a - 1);
      ExpansionPrime(p, p - 1, a - 1);
      ChooseAll(p);
      CongAdd(p, Pow(a - 1, p), a - 1, Expansion(p, p - 1, a - 1), 1);
    }
  }

  /** Fermat's little theorem. */
  lemma Fermat(p: nat, a: int)
    requires Prime(p) && !Cong(p, a, 0)
    ensures Cong(p, Pow(a, p - 1), 1)
  {
    var r := a % p;
    CongMod(p, a);
    FermatForNat(p, r);
    assert Pow(r, p) == r * Pow(r, p - 1);
    Cancel(p, r, Pow(r, p - 1), 1);
    CongPow(p, r, a, p - 1);
  }

  /** A square root of one is one or minus one. */
  lemma RootsOfOne(p: nat, x: int)
    requires Prime(p) && Cong(p, x * x, 1)
    ensures Cong(p, x, 1) || Cong(p, x, -1)
  {
    var k := CongElim(p, x * x, 1);
    assert (x - 1) * (x + 1) == k * p;
    CongIntro(p, (x - 1) * (x + 1), 0, k);
    Euclid(p, x - 1, x + 1);
    if Cong(p, x - 1, 0) {
      CongAdd(p, x - 1, 0, 1, 1);
    } else {
      CongAdd(p, x + 1, 0, -1, -1);
    }
  }

  // ---------------------------------------------------------------- non-residues

  /** `0^k + 1^k + ... + (n-1)^k`. */
  function PowerSum(k: nat, n: nat): int {
    if n == 0 then 0 else PowerSum(k, n - 1) + Pow(n - 1, k)
  }

  /** The power sums up to exponent `m`, weighted like the binomial expansion. */
  function WeightedSums(k: nat, m: nat, n: nat): int {
    Choose(k, m) * PowerSum(m, n) + if m == 0 then 0 else WeightedSums(k, m - 1, n)
  }

  lemma {:induction false} WeightedSumsStep(k: nat, m: nat, n: nat)
    ensures WeightedSums(k, m, 0) == 0
    ensures WeightedSums(k, m, n + 1) == WeightedSums(k, m, n) + Expansion(k, m, n)
  {
    if m > 0 {
      WeightedSumsStep(k, m - 1, n);
    }
    Distributes(Choose(k, m), PowerSum(m, n), Pow(n, m));
  }

  lemma Distributes(c: int, s: int, x: int)
    ensures c * (s + x) == c * s + c * x
  {
  }

  /** The telescoped powers: `n^(k+1)` is a combination of the power sums up to `k`. */
  lemma {:induction false} Telescope(k: nat, n: nat)
    ensures Pow(n, k + 1) == WeightedSums(k + 1, k, n)
  {
    if n == 0 {
      WeightedSumsStep(k + 1, k, 0);
    } else {
      Telescope(k, n - 1);
      WeightedSumsStep(k + 1, k, n - 1);
      BinomialTheorem(k + 1, n - 1);
      ChooseAll(k + 1);
    }
  }

  /** Below `p - 1` every power sum over a full residue system vanishes. */
  lemma {:induction false} PowerSumVanishes(p: nat, k: nat)
    requires Prime(p) && k < p - 1
    ensures Cong(p, PowerSum(k, p), 0)
    decreases k, k
  {
    Telescope(k, p);
    CongIntro(p, Pow(p, k + 1), 0, Pow(p, k));
    ChooseAll(k);
    if k > 0 {
      WeightedSumsVanish(p, k, k - 1);
      CongAdd(p, WeightedSums(k + 1, k, p), 0, WeightedSums(k + 1, k - 1, p), 0);
    }
    Euclid(p, k + 1, PowerSum(k, p));
    if Cong(p, k + 1, 0) {
      CongUnique(p, k + 1, 0);
    }
  }

  lemma {:induction false} WeightedSumsVanish(p: nat, k: nat, m: nat)
    requires Prime(p) && m < k < p - 1
    ensures Cong(p, WeightedSums(k + 1, m, p), 0)
    decreases k, m
  {
    PowerSumVanishes(p, m);
    CongMul(p, Choose(k + 1, m), Choose(k + 1, m), PowerSum(m, p), 0);
    if m > 0 {
      WeightedSumsVanish(p, k, m - 1);
      CongAdd(p, Choose(k + 1, m) * PowerSum(m, p), 0, WeightedSums(k + 1, m - 1, p), 0);
    }
  }

  lemma {:induction false} AllOnes(p: nat, k: nat, n: nat)
    requires p > 0 && k > 0 && n > 0 && forall x :: 1 <= x < n ==> Cong(p, Pow(x, k), 1)
    ensures Cong(p, PowerSum(k, n), n - 1)
  {
    if n == 1 {
      assert PowerSum(k, 1) == PowerSum(k, 0) + Pow(0, k);
    } else {
      AllOnes(p, k, n - 1);
      CongAdd(p, PowerSum(k, n - 1), n - 2, Pow(n - 1, k), 1);
    }
  }

  /** Every odd prime has a quadratic non-residue, by Euler's criterion. */
  lemma NonResidueExists(p: nat) returns (x: nat)
    requires Prime(p) && p > 2
    ensures 2 <= x < p && !Cong(p, Pow(x, (p - 1) / 2), 1)
  {
    var k := (p - 1) / 2;
    if forall y :: 1 <= y < p ==> Cong(p, Pow(y, k), 1) {
      AllOnes(p, k, p);
      PowerSumVanishes(p, k);
      CongUnique(p, p - 1, 0);
    }
    x :| 1 <= x < p && !Cong(p, Pow(x, k), 1);
    PowOne(k);
  }

  /** Euler's criterion takes only the values one and minus one. */
  lemma EulerIsSign(p: nat, x: int)
    requires Prime(p) && p > 2 && !Cong(p, x, 0)
    ensures p % 2 == 1
    ensures var e := Pow(x, (p - 1) / 2); Cong(p, e * e, 1) && (Cong(p, e, 1) || Cong(p, e, -1))
  {
    assert p % 2 != 0;
    var h := (p - 1) / 2;
    PowAdd(x, h, h);
    Fermat(p, x);
    RootsOfOne(p, Pow(x, h));
  }
}
