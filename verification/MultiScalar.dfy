/** Scalar and multi-scalar multiplication of `Grumpkin.sol` over an arbitrary abelian group:
    double-and-add from the top bit, the naive sum of multiples, and the bucket method. */
module MultiScalar {
  import opened NumberTheory
  import opened Powers
  import opened Wrappers

  // ---------------------------------------------------------------- the group

  datatype Group<!P> = Group(add: (P, P) -> P, double: P -> P, identity: P)

  ghost predicate AssocAt<P>(g: Group<P>, a: P, b: P, c: P) {
    g.add(g.add(a, b), c) == g.add(a, g.add(b, c))
  }

  ghost predicate CommutesAt<P>(g: Group<P>, a: P, b: P) {
    g.add(a, b) == g.add(b, a)
  }

  ghost predicate UnitAt<P>(g: Group<P>, a: P) {
    g.add(a, g.identity) == a && g.double(a) == g.add(a, a)
  }

  ghost predicate Abelian<P(!new)>(g: Group<P>) {
    && (forall a, b, c :: AssocAt(g, a, b, c))
    && (forall a, b :: CommutesAt(g, a, b))
    && (forall a :: UnitAt(g, a))
  }

  lemma Assoc<P(!new)>(g: Group<P>, a: P, b: P, c: P)
    requires Abelian(g)
    ensures g.add(g.add(a, b), c) == g.add(a, g.add(b, c))
  {
    assert AssocAt(g, a, b, c);
  }

  lemma Commutes<P(!new)>(g: Group<P>, a: P, b: P)
    requires Abelian(g)
    ensures g.add(a, b) == g.add(b, a)
  {
    assert CommutesAt(g, a, b);
  }

  lemma Unit<P(!new)>(g: Group<P>, a: P)
    requires Abelian(g)
    ensures g.add(a, g.identity) == a && g.add(g.identity, a) == a && g.double(a) == g.add(a, a)
  {
    assert UnitAt(g, a) && CommutesAt(g, a, g.identity);
  }

  lemma Swap<P(!new)>(g: Group<P>, a: P, b: P, c: P, d: P)
    requires Abelian(g)
    ensures g.add(g.add(a, b), g.add(c, d)) == g.add(g.add(a, c), g.add(b, d))
  {
    hide Abelian;
    Assoc(g, a, b, g.add(c, d));
    Assoc(g, b, c, d);
    Commutes(g, b, c);
    Assoc(g, c, b, d);
    Assoc(g, a, c, g.add(b, d));
  }

  // ---------------------------------------------------------------- multiples

  function Times<P>(g: Group<P>, n: nat, p: P): P {
    if n == 0 then g.identity else g.add(Times(g, n - 1, p), p)
  }

  lemma TimesOne<P(!new)>(g: Group<P>, p: P)
    requires Abelian(g)
    ensures Times(g, 1, p) == p
  {
    Unit(g, p);
  }

  lemma {:induction false} TimesSum<P(!new)>(g: Group<P>, m: nat, n: nat, p: P)
    requires Abelian(g)
    ensures Times(g, m + n, p) == g.add(Times(g, m, p), Times(g, n, p))
  {
    hide Abelian;
    if n == 0 {
      Unit(g, Times(g, m, p));
    } else {
      TimesSum(g, m, n - 1, p);
      Assoc(g, Times(g, m, p), Times(g, n - 1, p), p);
    }
  }

  lemma TimesDouble<P(!new)>(g: Group<P>, n: nat, p: P)
    requires Abelian(g)
    ensures g.double(Times(g, n, p)) == Times(g, 2 * n, p)
  {
    hide Abelian;
    TimesSum(g, n, n, p);
    Unit(g, Times(g, n, p));
  }

  lemma {:induction false} TimesIdentity<P(!new)>(g: Group<P>, n: nat)
    requires Abelian(g)
    ensures Times(g, n, g.identity) == g.identity
  {
    hide Abelian;
    if n > 0 {
      TimesIdentity(g, n - 1);
      Unit(g, g.identity);
    }
  }

  lemma {:induction false} TimesOfSum<P(!new)>(g: Group<P>, n: nat, p: P, q: P)
    requires Abelian(g)
    ensures Times(g, n, g.add(p, q)) == g.add(Times(g, n, p), Times(g, n, q))
  {
    hide Abelian;
    if n == 0 {
      Unit(g, g.identity);
    } else {
      TimesOfSum(g, n - 1, p, q);
      Swap(g, Times(g, n - 1, p), Times(g, n - 1, q), p, q);
    }
  }

  lemma {:induction false} TimesTimes<P(!new)>(g: Group<P>, m: nat, n: nat, p: P)
    requires Abelian(g)
    ensures Times(g, m, Times(g, n, p)) == Times(g, m * n, p)
  {
    hide Abelian;
    if m > 0 {
      TimesTimes(g, m - 1, n, p);
      TimesSum(g, (m - 1) * n, n, p);
      assert (m - 1) * n + n == m * n;
    }
  }

  // ---------------------------------------------------------------- double-and-add

  /** The bits of `s` from position `e` up. */
  function Shift(s: nat, e: nat): nat {
    QuotientIsNat(s, Exp2(e));
    s / Exp2(e)
  }

  /** The bit that `scalarMul` looks at: bit `7 - b` of byte `i` of the big-endian scalar. */
  function BitAt(s: nat, bytes: nat, i: nat, b: nat): nat
    requires i < bytes && b < 8
  {
    Shift(Shift(s, 8 * (bytes - 1 - i)) % 256, 7 - b) % 2
  }

  /** Quotient and remainder are unique. */
  lemma DivSpec(s: nat, d: nat, q: nat, r: nat)
    requires d > 0 && s == d * q + r && r < d
    ensures s / d == q && s % d == r
  {
    var q', r' := s / d, s % d;
    assert (q - q') * d == d * q - d * q';
    MultipleTooSmall(d, q - q');
  }

  /** Shifting twice is shifting by the sum. */
  lemma ShiftShift(s: nat, a: nat, b: nat)
    ensures Shift(Shift(s, a), b) == Shift(s, a + b)
  {
    hide Exp2;
    Exp2Sum(a, b);
    DivDiv(s, Exp2(a), Exp2(b));
  }

  lemma DivDiv(s: nat, a: nat, b: nat)
    requires a > 0 && b > 0
    ensures a * b > 0 && (s / a) / b == s / (a * b)
  {
    DivParts(s, a);
    DivParts(s / a, b);
    NestedDiv(s, a, b, s / a, s % a, s / a / b, s / a % b);
  }

  lemma DivParts(s: nat, d: nat)
    requires d > 0
    ensures s == d * (s / d) + s % d && 0 <= s / d && 0 <= s % d < d
  {
  }

  lemma NestedDiv(s: nat, a: nat, b: nat, q: nat, r: nat, q': nat, r': nat)
    requires s == a * q + r && r < a && q == b * q' + r' && r' < b
    ensures a * b > 0 && q' == s / (a * b)
  {
    NestedRemainder(a, b, r', r);
    NestedQuotient(a, b, q', r', r);
    DivSpec(s, a * b, q', a * r' + r);
  }

  lemma NestedQuotient(a: nat, b: nat, q: nat, m: nat, r: nat)
    ensures a * (b * q + m) + r == (a * b) * q + (a * m + r)
  {
    assert a * (b * q + m) == a * (b * q) + a * m;
  }

  lemma NestedRemainder(a: nat, b: nat, m: nat, r: nat)
    requires m < b && r < a
    ensures 0 <= a * m + r < a * b
  {
    var rest := b - 1 - m;
    assert a * b == a * (m + 1 + rest) == a * m + a + a * rest;
    assert a * rest >= 0 && a * m >= 0;
  }

  /** The remainder modulo `2^n` keeps the lower bits. */
  lemma LowBits(x: nat, n: nat, j: nat)
    requires j < n
    ensures Shift(x % Exp2(n), j) % 2 == Shift(x, j) % 2
  {
    Exp2Sum(j, n - j);
    HalfOfPower(n - j);
    hide Exp2;
    TwiceInside(Exp2(j), Exp2(n - j - 1), Exp2(n - j));
    LowRemainder(x, Exp2(n), Exp2(j), Exp2(n - j - 1));
  }

  lemma TwiceInside(d: nat, h: nat, t: nat)
    requires t == 2 * h
    ensures d * t == d * (2 * h)
  {
  }

  lemma LowRemainder(x: nat, m: nat, d: nat, h: nat)
    requires d > 0 && m > 0 && m == d * (2 * h)
    ensures ((x % m) / d) % 2 == (x / d) % 2
  {
    LowQuotient(x, d, h, x / m, x % m);
  }

  lemma LowQuotient(x: nat, d: nat, h: nat, q: nat, r: nat)
    requires d > 0 && x == (d * (2 * h)) * q + r
    ensures (r / d) % 2 == (x / d) % 2
  {
    var t, u := r / d, r % d;
    Regrouped(d, h, q, t, u);
    Nonnegative(h, q);
    DivSpec(x, d, 2 * (h * q) + t, u);
    EvenShift(h * q, t);
  }

  lemma Regrouped(d: nat, h: nat, q: nat, t: nat, u: nat)
    ensures (d * (2 * h)) * q + (d * t + u) == d * (2 * (h * q) + t) + u
  {
    assert (d * (2 * h)) * q == d * ((2 * h) * q) && (2 * h) * q == 2 * (h * q);
  }

  lemma EvenShift(k: nat, t: nat)
    ensures (2 * k + t) % 2 == t % 2
  {
  }

  lemma HalfOfPower(n: nat)
    requires n > 0
    ensures Exp2(n) == 2 * Exp2(n - 1)
  {
  }

  /** The bit read in place (`i`, `b`) is the bit at its position in the whole word. */
  lemma BitAtPosition(s: nat, bytes: nat, i: nat, b: nat)
    requires i < bytes && b < 8
    ensures BitAt(s, bytes, i, b) == Shift(s, 8 * (bytes - 1 - i) + (7 - b)) % 2
  {
    var a := 8 * (bytes - 1 - i);
    assert Exp2(8) == 256;
    hide Exp2;
    LowBits(Shift(s, a), 8, 7 - b);
    hide Shift;
    ShiftShift(s, a, 7 - b);
  }

  /** Appending one more bit. */
  lemma NextBit(s: nat, e: nat)
    ensures Shift(s, e) == 2 * Shift(s, e + 1) + Shift(s, e) % 2
  {
    hide Exp2;
    ShiftShift(s, e, 1);
    HalfOfPower(1);
    assert Exp2(0) == 1 by { Exp2Zero(); }
  }

  lemma Exp2Zero()
    ensures Exp2(0) == 1
  {
  }

  /** `scalarMul` on words of the given number of bytes (32 in the contract). */
  method ScalarMul<P(!new)>(g: Group<P>, point: P, scalar: nat, bytes: nat) returns (acc: P)
    requires Abelian(g) && scalar < Exp2(8 * bytes)
    ensures acc == Times(g, scalar, point)
  {
    hide Abelian, Shift, BitAt, Times;
    acc := g.identity;
    ShiftAll(scalar, 8 * bytes);
    TimesZero(g, point);
    for byteIndex := 0 to bytes
      invariant acc == Times(g, Shift(scalar, 8 * (bytes - byteIndex)), point)
    {
      for bitIndex := 0 to 8
        invariant acc == Times(g, Shift(scalar, 8 * (bytes - byteIndex) - bitIndex), point)
      {
        ghost var e := 8 * (bytes - 1 - byteIndex) + (7 - bitIndex);
        BitAtPosition(scalar, bytes, byteIndex, bitIndex);
        NextBit(scalar, e);
        TimesDouble(g, Shift(scalar, e + 1), point);
        acc := g.double(acc);
        if BitAt(scalar, bytes, byteIndex, bitIndex) == 1 {
          TimesNext(g, 2 * Shift(scalar, e + 1), point);
          acc := g.add(acc, point);
        }
      }
    }
    ShiftNone(scalar);
  }

  lemma TimesZero<P(!new)>(g: Group<P>, p: P)
    ensures Times(g, 0, p) == g.identity
  {
  }

  lemma TimesNext<P(!new)>(g: Group<P>, n: nat, p: P)
    ensures Times(g, n + 1, p) == g.add(Times(g, n, p), p)
  {
  }

  lemma ShiftAll(s: nat, e: nat)
    requires s < Exp2(e)
    ensures Shift(s, e) == 0
  {
  }

  lemma ShiftNone(s: nat)
    ensures Shift(s, 0) == s
  {
  }

  // ---------------------------------------------------------------- the naive sum

  /** The sum of the multiples: what a multi-scalar multiplication is. */
  function Combination<P>(g: Group<P>, ks: seq<nat>, ps: seq<P>): P
    requires |ks| == |ps|
  {
    if ks == [] then g.identity
    else g.add(Combination(g, ks[..|ks| - 1], ps[..|ps| - 1]), Times(g, ks[|ks| - 1], ps[|ps| - 1]))
  }

  ghost predicate Words(scalars: seq<nat>, bits: nat) {
    forall i :: 0 <= i < |scalars| ==> scalars[i] < Exp2(bits)
  }

  lemma CombinationNext<P(!new)>(g: Group<P>, ks: seq<nat>, ps: seq<P>, i: nat)
    requires i < |ks| == |ps|
    ensures Combination(g, ks[..i + 1], ps[..i + 1]) == g.add(Combination(g, ks[..i], ps[..i]), Times(g, ks[i], ps[i]))
  {
    assert ks[..i + 1][..i] == ks[..i] && ps[..i + 1][..i] == ps[..i];
  }

  /** `multiScalarMul`; `None` is a revert: different lengths, or no bases at all. */
  method MultiScalarMul<P(!new)>(g: Group<P>, bases: seq<P>, scalars: seq<nat>, bytes: nat) returns (r: Option<P>)
    requires Abelian(g) && Words(scalars, 8 * bytes)
    ensures r.None? <==> |scalars| != |bases| || bases == []
    ensures r.Some? ==> r.value == Combination(g, scalars, bases)
  {
    hide Abelian, Times, Combination;
    if |scalars| != |bases| || |bases| == 0 {
      return None;
    }
    var acc := ScalarMul(g, bases[0], scalars[0], bytes);
    CombinationNext(g, scalars, bases, 0);
    CombinationEmpty(g, scalars[..0], bases[..0]);
    Unit(g, acc);
    for i := 1 to |scalars|
      invariant acc == Combination(g, scalars[..i], bases[..i])
    {
      var term := ScalarMul(g, bases[i], scalars[i], bytes);
      CombinationNext(g, scalars, bases, i);
      acc := g.add(acc, term);
    }
    assert scalars[..|scalars|] == scalars && bases[..|scalars|] == bases;
    return Some(acc);
  }

  lemma CombinationEmpty<P(!new)>(g: Group<P>, ks: seq<nat>, ps: seq<P>)
    requires ks == [] && ps == []
    ensures Combination(g, ks, ps) == g.identity
  {
  }

  // ---------------------------------------------------------------- digits

  /** `getAt`: the digit of a scalar at a segment of `c` bits, which is what the bits from the
      segment up have in addition to those from the next segment up. */
  function GetAt(segment: nat, c: nat, scalar: nat, bits: nat): (digit: nat)
    ensures digit < Exp2(c)
    ensures scalar < Exp2(bits) ==>
      Shift(scalar, segment * c) == Exp2(c) * Shift(scalar, (segment + 1) * c) + digit
  {
    NextSegment(segment, c);
    DigitSplitsAt(segment * c, c, scalar, bits);
    if segment * c >= bits then 0 else Shift(scalar, segment * c) % Exp2(c)
  }

  lemma Nonnegative(a: nat, b: nat)
    ensures a * b >= 0
  {
  }

  lemma NextSegment(segment: nat, c: nat)
    ensures (segment + 1) * c == segment * c + c && segment * c >= 0
  {
  }

  lemma DigitSplitsAt(e: nat, c: nat, scalar: nat, bits: nat)
    ensures scalar < Exp2(bits) ==>
      Shift(scalar, e) == Exp2(c) * Shift(scalar, e + c) + if e >= bits then 0 else Shift(scalar, e) % Exp2(c)
  {
    hide Exp2, Shift;
    if e < bits {
      ShiftShift(scalar, e, c);
      ShiftSplits(Shift(scalar, e), c);
    } else if scalar < Exp2(bits) {
      Exp2Monotone(bits, e);
      Exp2Monotone(bits, e + c);
      ShiftAll(scalar, e);
      ShiftAll(scalar, e + c);
    }
  }

  lemma DigitOf(segment: nat, c: nat, scalar: nat, bits: nat)
    requires scalar < Exp2(bits)
    ensures Shift(scalar, segment * c) == Exp2(c) * Shift(scalar, (segment + 1) * c) + GetAt(segment, c, scalar, bits)
  {
    hide *;
  }

  lemma ShiftSplits(s: nat, c: nat)
    ensures s == Exp2(c) * Shift(s, c) + s % Exp2(c)
  {
    hide Exp2;
  }

  /** Every scalar shifted down to the given segment. */
  function Prefixes(scalars: seq<nat>, e: nat): (ks: seq<nat>)
    ensures |ks| == |scalars|
  {
    seq(|scalars|, i requires 0 <= i < |scalars| => Shift(scalars[i], e))
  }

  function Digits(scalars: seq<nat>, segment: nat, c: nat, bits: nat): (ds: seq<nat>)
    ensures |ds| == |scalars|
  {
    seq(|scalars|, i requires 0 <= i < |scalars| => GetAt(segment, c, scalars[i], bits))
  }

  /** Combining is linear in the scalars. */
  lemma {:induction false} CombinationLinear<P(!new)>(g: Group<P>, m: nat, ks: seq<nat>, ds: seq<nat>, sum: seq<nat>,
      ps: seq<P>)
    requires Abelian(g) && |ks| == |ds| == |sum| == |ps|
    requires forall i :: 0 <= i < |ks| ==> sum[i] == m * ks[i] + ds[i]
    ensures Combination(g, sum, ps) == g.add(Times(g, m, Combination(g, ks, ps)), Combination(g, ds, ps))
  {
    hide Abelian, Times;
    if ks == [] {
      TimesIdentity(g, m);
      Unit(g, g.identity);
    } else {
      var n := |ks| - 1;
      var p, rest, low := ps[n], Combination(g, ks[..n], ps[..n]), Combination(g, ds[..n], ps[..n]);
      CombinationLinear(g, m, ks[..n], ds[..n], sum[..n], ps[..n]);
      TimesSum(g, m * ks[n], ds[n], p);
      TimesTimes(g, m, ks[n], p);
      TimesOfSum(g, m, rest, Times(g, ks[n], p));
      Swap(g, Times(g, m, rest), low, Times(g, m * ks[n], p), Times(g, ds[n], p));
    }
  }

  /** Moving down one segment: shift by the window, add the digits. */
  lemma SegmentStep<P(!new)>(g: Group<P>, scalars: seq<nat>, bases: seq<P>, segment: nat, c: nat, bits: nat)
    requires Abelian(g) && |scalars| == |bases| && Words(scalars, bits)
    ensures Combination(g, Prefixes(scalars, segment * c), bases)
         == g.add(Times(g, Exp2(c), Combination(g, Prefixes(scalars, (segment + 1) * c), bases)),
                  Combination(g, Digits(scalars, segment, c, bits), bases))
  {
    hide Abelian, Shift, GetAt, Exp2;
    var ks, ds, sum := Prefixes(scalars, (segment + 1) * c), Digits(scalars, segment, c, bits), Prefixes(scalars,
        segment * c);
    forall i | 0 <= i < |scalars| ensures sum[i] == Exp2(c) * ks[i] + ds[i] {
      DigitOf(segment, c, scalars[i], bits);
    }
    CombinationLinear(g, Exp2(c), ks, ds, sum, bases);
  }

  // ---------------------------------------------------------------- buckets

  function Sum<P>(g: Group<P>, bs: seq<P>): P {
    if bs == [] then g.identity else g.add(bs[0], Sum(g, bs[1..]))
  }

  /** The buckets with weights counting up from `w`. */
  function Weighted<P>(g: Group<P>, bs: seq<P>, w: nat): P {
    if bs == [] then g.identity else g.add(Times(g, w, bs[0]), Weighted(g, bs[1..], w + 1))
  }

  lemma {:induction false} WeightedEmpty<P(!new)>(g: Group<P>, bs: seq<P>, w: nat)
    requires Abelian(g) && forall i :: 0 <= i < |bs| ==> bs[i] == g.identity
    ensures Weighted(g, bs, w) == g.identity
  {
    hide Abelian, Times;
    if bs != [] {
      WeightedEmpty(g, bs[1..], w + 1);
      TimesIdentity(g, w);
      Unit(g, g.identity);
    }
  }

  /** Raising every weight by one adds the plain sum of the buckets. */
  lemma {:induction false} RaiseWeights<P(!new)>(g: Group<P>, bs: seq<P>, w: nat)
    requires Abelian(g)
    ensures Weighted(g, bs, w + 1) == g.add(Weighted(g, bs, w), Sum(g, bs))
  {
    hide Abelian, Times;
    if bs == [] {
      Unit(g, g.identity);
    } else {
      RaiseWeights(g, bs[1..], w + 1);
      TimesNext(g, w, bs[0]);
      Swap(g, Times(g, w, bs[0]), bs[0], Weighted(g, bs[1..], w + 1), Sum(g, bs[1..]));
    }
  }

  /** The running-sum step: one more bucket in front raises every weight behind it. */
  lemma RunningSum<P(!new)>(g: Group<P>, bs: seq<P>)
    requires Abelian(g) && bs != []
    ensures Weighted(g, bs, 1) == g.add(Weighted(g, bs[1..], 1), Sum(g, bs))
  {
    hide Abelian, Times;
    var b, w, s := bs[0], Weighted(g, bs[1..], 1), Sum(g, bs[1..]);
    RaiseWeights(g, bs[1..], 1);
    TimesOne(g, b);
    Assoc(g, b, w, s);
    Commutes(g, b, w);
    Assoc(g, w, b, s);
  }

  /** Adding a point to the bucket of weight `w + j` adds that multiple of it to the sum. */
  lemma {:induction false} AddToBucket<P(!new)>(g: Group<P>, bs: seq<P>, w: nat, j: nat, p: P)
    requires Abelian(g) && j < |bs|
    ensures Weighted(g, bs[j := g.add(bs[j], p)], w) == g.add(Weighted(g, bs, w), Times(g, w + j, p))
  {
    hide Abelian, Times;
    var rest := Weighted(g, bs[1..], w + 1);
    var bs' := bs[j := g.add(bs[j], p)];
    if j == 0 {
      assert bs'[1..] == bs[1..];
      TimesOfSum(g, w, bs[0], p);
      Assoc(g, Times(g, w, bs[0]), Times(g, w, p), rest);
      Commutes(g, Times(g, w, p), rest);
      Assoc(g, Times(g, w, bs[0]), rest, Times(g, w, p));
    } else {
      AddToBucket(g, bs[1..], w + 1, j - 1, p);
      assert bs'[1..] == bs[1..][j - 1 := g.add(bs[1..][j - 1], p)];
      Assoc(g, Times(g, w, bs[0]), rest, Times(g, w + j, p));
    }
  }

  /** Sorting the bases into buckets by their digits. */
  method FillBuckets<P(!new)>(g: Group<P>, bases: seq<P>, scalars: seq<nat>, segment: nat, c: nat, bits: nat,
      buckets: array<P>)
    requires Abelian(g) && |scalars| == |bases| && buckets.Length == Exp2(c) - 1
    modifies buckets
    ensures Weighted(g, buckets[..], 1) == Combination(g, Digits(scalars, segment, c, bits), bases)
  {
    hide Abelian, Times, Combination, Weighted, GetAt, Exp2;
    for i := 0 to buckets.Length
      invariant forall k :: 0 <= k < i ==> buckets[k] == g.identity
    {
      buckets[i] := g.identity;
    }
    WeightedEmpty(g, buckets[..], 1);
    ghost var ds := Digits(scalars, segment, c, bits);
    CombinationEmpty(g, ds[..0], bases[..0]);
    for i := 0 to |bases|
      invariant Weighted(g, buckets[..], 1) == Combination(g, ds[..i], bases[..i])
    {
      var limb := GetAt(segment, c, scalars[i], bits);
      CombinationNext(g, ds, bases, i);
      if limb != 0 {
        AddToBucket(g, buckets[..], 1, limb - 1, bases[i]);
        ghost var before := buckets[..];
        buckets[limb - 1] := g.add(buckets[limb - 1], bases[i]);
        assert buckets[..] == before[limb - 1 := g.add(before[limb - 1], bases[i])];
      } else {
        TimesZero(g, bases[i]);
        Unit(g, Weighted(g, buckets[..], 1));
      }
    }
    assert ds[..|bases|] == ds && bases[..|bases|] == bases;
  }

  /** The running sum over the buckets, from the heaviest down. */
  method AddBuckets<P(!new)>(g: Group<P>, start: P, buckets: array<P>) returns (res: P)
    requires Abelian(g)
    ensures res == g.add(start, Weighted(g, buckets[..], 1))
  {
    hide Abelian, Times, Weighted, Sum;
    res := start;
    var runningSum := g.identity;
    var i := buckets.Length;
    NoBuckets(g, buckets[i..]);
    Unit(g, start);
    while i > 0
      invariant 0 <= i <= buckets.Length
      invariant runningSum == Sum(g, buckets[i..])
      invariant res == g.add(start, Weighted(g, buckets[i..], 1))
    {
      ghost var bs := buckets[i - 1..];
      assert bs[1..] == buckets[i..];
      SumNext(g, bs);
      RunningSum(g, bs);
      Assoc(g, start, Weighted(g, bs[1..], 1), Sum(g, bs));
      runningSum := g.add(buckets[i - 1], runningSum);
      res := g.add(res, runningSum);
      i := i - 1;
    }
    assert buckets[0..] == buckets[..];
  }

  lemma NoBuckets<P(!new)>(g: Group<P>, bs: seq<P>)
    requires bs == []
    ensures Sum(g, bs) == Weighted(g, bs, 1) == g.identity
  {
  }

  lemma SumNext<P(!new)>(g: Group<P>, bs: seq<P>)
    requires bs != []
    ensures Sum(g, bs) == g.add(bs[0], Sum(g, bs[1..]))
  {
  }

  /** Doubling `c` times. */
  method DoubleTimes<P(!new)>(g: Group<P>, p: P, c: nat) returns (res: P)
    requires Abelian(g)
    ensures res == Times(g, Exp2(c), p)
  {
    hide Abelian, Times, Exp2;
    res := p;
    Exp2Zero();
    TimesOne(g, p);
    for i := 0 to c
      invariant res == Times(g, Exp2(i), p)
    {
      TimesDouble(g, Exp2(i), p);
      HalfOfPower(i + 1);
      res := g.double(res);
    }
  }

  /** The window that `multiScalarMulSerial` chooses. */
  function WindowFor(n: nat, log2: nat -> nat): nat {
    if n < 4 then 1 else if n < 32 then 3 else log2(n)
  }

  /** `multiScalarMulSerial`, the bucket method, for any window of at least one bit; `None` is
      the revert on different lengths. */
  method MultiScalarMulSerial<P(0,!new)>(g: Group<P>, bases: seq<P>, scalars: seq<nat>, bits: nat, log2: nat -> nat)
      returns (r: Option<P>)
    requires Abelian(g) && Words(scalars, bits)
    requires |bases| >= 32 ==> log2(|bases|) >= 1
    ensures r.None? <==> |scalars| != |bases|
    ensures r.Some? ==> r.value == Combination(g, scalars, bases)
  {
    hide Abelian, Times, Combination, Weighted, Prefixes, Digits, Exp2, Words;
    if |scalars| != |bases| {
      return None;
    }
    var c := WindowFor(|bases|, log2);
    var buckets := new P[Exp2(c) - 1];
    var res := g.identity;
    var segments := bits / c + 1;
    NothingAbove(g, scalars, bases, c, bits);
    var segment := segments;
    while segment > 0
      invariant 0 <= segment <= segments
      invariant res == Combination(g, Prefixes(scalars, segment * c), bases)
    {
      SegmentStep(g, scalars, bases, segment - 1, c, bits);
      res := DoubleTimes(g, res, c);
      FillBuckets(g, bases, scalars, segment - 1, c, bits, buckets);
      res := AddBuckets(g, res, buckets);
      segment := segment - 1;
    }
    AllBits(scalars);
    return Some(res);
  }

  /** Above the top segment every scalar is zero. */
  lemma NothingAbove<P(!new)>(g: Group<P>, scalars: seq<nat>, bases: seq<P>, c: nat, bits: nat)
    requires Abelian(g) && |scalars| == |bases| && Words(scalars, bits) && c >= 1
    ensures Combination(g, Prefixes(scalars, (bits / c + 1) * c), bases) == g.identity
  {
    hide Abelian, Shift, Combination, Exp2;
    var e := (bits / c + 1) * c;
    assert e >= bits by {
      assert bits == c * (bits / c) + bits % c;
      assert (bits / c + 1) * c == c * (bits / c) + c;
    }
    var ks := Prefixes(scalars, e);
    forall i | 0 <= i < |ks| ensures ks[i] == 0 {
      Exp2Monotone(bits, e);
      ShiftAll(scalars[i], e);
    }
    CombinationOfZeros(g, ks, bases);
  }

  lemma {:induction false} CombinationOfZeros<P(!new)>(g: Group<P>, ks: seq<nat>, ps: seq<P>)
    requires Abelian(g) && |ks| == |ps| && forall i :: 0 <= i < |ks| ==> ks[i] == 0
    ensures Combination(g, ks, ps) == g.identity
  {
    hide Abelian;
    if ks != [] {
      CombinationOfZeros(g, ks[..|ks| - 1], ps[..|ps| - 1]);
      Unit(g, g.identity);
    }
  }

  lemma AllBits(scalars: seq<nat>)
    ensures Prefixes(scalars, 0) == scalars
  {
  }

  /** The bucket method returns exactly what the naive multi-scalar multiplication returns, on
      every input on which the latter does not revert. */
  method BucketsAgreeWithNaive<P(0,!new)>(g: Group<P>, bases: seq<P>, scalars: seq<nat>, bytes: nat, log2: nat -> nat)
      returns (naive: Option<P>, serial: Option<P>)
    requires Abelian(g) && Words(scalars, 8 * bytes)
    requires |bases| >= 32 ==> log2(|bases|) >= 1
    ensures bases != [] ==> naive == serial
    ensures bases == [] && scalars == [] ==> naive == None && serial == Some(g.identity)
  {
    naive := MultiScalarMul(g, bases, scalars, bytes);
    serial := MultiScalarMulSerial(g, bases, scalars, 8 * bytes, log2);
  }
}
