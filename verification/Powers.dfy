/** Powers of two. */
module Powers {

  function Exp2(n: nat): (r: nat)
    ensures r > 0
  {
    if n == 0 then 1 else 2 * Exp2(n - 1)
  }

  lemma {:induction false} Exp2Sum(m: nat, n: nat)
    ensures Exp2(m + n) == Exp2(m) * Exp2(n)
  {
    if m > 0 {
      Exp2Sum(m - 1, n);
      Exp2Next(m - 1);
      Exp2Next(m - 1 + n);
      DoubleProduct(Exp2(m - 1), Exp2(n));
    }
  }

  lemma Exp2Next(n: nat)
    ensures Exp2(n + 1) == 2 * Exp2(n)
  {
  }

  lemma DoubleProduct(a: nat, b: nat)
    ensures 2 * (a * b) == (2 * a) * b
  {
  }

  lemma {:induction false} Exp2Monotone(m: nat, n: nat)
    requires m <= n
    ensures Exp2(m) <= Exp2(n)
  {
    if m < n {
      Exp2Monotone(m, n - 1);
    }
  }
}
