/** Products and quotients of two variables by repeated addition: the layout stays out of non-linear arithmetic. */
module Arith {

  function Times(n: nat, k: nat): nat {
    if n == 0 then 0 else k + Times(n - 1, k)
  }

  function Quot(x: nat, k: nat): nat
    requires 0 < k
  {
    if x < k then 0 else 1 + Quot(x - k, k)
  }

  lemma {:induction false} TimesIsProduct(n: nat, k: nat)
    ensures Times(n, k) == n * k
  {
    if n > 0 {
      TimesIsProduct(n - 1, k);
      assert n * k == (n - 1) * k + k;
    }
  }

  lemma ProductOrder(a: nat, b: nat, k: nat)
    requires a < b
    ensures a * k + k <= b * k
  {
    TimesOrder(a, b, k);
    TimesIsProduct(a, k);
    TimesIsProduct(b, k);
  }

  lemma DivParts(k: nat, d: nat)
    requires 0 < d
    ensures k / d >= 0 && 0 <= k % d < d && k == k / d * d + k % d
  {
  }

  /** Quotient and remainder of natural numbers, with a divisor that is not a constant. */
  function Div(k: nat, d: nat): nat
    requires 0 < d
  {
    DivParts(k, d);
    k / d
  }

  function Mod(k: nat, d: nat): (r: nat)
    requires 0 < d
    ensures r < d
  {
    DivParts(k, d);
    k % d
  }

  /** They are told by their sum: a remainder below the divisor is the remainder. */
  lemma DivUnique(k: nat, d: nat, q: nat, r: nat)
    requires k == q * d + r && r < d
    ensures Div(k, d) == q && Mod(k, d) == r
  {
    DivParts(k, d);
    var q' := Div(k, d);
    if q' > q { ProductOrder(q, q', d); }
    if q' < q { ProductOrder(q', q, d); }
  }

  /** One block further on. */
  lemma DivStep(k: nat, d: nat)
    requires 0 < d
    ensures k < d ==> Div(k, d) == 0 && Mod(k, d) == k
    ensures k >= d ==> Div(k, d) == Div(k - d, d) + 1 && Mod(k, d) == Mod(k - d, d)
  {
    if k < d {
      DivUnique(k, d, 0, k);
    } else {
      var q, r := Div(k - d, d), Mod(k - d, d);
      DivParts(k - d, d);
      assert (q + 1) * d == q * d + d;
      DivUnique(k, d, q + 1, r);
    }
  }

  /** Quot is integer division: `x` lies between two consecutive multiples of `k`. */
  lemma {:induction false} QuotBounds(x: nat, k: nat)
    requires 0 < k
    ensures Times(Quot(x, k), k) <= x < Times(Quot(x, k), k) + k
  {
    if x >= k {
      QuotBounds(x - k, k);
    }
  }

  lemma {:induction false} TimesOrder(a: nat, b: nat, k: nat)
    requires a < b
    ensures Times(a, k) + k <= Times(b, k)
    decreases b
  {
    if a < b - 1 {
      TimesOrder(a, b - 1, k);
    }
  }

  lemma {:induction false} QuotOfTimes(n: nat, r: nat, k: nat)
    requires r < k
    ensures Quot(Times(n, k) + r, k) == n
  {
    if n > 0 {
      QuotOfTimes(n - 1, r, k);
    }
  }
}
