/** Division of unsigned numbers by a symbolic divisor, kept linear for the solver. */
module Division {
  /** Quotient and remainder by repeated subtraction: what `/` and `%` are on unsigned numbers. */
  function Quot(x: nat, s: nat): nat
    requires s > 0
  {
    if x < s then 0 else 1 + Quot(x - s, s)
  }

  function Rem(x: nat, s: nat): (r: nat)
    requires s > 0
    ensures r < s
  {
    if x < s then x else Rem(x - s, s)
  }

  lemma {:induction false} QuotRem(x: nat, s: nat)
    requires s > 0
    ensures x == Quot(x, s) * s + Rem(x, s)
  {
    if x >= s {
      QuotRem(x - s, s);
    }
  }

  lemma DivUnique(x: nat, s: nat, q: nat, r: nat)
    requires s > 0 && r < s && x == q * s + r
    ensures x / s == q && x % s == r
  {
    var e := x / s - q;
    assert x == x / s * s + x % s;
    assert e * s == r - x % s;
    if e > 0 { MulMonotone(1, e, s); } else if e < 0 { MulMonotone(1, -e, s); }
  }

  lemma MulMonotone(a: int, b: int, m: nat)
    requires a <= b
    ensures a * m <= b * m
  {
  }

  lemma QuotIsDiv(x: nat, s: nat)
    requires s > 0
    ensures x / s == Quot(x, s) && x % s == Rem(x, s)
  {
    QuotRem(x, s);
    DivUnique(x, s, Quot(x, s), Rem(x, s));
  }

  /** Multiplication by repeated addition. */
  function Times(n: nat, m: nat): nat {
    if n == 0 then 0 else Times(n - 1, m) + m
  }

  lemma {:induction false} TimesIsProduct(n: nat, m: nat)
    ensures Times(n, m) == n * m
  {
    if n > 0 {
      TimesIsProduct(n - 1, m);
    }
  }

  lemma {:induction false} TimesMonotone(a: nat, b: nat, m: nat)
    requires a <= b
    ensures Times(a, m) <= Times(b, m)
  {
    if a < b {
      TimesMonotone(a, b - 1, m);
    }
  }

  lemma {:induction false} QuotBelowTimes(x: nat, k: nat, s: nat)
    requires s > 0 && x < Times(k, s)
    ensures Quot(x, s) < k
  {
    if x >= s {
      QuotBelowTimes(x - s, k - 1, s);
    }
  }

  lemma {:induction false} QuotOfTimes(c: nat, r: nat, s: nat)
    requires r < s
    ensures Quot(Times(c, s) + r, s) == c && Rem(Times(c, s) + r, s) == r
  {
    if c > 0 {
      QuotOfTimes(c - 1, r, s);
      assert Times(c, s) + r - s == Times(c - 1, s) + r;
    }
  }

  lemma {:induction false} QuotRemUnique(i: nat, j: nat, s: nat)
    requires s > 0 && Quot(i, s) == Quot(j, s) && Rem(i, s) == Rem(j, s)
    ensures i == j
  {
    if i >= s && j >= s {
      QuotRemUnique(i - s, j - s, s);
    }
  }
}
