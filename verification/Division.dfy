/** Products, quotients and remainders by a variable. */
module Division {
  lemma MulSum(a: nat, b: nat, d: nat)
    ensures (a + b) * d == a * d + b * d
    ensures b > 0 ==> b * d >= d
  {
    if b > 0 {
      assert b * d == (b - 1) * d + d;
    }
  }

  lemma SameQuotient(p: nat, q: nat, d: nat, r: nat, s: nat)
    requires p * d + r == q * d + s && r < d && s < d
    ensures p == q && r == s
  {
    if p < q {
      MulSum(p, q - p, d);
    } else if q < p {
      MulSum(q, p - q, d);
    }
  }

  lemma DivMod(a: nat, d: nat)
    requires d > 0
    ensures a == (a / d) * d + a % d
  {
  }

  lemma QuotientIs(a: nat, d: nat, q: nat, r: nat)
    requires a == q * d + r && r < d
    ensures a / d == q && a % d == r
  {
    DivMod(a, d);
    SameQuotient(a / d, q, d, a % d, r);
  }

  /** `k` equal steps of a scan. */
  function Times(k: nat, t: int): int {
    k * t
  }

  lemma TimesDown(k: nat, t: int)
    requires k > 0
    ensures Times(k, t) == Times(k - 1, t) + t
  {
  }

  lemma TimesSign(k: nat, t: int)
    ensures Times(0, t) == 0
    ensures t >= 0 ==> Times(k, t) >= 0
    ensures k > 0 && t > 0 ==> Times(k, t) > 0
  {
  }
}
