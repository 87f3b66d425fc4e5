/** Products, multiples and powers of whole numbers. */
module Numbers {
  /** 1 << n. */
  function Pow2(n: nat): (p: nat)
    ensures p > 0
  {
    if n == 0 then 1 else 2 * Pow2(n - 1)
  }

  /** The numbers below n. */
  ghost function Below(n: nat): (s: set<nat>)
    ensures |s| == n && forall x: nat :: x in s <==> x < n
  {
    if n == 0 then {} else Below(n - 1) + {n - 1}
  }

  lemma TimesOrder(x: int, y: int, d: nat)
    requires x >= y
    ensures x * d >= y * d
  {
    assert (x - y) * d >= 0;
  }

  lemma MultipleOf(q: int, d: nat)
    requires d > 0
    ensures q * d % d == 0
  {
    var x := q * d;
    var m := q - x / d;
    assert m * d == x % d;
    if m >= 1 {
      TimesOrder(m, 1, d);
    } else if m <= -1 {
      TimesOrder(-1, m, d);
    }
  }

  /** Rounding up to a multiple. */
  lemma AlignUp(a: nat, k: nat)
    requires k >= 1 && a % k != 0
    ensures (a + (k - a % k)) % k == 0
  {
    MultipleOf(a / k + 1, k);
    assert a + (k - a % k) == (a / k + 1) * k;
  }
}
