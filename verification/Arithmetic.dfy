/** Bytes, and quotients, remainders and multiples of variable divisors. */
module Arithmetic {

  type Byte = b: int | 0 <= b < 256 witness 0

  function Min(a: nat, b: nat): nat { if a < b then a else b }

  /** A number as an unsigned 32-bit field keeps it. */
  function U32(x: int): (r: nat)
    ensures 0 <= x < 0x1_0000_0000 ==> r == x
    ensures r < 0x1_0000_0000
  {
    x % 0x1_0000_0000
  }

  lemma AtLeast(k: nat, d: nat)
    requires k >= 1
    ensures k * d >= d
  {
    assert k * d == (k - 1) * d + d;
  }

  /** Quotient and remainder are determined by their equation. */
  lemma Quotient(n: nat, q: nat, r: nat, d: nat)
    requires r < d && n == q * d + r
    ensures n / d == q && n % d == r
  {
    var p := n / d;
    assert n == p * d + n % d;
    if p < q {
      assert (q - p) * d == n % d - r;
      AtLeast(q - p, d);
    } else if q < p {
      assert (p - q) * d == r - n % d;
      AtLeast(p - q, d);
    }
  }

  /** Whole turns do not change the remainder. */
  lemma AfterTurns(turns: nat, e: nat, n: nat)
    requires 0 < n
    ensures (turns * n + e) % n == e % n
  {
    assert e == (e / n) * n + e % n;
    assert (turns + e / n) * n == turns * n + (e / n) * n;
    Quotient(turns * n + e, turns + e / n, e % n, n);
  }

  /** An index into a ring of n entries, less than one turn ahead. */
  function Wrap(i: nat, n: nat): (w: nat)
    requires i < 2 * n
    ensures w == i % n && w < n
  {
    if i < n then Quotient(i, 0, i, n); i else Quotient(i, 1, i - n, n); i - n
  }

  /** The remainder of k steps on from e. */
  lemma RemainderFrom(e: nat, k: nat, d: nat)
    requires k < d
    ensures (e + k) % d == if e % d + k < d then e % d + k else e % d + k - d
  {
    var q, r := e / d, e % d;
    assert e == q * d + r;
    if r + k < d {
      Quotient(e + k, q, r + k, d);
    } else {
      assert (q + 1) * d == q * d + d;
      Quotient(e + k, q + 1, r + k - d, d);
    }
  }

  ghost predicate Multiple(n: int, d: nat) {
    0 < d && n % d == 0
  }

  /** k units of d, and how many whole units of d are in n. */
  function Times(k: nat, d: nat): nat {
    k * d
  }

  function Units(n: nat, d: nat): nat
    requires 0 < d
  {
    n / d
  }

  lemma TimesMultiple(k: nat, d: nat)
    requires 0 < d
    ensures Multiple(Times(k, d), d) && Units(Times(k, d), d) == k
    ensures k > 0 ==> Times(k, d) >= d
  {
    Quotient(k * d, k, 0, d);
    if k > 0 {
      AtLeast(k, d);
    }
  }

  lemma TimesSum(a: nat, b: nat, d: nat)
    ensures Times(a + b, d) == Times(a, d) + Times(b, d)
  {
  }

  lemma TimesMonotone(a: nat, b: nat, d: nat)
    requires a <= b
    ensures Times(a, d) <= Times(b, d)
  {
    if a < b {
      AtLeast(b - a, d);
      TimesSum(a, b - a, d);
    }
  }

  lemma SumMultiple(a: nat, b: nat, d: nat)
    requires Multiple(a, d) && Multiple(b, d)
    ensures Multiple(a + b, d) && Times(Units(a + b, d), d) == a + b
  {
    assert a == (a / d) * d && b == (b / d) * d;
    assert a + b == (a / d + b / d) * d;
    Quotient(a + b, a / d + b / d, 0, d);
  }

  lemma DifferenceMultiple(a: nat, b: nat, d: nat)
    requires Multiple(a, d) && Multiple(b, d) && b <= a
    ensures Multiple(a - b, d) && Times(Units(a - b, d), d) == a - b
    ensures b < a ==> Units(a - b, d) > 0
  {
    var p, q := a / d, b / d;
    assert a == p * d && b == q * d;
    if q > p {
      assert (q - p) * d == b - a;
      AtLeast(q - p, d);
    }
    assert a - b == (p - q) * d;
    Quotient(a - b, p - q, 0, d);
  }

  lemma ZeroMultiple(d: nat)
    requires 0 < d
    ensures Multiple(0, d)
  {
  }
}
