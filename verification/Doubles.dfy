/** The JavaScript numbers the codecs compute with, as far as they matter: real values, and
    rounding of integers to IEEE 754 doubles. */
module Doubles {
  datatype Number = NotANumber | PositiveInfinity | NegativeInfinity | Finite(value: real)

  const TWO_32: nat := 0x1_0000_0000
  const TWO_53: nat := 0x20_0000_0000_0000
  const MAX_SAFE_INTEGER: nat := TWO_53 - 1

  /** The spacing of doubles at `n`: 53 significant bits. */
  function Ulp(n: nat): (u: nat)
    ensures u >= 1
  {
    if n < TWO_53 then 1 else 2 * Ulp(n / 2)
  }

  /** Round to nearest, ties to even. */
  function Rounded(n: nat): nat {
    var u := Ulp(n);
    var q, r := n / u, n % u;
    if 2 * r > u || (2 * r == u && q % 2 == 1) then (q + 1) * u else q * u
  }

  lemma RoundedExact(n: nat)
    requires n < TWO_53
    ensures Rounded(n) == n
  {
  }

  lemma {:induction false} QuotientLarge(n: nat)
    requires n >= TWO_53
    ensures Ulp(n) >= 2 && n / Ulp(n) >= TWO_53 / 2
  {
    if n / 2 < TWO_53 {
      assert Ulp(n) == 2;
    } else {
      QuotientLarge(n / 2);
      QuotientOfHalf(n, Ulp(n / 2));
    }
  }

  lemma QuotientOfHalf(n: nat, u: nat)
    requires u >= 1
    ensures n / (2 * u) == (n / 2) / u
  {
    var q, r := (n / 2) / u, (n / 2) % u;
    assert n / 2 == q * u + r;
    var s := 2 * r + n % 2;
    assert n == q * (2 * u) + s && 0 <= s < 2 * u;
    DivisionUnique(n, 2 * u, q, s);
  }

  lemma DivisionUnique(n: nat, d: nat, q: nat, r: nat)
    requires d > 0 && n == q * d + r && r < d
    ensures n / d == q && n % d == r
  {
    var q', r' := n / d, n % d;
    assert n == q' * d + r' && 0 <= r' < d;
    assert (q - q') * d == r' - r;
    if q > q' { MultipleAtLeast(q - q', d); }
    if q < q' {
      assert (q' - q) * d == r - r';
      MultipleAtLeast(q' - q, d);
    }
  }

  lemma MultipleAtLeast(k: int, d: nat)
    requires k >= 1
    ensures k * d >= d
  {
  }

  /** Large integers have exactly 53 significant bits left. */
  lemma {:induction false} QuotientBounds(n: nat)
    ensures n / Ulp(n) < TWO_53
    ensures n >= TWO_53 ==> n / Ulp(n) >= TWO_53 / 2
  {
    if n >= TWO_53 {
      QuotientLarge(n);
      QuotientBounds(n / 2);
      QuotientOfHalf(n, Ulp(n / 2));
    }
  }

  lemma Distribute(k: nat, u: nat)
    ensures (k + 1) * u == k * u + u
  {
  }

  /** `x` and `x + u` are the multiples next to `x + r`. */
  lemma NearestOfTwo(x: nat, u: nat, r: nat, k: nat, rounded: nat)
    requires r < u
    requires rounded == if 2 * r > u || (2 * r == u && k % 2 == 1) then x + u else x
    ensures 2 * (x + r) <= 2 * rounded + u && 2 * rounded <= 2 * (x + r) + u
    ensures 2 * rounded == 2 * (x + r) + u ==> rounded == x + u && k % 2 == 1
    ensures 2 * (x + r) == 2 * rounded + u ==> rounded == x && k % 2 == 0
  {
  }

  lemma QuotientParts(n: nat, u: nat) returns (k: nat, r: nat)
    requires u > 0
    ensures k == n / u && r == n % u && r < u && n == k * u + r
  {
    k, r := n / u, n % u;
  }

  /** Rounding gives a multiple of the spacing no farther than half of it, and of the two
      nearest the even one. */
  lemma RoundedNearest(n: nat) returns (q: nat)
    ensures Rounded(n) == q * Ulp(n)
    ensures 2 * n <= 2 * Rounded(n) + Ulp(n) && 2 * Rounded(n) <= 2 * n + Ulp(n)
    ensures 2 * Rounded(n) == 2 * n + Ulp(n) || 2 * n == 2 * Rounded(n) + Ulp(n) ==> q % 2 == 0
  {
    var u := Ulp(n);
    var k, r := QuotientParts(n, u);
    Distribute(k, u);
    var x := k * u;
    q := if 2 * r > u || (2 * r == u && k % 2 == 1) then k + 1 else k;
    NearestOfTwo(x, u, r, k, Rounded(n));
  }

  /** Rounding never brings an unsafe integer back among the safe ones. */
  lemma RoundedStaysUnsafe(n: nat)
    requires n >= TWO_53
    ensures Rounded(n) >= TWO_53
  {
    QuotientLarge(n);
    var u := Ulp(n);
    var q := n / u;
    assert q * u >= (TWO_53 / 2) * 2 by { ProductMonotone(q, u, TWO_53 / 2, 2); }
    assert (q + 1) * u >= q * u;
  }

  lemma ProductMonotone(a: nat, b: nat, c: nat, d: nat)
    requires a >= c && b >= d
    ensures a * b >= c * d
  {
    assert a * b >= c * b >= c * d;
  }

  /** The spacing at a value below 2^53 * 2^k divides 2^k. */
  lemma {:induction false} UlpDivides(n: nat, k: nat) returns (m: nat)
    requires n < TWO_53 * Pow2(k)
    ensures Pow2(k) == m * Ulp(n)
  {
    if n < TWO_53 {
      m := Pow2(k);
    } else {
      m := UlpDivides(n / 2, k - 1);
      assert Pow2(k) == 2 * (m * Ulp(n / 2)) == m * (2 * Ulp(n / 2));
    }
  }

  function Pow2(k: nat): nat { if k == 0 then 1 else 2 * Pow2(k - 1) }

  lemma ProductRegroup(a: nat, b: nat, c: nat)
    ensures a * (b * c) == (a * b) * c
  {
  }

  lemma MultipleRoundsToItself(n: nat, k: nat, j: nat)
    requires n < TWO_53 * Pow2(k) && n == j * Pow2(k)
    ensures Rounded(n) == n
  {
    var m := UlpDivides(n, k);
    var u := Ulp(n);
    ProductRegroup(j, m, u);
    DivisionUnique(n, u, j * m, 0);
  }

  /** `high * 2^32` is exact in a double for every 32-bit `high`. */
  lemma HighPartExact(high: nat)
    requires high < TWO_32
    ensures Rounded(high * TWO_32) == high * TWO_32
  {
    assert Pow2(8) == 256;
    assert Pow2(11) == 2048;
    assert high * TWO_32 == (high * 0x20_0000) * 2048;
    MultipleRoundsToItself(high * TWO_32, 11, high * 0x20_0000);
  }
}
