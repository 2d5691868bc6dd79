/** The product of a whole number and a fraction as a double (IEEE 754, round to nearest, ties to even). */
module Rounding {
  const TWO_53 := 0x20_0000_0000_0000

  function Pow2(e: nat): (p: nat)
    ensures p > 0
  {
    if e == 0 then 1 else 2 * Pow2(e - 1)
  }

  /** The number of low bits that `n` has beyond 53. */
  function Excess(n: nat, e: nat): (x: nat)
    requires n < TWO_53 * Pow2(e)
    ensures x <= e && n < TWO_53 * Pow2(x) && (x > 0 ==> n >= TWO_53 * Pow2(x - 1))
  {
    if e > 0 && n < TWO_53 * Pow2(e - 1) then Excess(n, e - 1) else e
  }

  /** `n` rounded to a multiple of `u`. */
  function RoundTo(n: nat, u: nat): nat
    requires u > 0
  {
    var q, r := n / u, n % u;
    if 2 * r < u || (2 * r == u && q % 2 == 0) then q * u else (q + 1) * u
  }

  /** `n` rounded to 53 significant bits. */
  function Rounded(n: nat, e: nat): nat
    requires n < TWO_53 * Pow2(e)
  {
    RoundTo(n, Pow2(Excess(n, e)))
  }

  lemma RoundToNear(n: nat, u: nat)
    requires u > 0
    ensures n / u * u <= RoundTo(n, u) && 2 * RoundTo(n, u) <= 2 * n + u
    ensures u == 1 ==> RoundTo(n, u) == n
  {
    assert n == n / u * u + n % u;
    assert (n / u + 1) * u == n / u * u + u;
  }

  lemma {:induction false} PowersDivide(x: nat, e: nat)
    requires x <= e
    ensures Pow2(e) == Pow2(e - x) * Pow2(x)
  {
    if x > 0 { PowersDivide(x - 1, e - 1); }
  }

  lemma Monotone(a: nat, b: nat, u: nat)
    requires a <= b
    ensures a * u <= b * u
  {
    assert b * u == a * u + (b - a) * u;
  }

  lemma Multiple(n: nat, k: nat, f: nat, u: nat)
    requires u > 0 && k * (f * u) <= n
    ensures k * (f * u) <= n / u * u
  {
    assert k * (f * u) == (k * f) * u;
    assert n == n / u * u + n % u;
    assert (n / u + 1) * u == n / u * u + u;
    if k * f <= n / u { Monotone(k * f, n / u, u); } else { Monotone(n / u + 1, k * f, u); }
  }

  /** A rounded number is not more than one part in 2^53 too large, and whole numbers are not passed on the way down. */
  lemma RoundedNear(n: nat, e: nat)
    requires n < TWO_53 * Pow2(e) && e <= 53
    ensures Rounded(n, e) * TWO_53 <= n * (TWO_53 + 1)
    ensures n / TWO_53 * TWO_53 <= Rounded(n, e)
  {
    var x := Excess(n, e);
    var u := Pow2(x);
    RoundToNear(n, u);
    PowersDivide(x, 53);
    Pow53();
    Multiple(n, n / TWO_53, Pow2(53 - x), u);
  }

  lemma Pow53()
    ensures Pow2(53) == TWO_53
  {
    assert Pow2(6) == 64 && Pow2(7) == 128;
    assert Pow2(13) == 8192 by { PowersDivide(6, 13); }
    assert Pow2(26) == 0x400_0000 by { PowersDivide(13, 26); }
    assert Pow2(27) == 2 * Pow2(26);
    PowersDivide(26, 53);
    hide Pow2;
  }

  lemma Pow31()
    ensures Pow2(31) == 0x8000_0000
  {
    assert Pow2(5) == 32 && Pow2(6) == 64;
    assert Pow2(13) == 8192 by { PowersDivide(6, 13); assert Pow2(7) == 128; }
    assert Pow2(26) == 0x400_0000 by { PowersDivide(13, 26); }
    PowersDivide(5, 31);
    hide Pow2;
  }
}
