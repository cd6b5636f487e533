/** Little-endian machine integers as byte strings. */
module LittleEndian {

  newtype byte = x: int | 0 <= x < 0x100

  function Pow256(width: nat): (r: nat)
    ensures r >= 1
  {
    if width == 0 then 1 else 256 * Pow256(width - 1)
  }

  function Natural(bytes: seq<byte>): (n: nat)
    ensures n < Pow256(|bytes|)
  {
    if bytes == [] then 0 else bytes[0] as int + 256 * Natural(bytes[1..])
  }

  function Digits(n: nat, width: nat): (r: seq<byte>)
    ensures |r| == width
  {
    if width == 0 then [] else [(n % 256) as byte] + Digits(n / 256, width - 1)
  }

  lemma {:induction false} DigitsNatural(n: nat, width: nat)
    requires n < Pow256(width)
    ensures Natural(Digits(n, width)) == n
  {
    if width > 0 {
      DigitsNatural(n / 256, width - 1);
    }
  }

  lemma {:induction false} NaturalDigits(bytes: seq<byte>)
    ensures Digits(Natural(bytes), |bytes|) == bytes
  {
    if bytes != [] {
      NaturalDigits(bytes[1..]);
      var n := Natural(bytes);
      assert n % 256 == bytes[0] as int && n / 256 == Natural(bytes[1..]);
    }
  }

  /** Two's complement reading of `width` bytes. */
  function Signed(bytes: seq<byte>): int {
    var n := Natural(bytes);
    if 2 * n >= Pow256(|bytes|) && bytes != [] then n - Pow256(|bytes|) else n
  }

  predicate InRange(v: int, width: nat) {
    2 * v < Pow256(width) && -2 * v <= Pow256(width)
  }

  function SignedDigits(v: int, width: nat): (r: seq<byte>)
    requires width > 0 && InRange(v, width)
    ensures |r| == width
  {
    Digits(if v < 0 then v + Pow256(width) else v, width)
  }

  lemma SignedRoundTrip(v: int, width: nat)
    requires width > 0 && InRange(v, width)
    ensures Signed(SignedDigits(v, width)) == v
  {
    DigitsNatural(if v < 0 then v + Pow256(width) else v, width);
  }

  lemma SignedInverse(bytes: seq<byte>)
    requires bytes != []
    ensures InRange(Signed(bytes), |bytes|)
    ensures SignedDigits(Signed(bytes), |bytes|) == bytes
  {
    NaturalDigits(bytes);
    assert Pow256(|bytes|) == 256 * Pow256(|bytes| - 1);
  }

  lemma Pow256Values()
    ensures Pow256(1) == 0x100 && Pow256(2) == 0x1_0000 && Pow256(4) == 0x1_0000_0000
  {
  }

  /** The least significant byte stands first. */
  lemma {:induction false} DigitsPlaces(n: nat, width: nat, i: nat)
    requires i < width
    ensures Digits(n, width)[i] as int == n / Pow256(i) % 256
  {
    if i > 0 {
      DigitsPlaces(n / 256, width - 1, i - 1);
      DividesTwice(n, 256, Pow256(i - 1));
    }
  }

  lemma DividesTwice(n: nat, a: nat, b: nat)
    requires a > 0 && b > 0
    ensures n / a / b == n / (a * b)
  {
    var q, r := n / a / b, n / a % b;
    assert n / a == q * b + r;
    assert n == (q * b + r) * a + n % a;
    assert (q * b + r) * a == q * (a * b) + r * a;
    assert r * a + n % a < a * b by { assert r * a <= (b - 1) * a; }
    Quotient(n, a * b, q, r * a + n % a);
  }

  lemma Quotient(n: nat, d: nat, q: nat, r: nat)
    requires d > 0 && n == q * d + r && r < d
    ensures n / d == q
  {
    var p := n / d;
    assert p * d <= n < p * d + d;
    if p < q { TimesGrows(p + 1, q, d); } else if p > q { TimesGrows(q + 1, p, d); }
  }

  lemma TimesGrows(a: nat, b: nat, d: nat)
    requires a <= b
    ensures a * d <= b * d
  {
  }
}
