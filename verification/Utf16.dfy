/** UTF-16 code units of a string, and the strict and the replacing way back. */
module Utf16 {
  import opened Text
  import opened LittleEndian

  newtype unit16 = x: int | 0 <= x < 0x1_0000

  const REPLACEMENT: char := '\U{FFFD}'

  predicate High(u: unit16) { 0xD800 <= u < 0xDC00 }

  predicate Low(u: unit16) { 0xDC00 <= u < 0xE000 }

  function Pair(high: unit16, low: unit16): char
    requires High(high) && Low(low)
  {
    (0x1_0000 + (high as int - 0xD800) * 0x400 + (low as int - 0xDC00)) as char
  }

  function UnitsOf(c: char): (r: seq<unit16>)
    ensures |r| == 1 || |r| == 2
  {
    var n := c as int;
    if n < 0x1_0000 then [n as unit16]
    else [(0xD800 + (n - 0x1_0000) / 0x400) as unit16, (0xDC00 + (n - 0x1_0000) % 0x400) as unit16]
  }

  /** `encode_utf16`. */
  function Units(s: string): seq<unit16> {
    if s == "" then [] else UnitsOf(s[0]) + Units(s[1..])
  }

  /** `String::from_utf16`. */
  function Strict(units: seq<unit16>): Option<string> {
    if units == [] then Some("")
    else if High(units[0]) && |units| > 1 && Low(units[1]) then
      var rest := Strict(units[2..]);
      if rest.None? then None else Some([Pair(units[0], units[1])] + rest.value)
    else if High(units[0]) || Low(units[0]) then None
    else
      var rest := Strict(units[1..]);
      if rest.None? then None else Some([units[0] as char] + rest.value)
  }

  /** `String::from_utf16_lossy`: an unpaired surrogate becomes U+FFFD. */
  function Lossy(units: seq<unit16>): string {
    if units == [] then ""
    else if High(units[0]) && |units| > 1 && Low(units[1]) then [Pair(units[0], units[1])] + Lossy(units[2..])
    else if High(units[0]) || Low(units[0]) then [REPLACEMENT] + Lossy(units[1..])
    else [units[0] as char] + Lossy(units[1..])
  }

  lemma PairUnits(high: unit16, low: unit16)
    requires High(high) && Low(low)
    ensures UnitsOf(Pair(high, low)) == [high, low]
  {
  }

  lemma UnitsPair(c: char)
    requires |UnitsOf(c)| == 2
    ensures var u := UnitsOf(c); High(u[0]) && Low(u[1]) && Pair(u[0], u[1]) == c
  {
  }

  lemma UnitsSingle(c: char)
    requires |UnitsOf(c)| == 1
    ensures var u := UnitsOf(c); !High(u[0]) && !Low(u[0]) && u[0] as char == c
  {
  }

  lemma ReadOne(c: char, tail: seq<unit16>)
    ensures Lossy(UnitsOf(c) + tail) == [c] + Lossy(tail)
    ensures Strict(tail).Some? ==> Strict(UnitsOf(c) + tail) == Some([c] + Strict(tail).value)
  {
    var u := UnitsOf(c);
    if |u| == 2 {
      UnitsPair(c);
      assert (u + tail)[2..] == tail;
    } else {
      UnitsSingle(c);
      assert (u + tail)[1..] == tail;
    }
  }

  /** Whatever follows, the units of a string read back as that string. */
  lemma {:induction false} ReadBack(s: string, rest: seq<unit16>)
    ensures Lossy(Units(s) + rest) == s + Lossy(rest)
    ensures Strict(rest).Some? ==> Strict(Units(s) + rest) == Some(s + Strict(rest).value)
  {
    hide Lossy, Strict, UnitsOf;
    if s == "" {
      assert Units(s) + rest == rest;
      assert s + Lossy(rest) == Lossy(rest);
      if Strict(rest).Some? { assert s + Strict(rest).value == Strict(rest).value; }
    } else {
      var tail := Units(s[1..]) + rest;
      assert Units(s) + rest == UnitsOf(s[0]) + tail;
      ReadBack(s[1..], rest);
      ReadOne(s[0], tail);
      assert s + Lossy(rest) == [s[0]] + (s[1..] + Lossy(rest));
      if Strict(rest).Some? {
        assert s + Strict(rest).value == [s[0]] + (s[1..] + Strict(rest).value);
      }
    }
  }

  lemma UnitsRoundTrip(s: string)
    ensures Lossy(Units(s)) == s && Strict(Units(s)) == Some(s)
  {
    ReadBack(s, []);
    assert Units(s) + [] == Units(s);
  }

  /** A strict reading loses nothing: its text has exactly these units. */
  lemma {:induction false} StrictInverse(units: seq<unit16>)
    requires Strict(units).Some?
    ensures Units(Strict(units).value) == units
    ensures Lossy(units) == Strict(units).value
  {
    if units != [] {
      var s := Strict(units).value;
      if High(units[0]) && |units| > 1 && Low(units[1]) {
        StrictInverse(units[2..]);
        PairUnits(units[0], units[1]);
        assert s[1..] == Strict(units[2..]).value;
        assert units == [units[0], units[1]] + units[2..];
      } else {
        StrictInverse(units[1..]);
        assert s[1..] == Strict(units[1..]).value;
        assert UnitsOf(s[0]) == [units[0]];
        assert units == [units[0]] + units[1..];
      }
    }
  }

  /** A replacing reading keeps the number of code units. */
  lemma {:induction false} LossyLength(units: seq<unit16>)
    ensures |Units(Lossy(units))| == |units|
  {
    if units != [] {
      var s := Lossy(units);
      if High(units[0]) && |units| > 1 && Low(units[1]) {
        LossyLength(units[2..]);
        PairUnits(units[0], units[1]);
        assert s[1..] == Lossy(units[2..]);
      } else {
        LossyLength(units[1..]);
        assert s[1..] == Lossy(units[1..]);
      }
    }
  }

  // ----------------------------------------------------- units as bytes

  function UnitBytes(units: seq<unit16>): (r: seq<byte>)
    ensures |r| == 2 * |units|
  {
    if units == [] then [] else Digits(units[0] as int, 2) + UnitBytes(units[1..])
  }

  /** `chunks_exact(2)` and `from_le_bytes`; a trailing odd byte is not looked at. */
  function BytesUnits(bytes: seq<byte>): (r: seq<unit16>)
    ensures |r| == |bytes| / 2
  {
    if |bytes| < 2 then []
    else
      Pow256Values();
      [Natural(bytes[..2]) as unit16] + BytesUnits(bytes[2..])
  }

  lemma {:induction false} UnitBytesRoundTrip(units: seq<unit16>)
    ensures BytesUnits(UnitBytes(units)) == units
  {
    if units != [] {
      var b := UnitBytes(units);
      Pow256Values();
      DigitsNatural(units[0] as int, 2);
      assert b[..2] == Digits(units[0] as int, 2);
      assert b[2..] == UnitBytes(units[1..]);
      UnitBytesRoundTrip(units[1..]);
    }
  }

  lemma {:induction false} BytesUnitsRoundTrip(bytes: seq<byte>)
    requires |bytes| % 2 == 0
    ensures UnitBytes(BytesUnits(bytes)) == bytes
  {
    if bytes != [] {
      Pow256Values();
      NaturalDigits(bytes[..2]);
      BytesUnitsRoundTrip(bytes[2..]);
      var u := BytesUnits(bytes);
      assert u[1..] == BytesUnits(bytes[2..]);
      assert bytes == bytes[..2] + bytes[2..];
    }
  }

  // ------------------------------------------------------------- the encoding

  /** One unit below U+10000, otherwise a high and a low surrogate (section 2.1 of RFC 2781). */
  lemma UnitsExactly(c: char)
    ensures var u, n := UnitsOf(c), c as int;
            if n < 0x1_0000 then u == [n as unit16]
            else |u| == 2 && 0xD800 <= u[0] <= 0xDBFF && 0xDC00 <= u[1] <= 0xDFFF
                 && n == 0x1_0000 + (u[0] as int - 0xD800) * 0x400 + (u[1] as int - 0xDC00)
  {
  }

  /** A strict reading refuses exactly the unit sequences that no text has. */
  lemma StrictRefuses(units: seq<unit16>)
    ensures Strict(units).None? <==> forall s :: Units(s) != units
  {
    if Strict(units).Some? { StrictInverse(units); }
    forall s | Units(s) == units
      ensures Strict(units).Some?
    {
      UnitsRoundTrip(s);
    }
  }

  /** A replacing reading reads a well-formed front as it is, and an unpaired surrogate behind it as U+FFFD. */
  lemma LossyExactly(front: string, u: unit16, rest: seq<unit16>)
    requires High(u) ==> rest == [] || !Low(rest[0])
    requires 0xD800 <= u <= 0xDFFF
    ensures Lossy(Units(front) + [u] + rest) == front + "\U{FFFD}" + Lossy(rest)
  {
    hide Lossy, Units;
    ReadBack(front, [u] + rest);
    assert Units(front) + [u] + rest == Units(front) + ([u] + rest);
    Unpaired(u, rest);
    assert front + ("\U{FFFD}" + Lossy(rest)) == front + "\U{FFFD}" + Lossy(rest);
  }

  lemma Unpaired(u: unit16, rest: seq<unit16>)
    requires (High(u) ==> rest == [] || !Low(rest[0])) && 0xD800 <= u <= 0xDFFF
    ensures Lossy([u] + rest) == "\U{FFFD}" + Lossy(rest)
  {
    assert ([u] + rest)[1..] == rest;
    if rest != [] { assert ([u] + rest)[1] == rest[0]; }
  }
}
