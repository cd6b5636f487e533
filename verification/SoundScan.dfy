/** Scanning track files for sound keys: the jumping scan finds what a test of every byte offset finds. */
module SoundScan {
  import opened Text
  import opened LittleEndian
  import opened Utf16
  import Paths

  /** `filename` in UTF-16LE. */
  const PATTERN: seq<byte> := [
    0x66, 0, 0x69, 0, 0x6C, 0, 0x65, 0, 0x6E, 0, 0x61, 0, 0x6D, 0, 0x65, 0]

  predicate Matches(bytes: seq<byte>, p: nat) {
    p + |PATTERN| <= |bytes| && bytes[p..p + |PATTERN|] == PATTERN
  }

  predicate Padding(c: char) {
    c == '\0' || c == ' ' || c == '\t'
  }

  function TrimFront(s: string): string {
    if s != "" && Padding(s[0]) then TrimFront(s[1..]) else s
  }

  function TrimBack(s: string): string {
    if s != "" && Padding(s[|s| - 1]) then TrimBack(s[..|s| - 1]) else s
  }

  /** A decoded value counts unless it is blank, absolute, or holds a NUL or a drive colon. */
  function Accepted(value: string): Option<string> {
    var s := TrimBack(TrimFront(value));
    if s == "" || '\0' in s || ':' in s || s[0] == '/' || s[0] == '\\' then None else Some(Paths.Slashed(s))
  }

  /** The value behind a matched key whose length field starts at `at`. */
  function ValueAt(bytes: seq<byte>, at: nat): Option<string>
    requires at + 4 <= |bytes|
  {
    var units := Natural(bytes[at..at + 4]);
    var start := at + 4;
    if units < 1 || units > 256 || start + 2 * units > |bytes| then None
    else
      var text := Strict(BytesUnits(bytes[start..start + 2 * units]));
      if text.None? then None else Accepted(text.value)
  }

  /** The sound key that starts at this very offset, if there is one. */
  function KeyAt(bytes: seq<byte>, p: nat): Option<string> {
    if Matches(bytes, p) && p + |PATTERN| + 4 <= |bytes| then ValueAt(bytes, p + |PATTERN|) else None
  }

  /** Testing every offset from `from` on. */
  ghost predicate KeysFrom(bytes: seq<byte>, from: nat, keys: set<string>) {
    && (forall p :: from <= p < |bytes| && KeyAt(bytes, p).Some? ==> KeyAt(bytes, p).value in keys)
    && (forall k :: k in keys ==> exists p :: from <= p < |bytes| && KeyAt(bytes, p) == Some(k))
  }

  /** The first match at or after `from`. */
  function FirstMatch(bytes: seq<byte>, from: nat): (r: Option<nat>)
    requires from <= |bytes|
    ensures r.Some? ==> from <= r.value && Matches(bytes, r.value)
    ensures forall p :: from <= p < (if r.Some? then r.value else |bytes|) ==> !Matches(bytes, p)
    decreases |bytes| - from
  {
    if from == |bytes| then None
    else if Matches(bytes, from) then Some(from)
    else FirstMatch(bytes, from + 1)
  }

  lemma OneUnit(c: char)
    requires c < '\U{0080}'
    ensures UnitsOf(c) == [c as int as unit16] && Digits(c as int, 2) == [c as int as byte, 0]
  {
  }

  predicate Ascii(s: string) {
    forall i :: 0 <= i < |s| ==> s[i] < '\U{0080}'
  }

  /** Byte `k` of ASCII text in UTF-16LE. */
  function Spread(s: string, k: nat): byte
    requires Ascii(s) && k < 2 * |s|
  {
    if k % 2 == 0 then s[k / 2] as int as byte else 0
  }

  lemma SpreadNext(s: string, k: nat)
    requires Ascii(s) && 2 <= k < 2 * |s|
    ensures Ascii(s[1..]) && Spread(s, k) == Spread(s[1..], k - 2)
  {
  }

  lemma {:induction false} AsciiBytes(s: string)
    requires Ascii(s)
    ensures var b := UnitBytes(Units(s)); |b| == 2 * |s| && forall k :: 0 <= k < |b| ==> b[k] == Spread(s, k)
  {
    hide Digits, UnitsOf;
    if s != "" {
      OneUnit(s[0]);
      AsciiBytes(s[1..]);
      assert Units(s)[1..] == Units(s[1..]);
      var b, rest := UnitBytes(Units(s)), UnitBytes(Units(s[1..]));
      assert b == [s[0] as int as byte, 0] + rest;
      hide Spread, Units, UnitBytes;
      forall k | 0 <= k < |b|
        ensures b[k] == Spread(s, k)
      {
        if k >= 2 {
          SpreadNext(s, k);
          assert b[k] == rest[k - 2];
        } else {
          SpreadFirst(s, k);
        }
      }
    }
  }

  lemma SpreadFirst(s: string, k: nat)
    requires Ascii(s) && s != "" && k < 2
    ensures Spread(s, k) == if k == 0 then s[0] as int as byte else 0
  {
  }

  lemma PatternIsFilename()
    ensures PATTERN == UnitBytes(Units("filename"))
  {
    hide Units, UnitBytes;
    var s := "filename";
    AsciiBytes(s);
    var b := UnitBytes(Units(s));
    forall k | 0 <= k < |b|
      ensures b[k] == PATTERN[k]
    {
      assert b[k] == Spread(s, k);
    }
  }

  lemma MatchByte(bytes: seq<byte>, p: nat, k: nat)
    requires Matches(bytes, p) && k < |PATTERN|
    ensures bytes[p + k] == PATTERN[k]
  {
  }

  lemma MatchStart(bytes: seq<byte>, p: nat)
    ensures Matches(bytes, p) ==> bytes[p] == PATTERN[0]
  {
  }

  lemma FirstByteOnce(k: nat)
    requires 0 < k < |PATTERN|
    ensures PATTERN[k] != PATTERN[0]
  {
  }

  /** The key does not overlap itself, because its first byte occurs nowhere else in it. */
  lemma NoOverlap(bytes: seq<byte>, p: nat, q: nat)
    requires Matches(bytes, p) && p < q < p + |PATTERN|
    ensures !Matches(bytes, q)
  {
    FirstByteOnce(q - p);
    MatchByte(bytes, p, q - p);
    MatchStart(bytes, q);
  }

  /** Jumping behind a match skips no key. */
  lemma JumpSkipsNothing(bytes: seq<byte>, from: nat, p: nat, keys: set<string>)
    requires from <= |bytes| && FirstMatch(bytes, from) == Some(p)
    requires KeysFrom(bytes, p + |PATTERN|, keys)
    ensures KeysFrom(bytes, from, keys + if KeyAt(bytes, p).Some? then {KeyAt(bytes, p).value} else {})
  {
    hide ValueAt;
    var all := keys + if KeyAt(bytes, p).Some? then {KeyAt(bytes, p).value} else {};
    forall q | from <= q < |bytes| && KeyAt(bytes, q).Some?
      ensures KeyAt(bytes, q).value in all
    {
      if p < q < p + |PATTERN| { NoOverlap(bytes, p, q); }
    }
    forall k | k in all
      ensures exists q :: from <= q < |bytes| && KeyAt(bytes, q) == Some(k)
    {
      if k in keys {
        var q :| p + |PATTERN| <= q < |bytes| && KeyAt(bytes, q) == Some(k);
      } else {
        assert KeyAt(bytes, p) == Some(k);
      }
    }
  }

  /** When no match is left, or the length field of the first one is cut off, there are no more keys. */
  lemma NothingLeft(bytes: seq<byte>, from: nat)
    requires from <= |bytes|
    requires var first := FirstMatch(bytes, from); first.None? || first.value + |PATTERN| + 4 > |bytes|
    ensures KeysFrom(bytes, from, {})
  {
  }

  /** Keys found so far, together with the keys still to come, are all the keys. */
  ghost predicate Rest(bytes: seq<byte>, sounds: set<string>, cursor: nat) {
    forall keys :: KeysFrom(bytes, cursor, keys) ==> KeysFrom(bytes, 0, sounds + keys)
  }

  lemma RestNext(bytes: seq<byte>, sounds: set<string>, cursor: nat, p: nat)
    requires cursor <= |bytes| && Rest(bytes, sounds, cursor) && FirstMatch(bytes, cursor) == Some(p)
    ensures Rest(bytes, sounds + (if KeyAt(bytes, p).Some? then {KeyAt(bytes, p).value} else {}), p + |PATTERN|)
  {
    hide KeyAt, KeysFrom;
    var found := if KeyAt(bytes, p).Some? then {KeyAt(bytes, p).value} else {};
    forall keys | KeysFrom(bytes, p + |PATTERN|, keys)
      ensures KeysFrom(bytes, 0, sounds + found + keys)
    {
      JumpSkipsNothing(bytes, cursor, p, keys);
      assert sounds + (keys + found) == sounds + found + keys;
    }
  }

  /** Reads the value behind a matched key. */
  method ReadValue(bytes: seq<byte>, at: nat) returns (value: Option<string>)
    requires at + 4 <= |bytes|
    ensures value == ValueAt(bytes, at)
  {
    hide Strict, Accepted;
    value := None;
    var units := Natural(bytes[at..at + 4]);
    if 1 <= units <= 256 {
      var start := at + 4;
      var end := start + 2 * units;
      if end <= |bytes| {
        var text := Strict(BytesUnits(bytes[start..end]));
        if text.Some? { value := Accepted(text.value); }
      }
    }
  }

  method TrackSoundKeys(bytes: seq<byte>) returns (sounds: set<string>)
    ensures KeysFrom(bytes, 0, sounds)
  {
    hide Matches, ValueAt, KeysFrom, Rest;
    var cursor := 0;
    sounds := {};
    Start(bytes);
    var found := FirstMatch(bytes, cursor);
    while found.Some?
      invariant cursor <= |bytes| && found == FirstMatch(bytes, cursor)
      invariant Rest(bytes, sounds, cursor)
      decreases |bytes| - cursor
    {
      MatchFits(bytes, found.value);
      var valueLengthOffset := found.value + |PATTERN|;
      if valueLengthOffset + 4 > |bytes| { break; }
      RestNext(bytes, sounds, cursor, found.value);
      var value := ReadValue(bytes, valueLengthOffset);
      sounds := sounds + if value.Some? then {value.value} else {};
      cursor := valueLengthOffset;
      found := FirstMatch(bytes, cursor);
    }
    NothingLeft(bytes, cursor);
    Finish(bytes, sounds, cursor);
  }

  lemma MatchFits(bytes: seq<byte>, p: nat)
    requires Matches(bytes, p)
    ensures p + |PATTERN| <= |bytes|
  {
  }

  lemma Start(bytes: seq<byte>)
    ensures Rest(bytes, {}, 0)
  {
  }

  lemma Finish(bytes: seq<byte>, sounds: set<string>, cursor: nat)
    requires Rest(bytes, sounds, cursor) && KeysFrom(bytes, cursor, {})
    ensures KeysFrom(bytes, 0, sounds)
  {
  }

  // ---------------------------------------------------------------- what a key is

  predicate AllPadding(s: string) {
    forall i :: 0 <= i < |s| ==> s[i] == '\0' || s[i] == ' ' || s[i] == '\t'
  }

  /** The trimmed text of a value. */
  predicate Bare(s: string) {
    s != "" && !Padding(s[0]) && !Padding(s[|s| - 1])
  }

  lemma {:induction false} FrontTrims(front: string, s: string)
    requires AllPadding(front) && (s == "" || !Padding(s[0]))
    ensures TrimFront(front + s) == s
  {
    if front == "" {
      assert front + s == s;
    } else {
      assert (front + s)[1..] == front[1..] + s;
      FrontTrims(front[1..], s);
    }
  }

  lemma {:induction false} BackTrims(s: string, back: string)
    requires AllPadding(back) && (s == "" || !Padding(s[|s| - 1]))
    ensures TrimBack(s + back) == s
    decreases |back|
  {
    if back == "" {
      assert s + back == s;
    } else {
      assert (s + back)[..|s + back| - 1] == s + back[..|back| - 1];
      BackTrims(s, back[..|back| - 1]);
    }
  }

  lemma PadMore(c: char, pad: string)
    requires Padding(c) && AllPadding(pad)
    ensures AllPadding([c] + pad)
  {
  }

  lemma {:induction false} FrontPads(s: string) returns (k: nat)
    ensures k <= |s| && AllPadding(s[..k]) && TrimFront(s) == s[k..]
    ensures TrimFront(s) == "" || !Padding(TrimFront(s)[0])
  {
    if s != "" && Padding(s[0]) {
      hide AllPadding;
      var rest := FrontPads(s[1..]);
      k := rest + 1;
      assert s[..k] == [s[0]] + s[1..][..rest];
      PadMore(s[0], s[1..][..rest]);
      assert s[1..][rest..] == s[k..];
    } else {
      k := 0;
      assert s[0..] == s;
    }
  }

  lemma {:induction false} BackPads(s: string) returns (k: nat)
    ensures k <= |s| && AllPadding(s[k..]) && TrimBack(s) == s[..k]
    ensures k > 0 ==> !Padding(s[k - 1])
    decreases |s|
  {
    if s != "" && Padding(s[|s| - 1]) {
      var last := |s| - 1;
      k := BackPads(s[..last]);
      assert s[k..] == s[..last][k..] + [s[last]];
      assert s[..last][..k] == s[..k];
    } else {
      k := |s|;
      assert s[..k] == s;
    }
  }

  /** A value names a sound when, without the padding around it, it is a relative path without NUL and colon. */
  lemma AcceptedExactly(front: string, s: string, back: string)
    requires AllPadding(front) && AllPadding(back) && Bare(s)
    ensures Accepted(front + s + back).Some? <==> '\0' !in s && ':' !in s && s[0] != '/' && s[0] != '\\'
    ensures Accepted(front + s + back).Some? ==>
              var k := Accepted(front + s + back).value;
              |k| == |s| && forall i :: 0 <= i < |s| ==> k[i] == if s[i] == '\\' then '/' else s[i]
  {
    FrontTrims(front, s + back);
    BackTrims(s, back);
    assert front + s + back == front + (s + back);
  }

  lemma AcceptedParts(value: string) returns (front: string, s: string, back: string)
    requires Accepted(value).Some?
    ensures AllPadding(front) && AllPadding(back) && Bare(s) && value == front + s + back
  {
    var i := FrontPads(value);
    var trimmed := TrimFront(value);
    var j := BackPads(trimmed);
    front, s, back := value[..i], trimmed[..j], trimmed[j..];
    assert value == front + (s + back);
  }

  /** The bytes of a key with its value: the word, the number of code units, and the value. */
  function KeyImage(value: string): seq<byte> {
    UnitBytes(Units("filename")) + Digits(|Units(value)|, 4) + UnitBytes(Units(value))
  }

  /** A key stands at an offset exactly when the bytes there are those of a value of 1 to 256 units naming a sound. */
  lemma KeyExactly(bytes: seq<byte>, p: nat)
    ensures KeyAt(bytes, p).Some? <==>
              exists value :: 1 <= |Units(value)| <= 256 && Accepted(value).Some?
                              && p <= |bytes| && KeyImage(value) <= bytes[p..]
    ensures forall value :: 1 <= |Units(value)| <= 256 && p <= |bytes| && KeyImage(value) <= bytes[p..] ==>
                              KeyAt(bytes, p) == Accepted(value)
  {
    hide Accepted, Units, UnitBytes, BytesUnits, Strict, Digits, Natural;
    forall value | 1 <= |Units(value)| <= 256 && p <= |bytes| && KeyImage(value) <= bytes[p..]
      ensures KeyAt(bytes, p) == Accepted(value)
    {
      KeyRead(bytes, p, value);
    }
    if KeyAt(bytes, p).Some? {
      var value := KeyValue(bytes, p);
      assert Accepted(value).Some?;
    }
  }

  lemma KeyRead(bytes: seq<byte>, p: nat, value: string)
    requires 1 <= |Units(value)| <= 256 && p <= |bytes| && KeyImage(value) <= bytes[p..]
    ensures KeyAt(bytes, p) == Accepted(value)
  {
    hide Accepted, Units, UnitBytes, BytesUnits, Strict, Digits, Natural;
    PatternIsFilename();
    var n, at := |Units(value)|, p + 16;
    var image := KeyImage(value);
    assert bytes[p..p + |image|] == image;
    assert bytes[p..p + 16] == image[..16] == PATTERN;
    assert bytes[at..at + 4] == image[16..20] == Digits(n, 4);
    assert bytes[at + 4..at + 4 + 2 * n] == image[20..] == UnitBytes(Units(value));
    Pow256Values();
    DigitsNatural(n, 4);
    UnitBytesRoundTrip(Units(value));
    UnitsRoundTrip(value);
  }

  lemma KeyValue(bytes: seq<byte>, p: nat) returns (value: string)
    requires KeyAt(bytes, p).Some?
    ensures 1 <= |Units(value)| <= 256 && p <= |bytes| && KeyImage(value) <= bytes[p..]
    ensures KeyAt(bytes, p) == Accepted(value)
  {
    hide Accepted, Units, UnitBytes, BytesUnits, Strict, Digits, Natural;
    PatternIsFilename();
    var at := p + 16;
    var n := Natural(bytes[at..at + 4]);
    var encoded := bytes[at + 4..at + 4 + 2 * n];
    var units := BytesUnits(encoded);
    value := Strict(units).value;
    StrictInverse(units);
    BytesUnitsRoundTrip(encoded);
    NaturalDigits(bytes[at..at + 4]);
    var image := KeyImage(value);
    assert bytes[p..][..|image|] == bytes[p..p + 16] + bytes[at..at + 4] + encoded;
    assert image == bytes[p..p + 16] + bytes[at..at + 4] + encoded;
  }
}
