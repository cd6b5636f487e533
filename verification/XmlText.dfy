/** Decoding XML bytes to text and writing the text back in the encoding that was found. */
module XmlText {
  import opened Text
  import opened LittleEndian
  import opened Utf16

  // ---------------------------------------------------------------- UTF-8

  function Cont(n: nat): byte {
    (0x80 + n % 0x40) as byte
  }

  /** The bytes of one character (section 3 of RFC 3629). */
  function Utf8Of(c: char): (r: seq<byte>)
    ensures 1 <= |r| <= 4
  {
    var n := c as int;
    if n < 0x80 then [n as byte]
    else if n < 0x800 then [(0xC0 + n / 0x40) as byte, Cont(n)]
    else if n < 0x1_0000 then [(0xE0 + n / 0x40 / 0x40) as byte, Cont(n / 0x40), Cont(n)]
    else [(0xF0 + n / 0x40 / 0x40 / 0x40) as byte, Cont(n / 0x40 / 0x40), Cont(n / 0x40), Cont(n)]
  }

  predicate IsCont(b: byte) { 0x80 <= b <= 0xBF }

  predicate Second(b0: byte, b1: byte) {
    if b0 == 0xE0 then 0xA0 <= b1 <= 0xBF
    else if b0 == 0xED then 0x80 <= b1 <= 0x9F
    else if b0 == 0xF0 then 0x90 <= b1 <= 0xBF
    else if b0 == 0xF4 then 0x80 <= b1 <= 0x8F
    else IsCont(b1)
  }

  /** How many bytes a well-formed character at the front takes, or zero (section 4 of RFC 3629). */
  function Length(b: seq<byte>): (r: nat)
    ensures r <= |b| && r <= 4
  {
    if b == [] then 0
    else if b[0] < 0x80 then 1
    else if |b| < 2 || !Second(b[0], b[1]) then 0
    else if 0xC2 <= b[0] <= 0xDF then 2
    else if |b| < 3 || !IsCont(b[2]) then 0
    else if 0xE0 <= b[0] <= 0xEF then 3
    else if |b| < 4 || !IsCont(b[3]) then 0
    else if 0xF0 <= b[0] <= 0xF4 then 4
    else 0
  }

  function Low6(b: byte): nat {
    b as int % 0x40
  }

  function Scalar(b: seq<byte>): nat
    requires Length(b) > 0
  {
    var l, b0 := Length(b), b[0] as int;
    if l == 1 then b0
    else if l == 2 then (b0 - 0xC0) * 0x40 + Low6(b[1])
    else if l == 3 then ((b0 - 0xE0) * 0x40 + Low6(b[1])) * 0x40 + Low6(b[2])
    else (((b0 - 0xF0) * 0x40 + Low6(b[1])) * 0x40 + Low6(b[2])) * 0x40 + Low6(b[3])
  }

  predicate IsScalar(n: int) {
    0 <= n < 0xD800 || 0xE000 <= n < 0x11_0000
  }

  lemma ScalarIsChar(b: seq<byte>)
    requires Length(b) > 0
    ensures IsScalar(Scalar(b))
  {
  }

  function Utf8Bytes(s: string): seq<byte> {
    if s == "" then [] else Utf8Of(s[0]) + Utf8Bytes(s[1..])
  }

  /** `str::from_utf8`. */
  function Utf8Text(b: seq<byte>): Option<string> {
    if b == [] then Some("")
    else if Length(b) == 0 then None
    else
      ScalarIsChar(b);
      var rest := Utf8Text(b[Length(b)..]);
      if rest.None? then None else Some([Scalar(b) as char] + rest.value)
  }

  lemma CharFront(c: char, tail: seq<byte>)
    ensures var b := Utf8Of(c) + tail;
            Length(b) == |Utf8Of(c)| && Scalar(b) == c as int && b[Length(b)..] == tail
  {
    CharLength(c, tail);
    CharScalar(c, tail);
  }

  lemma CharLength(c: char, tail: seq<byte>)
    ensures Length(Utf8Of(c) + tail) == |Utf8Of(c)|
  {
  }

  lemma Sixes(q: nat, r: nat)
    requires r < 0x40
    ensures (q * 0x40 + r) / 0x40 == q && (q * 0x40 + r) % 0x40 == r
  {
  }

  lemma LowCont(n: nat)
    ensures Low6(Cont(n)) == n % 0x40
  {
  }

  lemma CharScalar(c: char, tail: seq<byte>)
    requires Length(Utf8Of(c) + tail) == |Utf8Of(c)|
    ensures Scalar(Utf8Of(c) + tail) == c as int
  {
    hide Length, Cont, Low6;
    var u, n := Utf8Of(c), c as int;
    var b := u + tail;
    assert forall i :: 0 <= i < |u| ==> b[i] == u[i];
    LowCont(n);
    LowCont(n / 0x40);
    LowCont(n / 0x40 / 0x40);
    Sixths(n);
    Sixths(n / 0x40);
    Sixths(n / 0x40 / 0x40);
  }

  lemma Sixths(n: nat)
    ensures n == n / 0x40 * 0x40 + n % 0x40
  {
  }

  lemma {:induction false} TextBack(s: string)
    ensures Utf8Text(Utf8Bytes(s)) == Some(s)
  {
    hide Utf8Of, Length, Scalar;
    if s != "" {
      CharFront(s[0], Utf8Bytes(s[1..]));
      TextBack(s[1..]);
      assert [s[0]] + s[1..] == s;
    }
  }

  lemma ContLow(b: byte)
    requires IsCont(b)
    ensures b as int == 0x80 + Low6(b) && Low6(b) < 0x40
  {
  }

  lemma TwoBytes(h: nat, x: nat)
    requires 2 <= h < 0x20 && x < 0x40
    ensures Utf8Of((h * 0x40 + x) as char) == [(0xC0 + h) as byte, (0x80 + x) as byte]
  {
  }

  lemma ThreeBytes(h: nat, x: nat, y: nat)
    requires h < 0x10 && x < 0x40 && y < 0x40 && h * 0x40 + x >= 0x20 && IsScalar((h * 0x40 + x) * 0x40 + y)
    ensures Utf8Of(((h * 0x40 + x) * 0x40 + y) as char) == [(0xE0 + h) as byte, (0x80 + x) as byte, (0x80 + y) as byte]
  {
  }

  lemma FourBytes(h: nat, x: nat, y: nat, z: nat)
    requires h < 5 && x < 0x40 && y < 0x40 && z < 0x40 && h * 0x40 + x >= 0x10
    requires IsScalar(((h * 0x40 + x) * 0x40 + y) * 0x40 + z)
    ensures Utf8Of((((h * 0x40 + x) * 0x40 + y) * 0x40 + z) as char)
         == [(0xF0 + h) as byte, (0x80 + x) as byte, (0x80 + y) as byte, (0x80 + z) as byte]
  {
    Sixes((h * 0x40 + x) * 0x40 + y, z);
    Sixes(h * 0x40 + x, y);
    Sixes(h, x);
  }

  lemma ScalarFront(b: seq<byte>)
    requires Length(b) > 0 && IsScalar(Scalar(b))
    ensures Utf8Of(Scalar(b) as char) == b[..Length(b)]
  {
    hide Low6;
    var l := Length(b);
    if l == 1 {
      assert b[..1] == [b[0]];
    } else {
      ContLow(b[1]);
      if l == 2 {
        TwoBytes(b[0] as int - 0xC0, Low6(b[1]));
      } else {
        ContLow(b[2]);
        if l == 3 {
          ThreeBytes(b[0] as int - 0xE0, Low6(b[1]), Low6(b[2]));
        } else {
          ContLow(b[3]);
          FourBytes(b[0] as int - 0xF0, Low6(b[1]), Low6(b[2]), Low6(b[3]));
        }
      }
    }
  }

  lemma {:induction false} BytesBack(b: seq<byte>)
    requires Utf8Text(b).Some?
    ensures Utf8Bytes(Utf8Text(b).value) == b
  {
    hide Utf8Of, Length, Scalar;
    if b != [] {
      ScalarIsChar(b);
      ScalarFront(b);
      var rest := b[Length(b)..];
      BytesBack(rest);
      var s := Utf8Text(b).value;
      assert s[0] == Scalar(b) as char && s[1..] == Utf8Text(rest).value;
      assert b == b[..Length(b)] + rest;
    }
  }

  // ------------------------------------------------------------ the encodings

  datatype Encoding = Utf16LeBom | Utf8Bom | Utf8

  datatype Decoded = Text(text: string, encoding: Encoding) | OddLength | BadUtf16 | BadUtf8

  const BOM16: seq<byte> := [0xFF, 0xFE]
  const BOM8: seq<byte> := [0xEF, 0xBB, 0xBF]

  function Decode(bytes: seq<byte>): Decoded {
    if BOM16 <= bytes then
      var payload := bytes[2..];
      if |payload| % 2 != 0 then OddLength
      else
        var text := Strict(BytesUnits(payload));
        if text.None? then BadUtf16 else Text(text.value, Utf16LeBom)
    else if BOM8 <= bytes then
      var text := Utf8Text(bytes[3..]);
      if text.None? then BadUtf8 else Text(text.value, Utf8Bom)
    else
      var text := Utf8Text(bytes);
      if text.None? then BadUtf8 else Text(text.value, Utf8)
  }

  function Encode(text: string, encoding: Encoding): seq<byte> {
    match encoding
    case Utf16LeBom => BOM16 + UnitBytes(Units(text))
    case Utf8Bom => BOM8 + Utf8Bytes(text)
    case Utf8 => Utf8Bytes(text)
  }

  /** Whatever decodes is written back byte for byte, surrogate pairs (section 2 of RFC 2781) and marks included. */
  lemma DecodedBytesComeBack(bytes: seq<byte>)
    requires Decode(bytes).Text?
    ensures Encode(Decode(bytes).text, Decode(bytes).encoding) == bytes
  {
    hide Utf8Text, Utf8Bytes, Strict, Units, UnitBytes, BytesUnits;
    if BOM16 <= bytes {
      StrictInverse(BytesUnits(bytes[2..]));
      BytesUnitsRoundTrip(bytes[2..]);
      assert BOM16 + bytes[2..] == bytes;
    } else if BOM8 <= bytes {
      BytesBack(bytes[3..]);
      assert BOM8 + bytes[3..] == bytes;
    } else {
      BytesBack(bytes);
    }
  }

  /** A text without a mark of its own. */
  predicate NoMark(text: string) {
    text == "" || text[0] != '\U{FEFF}'
  }

  lemma MarkBytes(text: string)
    ensures !(BOM16 <= Utf8Bytes(text))
    ensures BOM8 <= Utf8Bytes(text) <==> !NoMark(text)
  {
    if text != "" {
      var b, u := Utf8Bytes(text), Utf8Of(text[0]);
      assert b == u + Utf8Bytes(text[1..]);
      assert forall i :: 0 <= i < |u| ==> b[i] == u[i];
      assert u[0] != 0xFF;
      if text[0] == '\U{FEFF}' {
        assert u == BOM8 by { assert 0xFEFF / 0x40 % 0x40 == 0x3B && 0xFEFF % 0x40 == 0x3F; }
        assert b[..3] == u;
      } else if BOM8 <= b {
        assert b[0] == 0xEF && b[1] == 0xBB && b[2] == 0xBF;
        MarkOnly(text[0]);
      }
    }
  }

  lemma MarkOnly(c: char)
    requires Utf8Of(c)[0] == 0xEF
    ensures |Utf8Of(c)| == 3 && (Utf8Of(c)[1] == 0xBB && Utf8Of(c)[2] == 0xBF ==> c == '\U{FEFF}')
  {
  }

  /** Written text reads back under its encoding, exactly unless it is unmarked UTF-8 that begins with a mark. */
  lemma EncodedTextComesBack(text: string, encoding: Encoding)
    ensures Decode(Encode(text, encoding)) == Text(text, encoding) <==> encoding != Utf8 || NoMark(text)
  {
    hide Utf8Text, Utf8Bytes, Strict, Units, UnitBytes, BytesUnits;
    var bytes := Encode(text, encoding);
    match encoding {
      case Utf16LeBom =>
        UnitBytesRoundTrip(Units(text));
        UnitsRoundTrip(text);
        assert bytes[2..] == UnitBytes(Units(text));
      case Utf8Bom =>
        TextBack(text);
        assert bytes[3..] == Utf8Bytes(text) && bytes[0] == 0xEF;
      case Utf8 =>
        TextBack(text);
        MarkBytes(text);
    }
  }

  // ------------------------------------------------------- literally

  /** One to four bytes by the character's range, with the value spread over them (section 3 of RFC 3629). */
  lemma Utf8Exactly(c: char)
    ensures var n, r := c as int, Utf8Of(c);
            && (forall i :: 1 <= i < |r| ==> 0x80 <= r[i] <= 0xBF)
            && (if n < 0x80 then |r| == 1 && r[0] as int == n
                else if n < 0x800 then
                  |r| == 2 && 0xC2 <= r[0] <= 0xDF && n == (r[0] as int - 0xC0) * 0x40 + (r[1] as int - 0x80)
                else if n < 0x1_0000 then
                  |r| == 3 && 0xE0 <= r[0] <= 0xEF
                  && n == ((r[0] as int - 0xE0) * 0x40 + (r[1] as int - 0x80)) * 0x40 + (r[2] as int - 0x80)
                else
                  |r| == 4 && 0xF0 <= r[0] <= 0xF4
                  && n == (((r[0] as int - 0xF0) * 0x40 + (r[1] as int - 0x80)) * 0x40 + (r[2] as int - 0x80)) * 0x40
                          + (r[3] as int - 0x80))
  {
    Sixths(c as int);
    Sixths(c as int / 0x40);
    Sixths(c as int / 0x40 / 0x40);
  }

  /** UTF-8 is refused exactly when it is the encoding of no text. */
  lemma Utf8Refuses(b: seq<byte>)
    ensures Utf8Text(b).None? <==> forall s :: Utf8Bytes(s) != b
  {
    hide Utf8Text, Utf8Bytes;
    if Utf8Text(b).Some? { BytesBack(b); }
    forall s | Utf8Bytes(s) == b
      ensures Utf8Text(b).Some?
    {
      TextBack(s);
    }
  }

  /** The encoding is told by the leading bytes, and a failure says what is wrong with the bytes behind them. */
  lemma DecodeExactly(bytes: seq<byte>)
    ensures var r := Decode(bytes);
            if [0xFF, 0xFE] <= bytes then
              && (r == OddLength <==> |bytes| % 2 != 0)
              && (r == BadUtf16 <==> |bytes| % 2 == 0 && forall s :: UnitBytes(Units(s)) != bytes[2..])
              && (r.Text? ==> r.encoding == Utf16LeBom && bytes[2..] == UnitBytes(Units(r.text)))
              && r != BadUtf8
            else if [0xEF, 0xBB, 0xBF] <= bytes then
              && (r == BadUtf8 <==> forall s :: Utf8Bytes(s) != bytes[3..])
              && (r.Text? ==> r.encoding == Utf8Bom && bytes[3..] == Utf8Bytes(r.text))
              && r != OddLength && r != BadUtf16
            else
              && (r == BadUtf8 <==> forall s :: Utf8Bytes(s) != bytes)
              && (r.Text? ==> r.encoding == Utf8 && bytes == Utf8Bytes(r.text))
              && r != OddLength && r != BadUtf16
  {
    hide Utf8Text, Utf8Bytes, Strict, Units, UnitBytes, BytesUnits;
    if BOM16 <= bytes {
      if |bytes| % 2 == 0 {
        var payload := bytes[2..];
        StrictRefuses(BytesUnits(payload));
        BytesUnitsRoundTrip(payload);
        forall s
          ensures UnitBytes(Units(s)) == payload <==> Units(s) == BytesUnits(payload)
        {
          UnitBytesRoundTrip(Units(s));
        }
        if Strict(BytesUnits(payload)).Some? { StrictInverse(BytesUnits(payload)); }
      }
    } else if BOM8 <= bytes {
      Utf8Refuses(bytes[3..]);
      if Utf8Text(bytes[3..]).Some? { BytesBack(bytes[3..]); }
    } else {
      Utf8Refuses(bytes);
      if Utf8Text(bytes).Some? { BytesBack(bytes); }
    }
  }

  /** Written text is the mark of its encoding, if any, and the text in that encoding. */
  lemma EncodeExactly(text: string)
    ensures Encode(text, Utf16LeBom) == [0xFF, 0xFE] + UnitBytes(Units(text))
    ensures Encode(text, Utf8Bom) == [0xEF, 0xBB, 0xBF] + Utf8Bytes(text)
    ensures Encode(text, Utf8) == Utf8Bytes(text)
  {
  }
}
