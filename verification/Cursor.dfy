/** The client oracle's packet cursor: bounded reads of bytes, hashes, counts and UTF-16 names. */
module Cursor {
  import opened LittleEndian
  import opened Utf16
  import opened Reading

  datatype DecodeError =
    | UnexpectedEof(offset: nat, needed: nat, remaining: nat)
    | UnexpectedHash(packet: string, expected: nat, actual: nat)
    | InvalidCount(field: string, number: int, maximum: nat)
    | InvalidUtf16(name: string)
    | TrailingBytes(from: nat, left: nat)

  type Read<T> = ReadWith<T, DecodeError>

  type Result<T> = ResultWith<T, DecodeError>

  function Bytes(input: seq<byte>, at: nat, length: nat): Read<seq<byte>> {
    if at + length <= |input| then Got(input[at..at + length], at + length)
    else Failed(UnexpectedEof(at, length, if at <= |input| then |input| - at else 0))
  }

  // ---------------------------------------------------- counts and strings

  function ReadCount(input: seq<byte>, at: nat, field: string, maximum: nat): Read<nat> {
    match Bytes(input, at, 4)
    case Failed(e) => Failed(e)
    case Got(bytes, next) =>
      var value := Signed(bytes);
      if value < 0 || value > maximum then Failed(InvalidCount(field, value, maximum)) else Got(value, next)
  }

  function ReadUnits(input: seq<byte>, at: nat, count: nat, done: seq<unit16>): Read<seq<unit16>>
    decreases count
  {
    if count == 0 then Got(done, at)
    else
      match Bytes(input, at, 2)
      case Failed(e) => Failed(e)
      case Got(bytes, next) =>
        Pow256Values();
        ReadUnits(input, next, count - 1, done + [Natural(bytes) as unit16])
  }

  function ReadUtf16(input: seq<byte>, at: nat, field: string, maximum: nat): Read<string> {
    match ReadCount(input, at, field, maximum)
    case Failed(e) => Failed(e)
    case Got(count, body) =>
      match ReadUnits(input, body, count, [])
      case Failed(e) => Failed(e)
      case Got(units, next) =>
        var s := Strict(units);
        if s.None? then Failed(InvalidUtf16(field)) else Got(s.value, next)
  }

  function ReadHash(input: seq<byte>, at: nat, packet: string, expected: nat): Read<()> {
    match Bytes(input, at, 4)
    case Failed(e) => Failed(e)
    case Got(bytes, next) =>
      if Natural(bytes) == expected then Got((), next) else Failed(UnexpectedHash(packet, expected, Natural(bytes)))
  }

  predicate NameFits(s: string, maximum: nat) {
    |Units(s)| <= maximum && |Units(s)| <= 0x7FFF_FFFF
  }

  function NameImage(s: string): seq<byte> {
    Digits(|Units(s)|, 4) + UnitBytes(Units(s))
  }

  // ---------------------------------------------------------- exactness

  lemma HashRead(packet: seq<byte>, at: nat, name: string, expected: nat)
    requires expected < 0x1_0000_0000
    ensures Shows(packet, at, Digits(expected, 4)) <==> ReadHash(packet, at, name, expected).Got?
    ensures ReadHash(packet, at, name, expected).Got? ==> ReadHash(packet, at, name, expected) == Got((), at + 4)
  {
    Pow256Values();
    DigitsNatural(expected, 4);
    if at + 4 <= |packet| { NaturalDigits(packet[at..at + 4]); }
  }

  lemma CountRead(input: seq<byte>, at: nat, n: nat, field: string, maximum: nat)
    requires Shows(input, at, Digits(n, 4)) && n <= maximum && n <= 0x7FFF_FFFF
    ensures ReadCount(input, at, field, maximum) == Got(n, at + 4)
  {
    Pow256Values();
    SignedRoundTrip(n, 4);
  }

  lemma CountAccepted(input: seq<byte>, at: nat, field: string, maximum: nat)
    requires ReadCount(input, at, field, maximum).Got?
    ensures var r := ReadCount(input, at, field, maximum);
            && r.value <= maximum && r.value <= 0x7FFF_FFFF && r.at == at + 4
            && Shows(input, at, Digits(r.value, 4))
  {
    Pow256Values();
    SignedInverse(input[at..at + 4]);
  }

  lemma {:induction false} UnitsRead(input: seq<byte>, at: nat, units: seq<unit16>, done: seq<unit16>)
    requires Shows(input, at, UnitBytes(units))
    ensures ReadUnits(input, at, |units|, done) == Got(done + units, at + 2 * |units|)
    decreases units
  {
    hide Shows, Digits, Natural;
    if units == [] {
      assert done + units == done;
    } else {
      Pow256Values();
      DigitsNatural(units[0] as int, 2);
      var first := Digits(units[0] as int, 2);
      ShowsSplit(input, at, first, UnitBytes(units[1..]));
      ShowsMeans(input, at, first);
      UnitsRead(input, at + 2, units[1..], done + [units[0]]);
      assert done + [units[0]] + units[1..] == done + units;
    }
  }

  lemma {:induction false} UnitsAccepted(input: seq<byte>, at: nat, count: nat, done: seq<unit16>)
    requires ReadUnits(input, at, count, done).Got? && at <= |input|
    ensures var r := ReadUnits(input, at, count, done);
            && |r.value| == |done| + count && r.value[..|done|] == done && r.at == at + 2 * count
            && Shows(input, at, UnitBytes(r.value[|done|..]))
    decreases count
  {
    if count == 0 {
      assert input[at..at] == [];
    } else {
      Pow256Values();
      var first := input[at..at + 2];
      NaturalDigits(first);
      var more := done + [Natural(first) as unit16];
      UnitsAccepted(input, at + 2, count - 1, more);
      var r := ReadUnits(input, at, count, done).value;
      assert r[..|done|] == r[..|more|][..|done|] == done;
      assert r[|done|] == r[..|more|][|done|] == Natural(first) as unit16;
      assert r[|done|..][1..] == r[|more|..];
      ShowsSplit(input, at, first, UnitBytes(r[|more|..]));
    }
  }

  lemma NameRead(input: seq<byte>, at: nat, s: string, field: string, maximum: nat)
    requires Shows(input, at, NameImage(s)) && NameFits(s, maximum)
    ensures ReadUtf16(input, at, field, maximum) == Got(s, at + |NameImage(s)|)
  {
    hide Shows, ReadCount, ReadUnits, Strict;
    ShowsSplit(input, at, Digits(|Units(s)|, 4), UnitBytes(Units(s)));
    CountRead(input, at, |Units(s)|, field, maximum);
    UnitsRead(input, at + 4, Units(s), []);
    assert [] + Units(s) == Units(s);
    UnitsRoundTrip(s);
  }

  lemma NameAccepted(input: seq<byte>, at: nat, field: string, maximum: nat)
    requires ReadUtf16(input, at, field, maximum).Got?
    ensures var r := ReadUtf16(input, at, field, maximum);
            NameFits(r.value, maximum) && r.at == at + |NameImage(r.value)| && Shows(input, at, NameImage(r.value))
  {
    hide ReadCount, ReadUnits, Strict, UnitBytes, Digits;
    CountAccepted(input, at, field, maximum);
    var count := ReadCount(input, at, field, maximum).value;
    UnitsAccepted(input, at + 4, count, []);
    var units := ReadUnits(input, at + 4, count, []).value;
    assert units[0..] == units;
    StrictInverse(units);
    ShowsSplit(input, at, Digits(count, 4), UnitBytes(units));
  }

  // ------------------------------------------------------------- the cursor

  class PacketCursor {
    const bytes: seq<byte>
    var offset: nat

    constructor (packet: seq<byte>)
      ensures bytes == packet && offset == 0
    {
      bytes := packet;
      offset := 0;
    }

    method Take(length: nat) returns (r: Result<seq<byte>>)
      modifies this
      ensures Follows(r, offset, Bytes(bytes, old(offset), length))
    {
      var end := offset + length;
      if end > |bytes| {
        return Err(UnexpectedEof(offset, length, if offset <= |bytes| then |bytes| - offset else 0));
      }
      r := Ok(bytes[offset..end]);
      offset := end;
    }

    method ExpectHash(packet: string, expected: nat) returns (r: Result<()>)
      modifies this
      ensures Follows(r, offset, ReadHash(bytes, old(offset), packet, expected))
    {
      var taken :- Take(4);
      var actual := Natural(taken);
      r := if actual == expected then Ok(()) else Err(UnexpectedHash(packet, expected, actual));
    }

    method Count(field: string, maximum: nat) returns (r: Result<nat>)
      modifies this
      ensures Follows(r, offset, ReadCount(bytes, old(offset), field, maximum))
    {
      var taken :- Take(4);
      var value := Signed(taken);
      r := if value < 0 || value > maximum then Err(InvalidCount(field, value, maximum)) else Ok(value);
    }

    method Utf16(field: string, maximum: nat) returns (r: Result<string>)
      modifies this
      ensures Follows(r, offset, ReadUtf16(bytes, old(offset), field, maximum))
    {
      hide ReadCount, Natural, Strict;
      var count :- Count(field, maximum);
      ghost var body := offset;
      var units: seq<unit16> := [];
      for i := 0 to count
        invariant ReadUnits(bytes, body, count, []) == ReadUnits(bytes, offset, count - i, units)
      {
        var taken :- Take(2);
        Pow256Values();
        units := units + [Natural(taken) as unit16];
      }
      var s := Strict(units);
      r := if s.None? then Err(InvalidUtf16(field)) else Ok(s.value);
    }

    method Finish() returns (r: Result<()>)
      ensures r == if offset >= |bytes| then Ok(()) else Err(TrailingBytes(offset, |bytes| - offset))
    {
      var remaining := if offset <= |bytes| then |bytes| - offset else 0;
      r := if remaining == 0 then Ok(()) else Err(TrailingBytes(offset, remaining));
    }
  }
}
