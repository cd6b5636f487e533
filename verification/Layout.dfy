/** Rows of packet fields: the sequences of typed reads from which the packet readers are built. */
module Layout {
  import opened LittleEndian
  import opened Reading
  import opened Cursor

  /** A signed or unsigned little-endian number, uninterpreted bytes, or a counted UTF-16 name. */
  datatype Kind = Int(width: nat) | Nat(width: nat) | Raw(width: nat) | Name(caption: string, maximum: nat)

  datatype Val = Num(n: int) | Blob(bytes: seq<byte>) | Str(text: string)

  function NumAt(vs: seq<Val>, i: nat): int {
    if i < |vs| && vs[i].Num? then vs[i].n else 0
  }

  function BlobAt(vs: seq<Val>, i: nat): seq<byte> {
    if i < |vs| && vs[i].Blob? then vs[i].bytes else []
  }

  function StrAt(vs: seq<Val>, i: nat): string {
    if i < |vs| && vs[i].Str? then vs[i].text else ""
  }

  predicate Suits(v: Val, k: Kind) {
    match k
    case Int(w) => v.Num? && w > 0 && InRange(v.n, w)
    case Nat(w) => v.Num? && 0 <= v.n < Pow256(w)
    case Raw(w) => v.Blob? && |v.bytes| == w
    case Name(_, maximum) => v.Str? && NameFits(v.text, maximum)
  }

  predicate AllSuit(vs: seq<Val>, ks: seq<Kind>) {
    |vs| == |ks| && forall i :: 0 <= i < |ks| ==> Suits(vs[i], ks[i])
  }

  predicate Sized(ks: seq<Kind>) {
    forall i :: 0 <= i < |ks| ==> (ks[i].Int? ==> ks[i].width > 0)
  }

  function FromBytes(bytes: seq<byte>, k: Kind): Val {
    if k.Int? then Num(Signed(bytes)) else if k.Nat? then Num(Natural(bytes)) else Blob(bytes)
  }

  function ReadField(input: seq<byte>, at: nat, k: Kind): Read<Val> {
    if k.Name? then
      match ReadUtf16(input, at, k.caption, k.maximum)
      case Failed(e) => Failed(e)
      case Got(s, next) => Got(Str(s), next)
    else
      match Bytes(input, at, k.width)
      case Failed(e) => Failed(e)
      case Got(bytes, next) => Got(FromBytes(bytes, k), next)
  }

  function FieldImage(v: Val, k: Kind): seq<byte>
    requires Suits(v, k)
  {
    match k
    case Int(w) => SignedDigits(v.n, w)
    case Nat(w) => Digits(v.n, w)
    case Raw(_) => v.bytes
    case Name(_, _) => NameImage(v.text)
  }

  function ReadFields(input: seq<byte>, at: nat, ks: seq<Kind>): Read<seq<Val>>
    decreases ks
  {
    if ks == [] then Got([], at)
    else
      match ReadField(input, at, ks[0])
      case Failed(e) => Failed(e)
      case Got(v, middle) =>
        match ReadFields(input, middle, ks[1..])
        case Failed(e) => Failed(e)
        case Got(rest, next) => Got([v] + rest, next)
  }

  function FieldsImage(vs: seq<Val>, ks: seq<Kind>): seq<byte>
    requires AllSuit(vs, ks)
    decreases ks
  {
    if ks == [] then [] else FieldImage(vs[0], ks[0]) + FieldsImage(vs[1..], ks[1..])
  }

  // ------------------------------------------------------------------- rows

  /** A row is a fixed list of fields, or an `i32` tag that selects the fields behind it. */
  datatype Row = Plain(fields: seq<Kind>) | Tagged(cases: map<int, seq<Kind>>, others: seq<Kind>) {
    predicate Valid() {
      if Plain? then Sized(fields) else Sized(others) && forall t :: t in cases ==> Sized(cases[t])
    }

    function Shape(tag: int): seq<Kind>
      requires Tagged?
    {
      if tag in cases then cases[tag] else others
    }

    /** The fields a row with these values has. */
    function Kinds(vs: seq<Val>): seq<Kind> {
      if Plain? then fields
      else if vs != [] && vs[0].Num? then [Int(4)] + Shape(vs[0].n)
      else [Int(4)]
    }
  }

  function ReadRow(input: seq<byte>, at: nat, row: Row): Read<seq<Val>> {
    if row.Plain? then ReadFields(input, at, row.fields)
    else
      match ReadField(input, at, Int(4))
      case Failed(e) => Failed(e)
      case Got(tag, middle) =>
        match ReadFields(input, middle, row.Shape(if tag.Num? then tag.n else 0))
        case Failed(e) => Failed(e)
        case Got(rest, next) => Got([tag] + rest, next)
  }

  predicate RowSuits(vs: seq<Val>, row: Row) {
    AllSuit(vs, row.Kinds(vs))
  }

  function RowImage(vs: seq<Val>, row: Row): seq<byte>
    requires RowSuits(vs, row)
  {
    FieldsImage(vs, row.Kinds(vs))
  }

  predicate RowsSuit(vss: seq<seq<Val>>, row: Row) {
    forall i :: 0 <= i < |vss| ==> RowSuits(vss[i], row)
  }

  function RowsImage(vss: seq<seq<Val>>, row: Row): seq<byte>
    requires RowsSuit(vss, row)
  {
    if vss == [] then [] else RowImage(vss[0], row) + RowsImage(vss[1..], row)
  }

  function ReadRows(input: seq<byte>, at: nat, row: Row, count: nat, done: seq<seq<Val>>): Read<seq<seq<Val>>>
    decreases count
  {
    if count == 0 then Got(done, at)
    else
      match ReadRow(input, at, row)
      case Failed(e) => Failed(e)
      case Got(vs, next) => ReadRows(input, next, row, count - 1, done + [vs])
  }

  /** An `i32` count and that many rows. */
  function ReadCounted(input: seq<byte>, at: nat, caption: string, maximum: nat, row: Row): Read<seq<seq<Val>>> {
    match ReadCount(input, at, caption, maximum)
    case Failed(e) => Failed(e)
    case Got(count, next) => ReadRows(input, next, row, count, [])
  }

  function CountedImage(vss: seq<seq<Val>>, row: Row): seq<byte>
    requires RowsSuit(vss, row)
  {
    Digits(|vss|, 4) + RowsImage(vss, row)
  }

  // -------------------------------------------------------------- exactness

  lemma FieldRead(input: seq<byte>, at: nat, v: Val, k: Kind)
    requires Suits(v, k) && Shows(input, at, FieldImage(v, k))
    ensures ReadField(input, at, k) == Got(v, at + |FieldImage(v, k)|)
  {
    hide NameFits, NameImage, ReadUtf16, Signed, Natural, InRange, Digits, SignedDigits;
    match k {
      case Int(w) => SignedRoundTrip(v.n, w);
      case Nat(w) => DigitsNatural(v.n, w);
      case Raw(_) =>
      case Name(caption, maximum) => NameRead(input, at, v.text, caption, maximum);
    }
  }

  lemma FieldAccepted(input: seq<byte>, at: nat, k: Kind)
    requires ReadField(input, at, k).Got? && (k.Int? ==> k.width > 0)
    ensures var r := ReadField(input, at, k);
            Suits(r.value, k) && r.at == at + |FieldImage(r.value, k)| && Shows(input, at, FieldImage(r.value, k))
  {
    hide NameFits, NameImage, ReadUtf16, Signed, Natural, InRange, Digits, SignedDigits;
    match k {
      case Int(w) => SignedInverse(input[at..at + w]);
      case Nat(w) => NaturalDigits(input[at..at + w]);
      case Raw(_) =>
      case Name(caption, maximum) => NameAccepted(input, at, caption, maximum);
    }
  }

  lemma {:induction false} FieldsRead(input: seq<byte>, at: nat, vs: seq<Val>, ks: seq<Kind>)
    requires AllSuit(vs, ks) && Shows(input, at, FieldsImage(vs, ks))
    ensures ReadFields(input, at, ks) == Got(vs, at + |FieldsImage(vs, ks)|)
    decreases ks
  {
    hide Suits, ReadField, FieldImage, Shows;
    if ks != [] {
      var first, rest := FieldImage(vs[0], ks[0]), FieldsImage(vs[1..], ks[1..]);
      ShowsSplit(input, at, first, rest);
      FieldRead(input, at, vs[0], ks[0]);
      FieldsRead(input, at + |first|, vs[1..], ks[1..]);
      assert vs == [vs[0]] + vs[1..];
    } else {
      assert vs == [];
    }
  }

  lemma ShowsNothing(input: seq<byte>, at: nat)
    requires at <= |input|
    ensures Shows(input, at, [])
  {
  }

  lemma {:induction false} FieldsAccepted(input: seq<byte>, at: nat, ks: seq<Kind>)
    requires ReadFields(input, at, ks).Got? && Sized(ks) && at <= |input|
    ensures var r := ReadFields(input, at, ks);
            && AllSuit(r.value, ks)
            && r.at == at + |FieldsImage(r.value, ks)|
            && Shows(input, at, FieldsImage(r.value, ks))
    decreases ks
  {
    hide Suits, ReadField, FieldImage, Shows;
    if ks == [] {
      ShowsNothing(input, at);
    } else {
      FieldAccepted(input, at, ks[0]);
      var head := ReadField(input, at, ks[0]);
      var first := FieldImage(head.value, ks[0]);
      ShowsMeans(input, at, first);
      FieldsAccepted(input, head.at, ks[1..]);
      var r := ReadFields(input, at, ks).value;
      assert r[1..] == ReadFields(input, head.at, ks[1..]).value;
      ShowsSplit(input, at, first, FieldsImage(r[1..], ks[1..]));
    }
  }

  lemma RowRead(input: seq<byte>, at: nat, vs: seq<Val>, row: Row)
    requires RowSuits(vs, row) && Shows(input, at, RowImage(vs, row))
    ensures ReadRow(input, at, row) == Got(vs, at + |RowImage(vs, row)|)
  {
    hide ReadField, FieldImage, Shows;
    if row.Plain? {
      FieldsRead(input, at, vs, row.fields);
    } else {
      var shape := row.Kinds(vs)[1..];
      assert Suits(vs[0], Int(4));
      assert shape == row.Shape(vs[0].n);
      var first := FieldImage(vs[0], Int(4));
      ShowsSplit(input, at, first, FieldsImage(vs[1..], shape));
      FieldRead(input, at, vs[0], Int(4));
      FieldsRead(input, at + |first|, vs[1..], shape);
      assert vs == [vs[0]] + vs[1..];
    }
  }

  lemma RowAccepted(input: seq<byte>, at: nat, row: Row)
    requires ReadRow(input, at, row).Got? && row.Valid() && at <= |input|
    ensures var r := ReadRow(input, at, row);
            RowSuits(r.value, row) && r.at == at + |RowImage(r.value, row)| && Shows(input, at, RowImage(r.value, row))
  {
    hide ReadField, FieldImage, Shows;
    if row.Plain? {
      FieldsAccepted(input, at, row.fields);
    } else {
      FieldAccepted(input, at, Int(4));
      var head := ReadField(input, at, Int(4));
      assert head.value.Num?;
      var shape := row.Shape(head.value.n);
      var first := FieldImage(head.value, Int(4));
      ShowsMeans(input, at, first);
      FieldsAccepted(input, head.at, shape);
      var vs := ReadRow(input, at, row).value;
      var ks := row.Kinds(vs);
      assert vs[1..] == ReadFields(input, head.at, shape).value && ks[1..] == shape && ks[0] == Int(4);
      forall i | 0 <= i < |ks|
        ensures Suits(vs[i], ks[i])
      {
        if i > 0 { assert Suits(vs[1..][i - 1], shape[i - 1]); }
      }
      ShowsSplit(input, at, first, FieldsImage(vs[1..], shape));
    }
  }

  lemma {:induction false} RowsRead(input: seq<byte>, at: nat, row: Row, vss: seq<seq<Val>>, done: seq<seq<Val>>)
    requires RowsSuit(vss, row) && Shows(input, at, RowsImage(vss, row))
    ensures ReadRows(input, at, row, |vss|, done) == Got(done + vss, at + |RowsImage(vss, row)|)
    decreases vss
  {
    hide RowSuits, RowImage, ReadRow, Shows;
    if vss == [] {
      assert done + vss == done;
    } else {
      var first := RowImage(vss[0], row);
      ShowsSplit(input, at, first, RowsImage(vss[1..], row));
      RowRead(input, at, vss[0], row);
      RowsRead(input, at + |first|, row, vss[1..], done + [vss[0]]);
      assert done + [vss[0]] + vss[1..] == done + vss;
    }
  }

  lemma {:induction false} RowsAccepted(input: seq<byte>, at: nat, row: Row, count: nat, done: seq<seq<Val>>)
    requires ReadRows(input, at, row, count, done).Got? && row.Valid() && at <= |input|
    ensures var r := ReadRows(input, at, row, count, done);
            && |r.value| == |done| + count && r.value[..|done|] == done
            && RowsSuit(r.value[|done|..], row) && r.at == at + |RowsImage(r.value[|done|..], row)|
            && Shows(input, at, RowsImage(r.value[|done|..], row))
    decreases count
  {
    hide RowSuits, RowImage, ReadRow, Shows;
    if count == 0 {
      ShowsNothing(input, at);
    } else {
      RowAccepted(input, at, row);
      var head := ReadRow(input, at, row);
      var first := RowImage(head.value, row);
      ShowsMeans(input, at, first);
      var more := done + [head.value];
      RowsAccepted(input, head.at, row, count - 1, more);
      var r := ReadRows(input, at, row, count, done).value;
      var tail := r[|done|..];
      assert r[..|done|] == r[..|more|][..|done|] == done;
      assert tail[0] == r[..|more|][|done|] == head.value;
      assert tail[1..] == r[|more|..];
      forall i | 0 <= i < |tail|
        ensures RowSuits(tail[i], row)
      {
        if i > 0 { assert RowSuits(tail[1..][i - 1], row); }
      }
      ShowsSplit(input, at, first, RowsImage(tail[1..], row));
    }
  }

  lemma CountedRead(input: seq<byte>, at: nat, caption: string, maximum: nat, row: Row, vss: seq<seq<Val>>)
    requires RowsSuit(vss, row) && |vss| <= maximum && |vss| <= 0x7FFF_FFFF && Shows(input, at, CountedImage(vss, row))
    ensures ReadCounted(input, at, caption, maximum, row) == Got(vss, at + |CountedImage(vss, row)|)
  {
    hide RowsSuit, RowsImage, ReadRows, Shows, ReadCount, Digits;
    ShowsSplit(input, at, Digits(|vss|, 4), RowsImage(vss, row));
    CountRead(input, at, |vss|, caption, maximum);
    RowsRead(input, at + 4, row, vss, []);
    assert [] + vss == vss;
  }

  lemma CountedAccepted(input: seq<byte>, at: nat, caption: string, maximum: nat, row: Row)
    requires ReadCounted(input, at, caption, maximum, row).Got? && row.Valid() && at <= |input|
    ensures var r := ReadCounted(input, at, caption, maximum, row);
            && |r.value| <= maximum && |r.value| <= 0x7FFF_FFFF && RowsSuit(r.value, row)
            && r.at == at + |CountedImage(r.value, row)| && Shows(input, at, CountedImage(r.value, row))
  {
    hide RowsSuit, RowsImage, ReadRows, Shows, ReadCount, Digits;
    CountAccepted(input, at, caption, maximum);
    var count := ReadCount(input, at, caption, maximum).value;
    ShowsMeans(input, at, Digits(count, 4));
    RowsAccepted(input, at + 4, row, count, []);
    var vss := ReadRows(input, at + 4, row, count, []).value;
    assert vss[0..] == vss;
    ShowsSplit(input, at, Digits(count, 4), RowsImage(vss, row));
  }

  lemma SuitsAt(vs: seq<Val>, ks: seq<Kind>, i: nat)
    requires AllSuit(vs, ks) && i < |ks|
    ensures |vs| == |ks|
    ensures ks[i].Raw? ==> vs[i] == Blob(BlobAt(vs, i))
    ensures ks[i].Int? || ks[i].Nat? ==> vs[i] == Num(NumAt(vs, i))
    ensures ks[i].Name? ==> vs[i] == Str(StrAt(vs, i))
  {
  }

  // ------------------------------------------------------------ fixed width

  predicate Fixed(ks: seq<Kind>) {
    forall i :: 0 <= i < |ks| ==> !ks[i].Name?
  }

  function Width(ks: seq<Kind>): nat
    requires Fixed(ks)
  {
    if ks == [] then 0 else ks[0].width + Width(ks[1..])
  }

  lemma {:induction false} FieldsWidth(vs: seq<Val>, ks: seq<Kind>)
    requires AllSuit(vs, ks) && Fixed(ks)
    ensures |FieldsImage(vs, ks)| == Width(ks)
    decreases ks
  {
    if ks != [] { FieldsWidth(vs[1..], ks[1..]); }
  }

  lemma RowWidth(vs: seq<Val>, row: Row)
    requires RowSuits(vs, row) && row.Plain? && Fixed(row.fields)
    ensures |RowImage(vs, row)| == Width(row.fields)
  {
    FieldsWidth(vs, row.fields);
  }

  lemma {:induction false} RowsWidth(vss: seq<seq<Val>>, row: Row)
    requires RowsSuit(vss, row) && row.Plain? && Fixed(row.fields)
    ensures |RowsImage(vss, row)| == |vss| * Width(row.fields)
  {
    hide Width, FieldsImage, AllSuit, Fixed;
    if vss != [] {
      var w := Width(row.fields);
      FieldsWidth(vss[0], row.fields);
      RowsWidth(vss[1..], row);
      assert |vss| * w == w + (|vss| - 1) * w;
    }
  }

  // ---------------------------------------------------------------- methods

  method TakeField(reader: PacketCursor, k: Kind) returns (r: Result<Val>)
    modifies reader
    ensures Follows(r, reader.offset, ReadField(reader.bytes, old(reader.offset), k))
  {
    hide ReadUtf16, Bytes, FromBytes;
    if k.Name? {
      var s :- reader.Utf16(k.caption, k.maximum);
      r := Ok(Str(s));
    } else {
      var taken :- reader.Take(k.width);
      r := Ok(FromBytes(taken, k));
    }
  }

  /** A run of typed reads. */
  method TakeFields(reader: PacketCursor, ks: seq<Kind>) returns (r: Result<seq<Val>>)
    modifies reader
    ensures Follows(r, reader.offset, ReadFields(reader.bytes, old(reader.offset), ks))
  {
    hide ReadField;
    var vs: seq<Val> := [];
    ghost var start := reader.offset;
    assert ks[0..] == ks;
    ghost var all := ReadFields(reader.bytes, start, ks);
    if all.Got? { assert vs + all.value == all.value; }
    for i := 0 to |ks|
      invariant all == match ReadFields(reader.bytes, reader.offset, ks[i..])
                       case Failed(e) => Failed(e)
                       case Got(rest, next) => Got(vs + rest, next)
    {
      assert ks[i..][0] == ks[i] && ks[i..][1..] == ks[i + 1..];
      ghost var here := ReadFields(reader.bytes, reader.offset, ks[i..]);
      ghost var before := vs;
      var v :- TakeField(reader, ks[i]);
      vs := vs + [v];
      if here.Got? { assert before + here.value == vs + here.value[1..]; }
    }
    assert vs + [] == vs;
    r := Ok(vs);
  }

  method TakeRow(reader: PacketCursor, row: Row) returns (r: Result<seq<Val>>)
    modifies reader
    ensures Follows(r, reader.offset, ReadRow(reader.bytes, old(reader.offset), row))
  {
    hide ReadFields, ReadField;
    if row.Plain? {
      r := TakeFields(reader, row.fields);
    } else {
      var tag :- TakeField(reader, Int(4));
      var rest :- TakeFields(reader, row.Shape(if tag.Num? then tag.n else 0));
      r := Ok([tag] + rest);
    }
  }
}
