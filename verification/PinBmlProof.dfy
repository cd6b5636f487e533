/** The PIN tree codec: exactly what is written, exactly what is accepted, and the way back. */
module PinBmlProof {
  import Text
  import opened LittleEndian
  import opened Utf16
  import opened Reading
  import opened PinBml

  // ---------------------------------------------------------------- writing

  /** Writing succeeds exactly when the value fits and there is room, and then appends its image. */
  ghost predicate Appends(r: Written, fits: bool, output: seq<byte>, maximum: nat, image: seq<byte>, nodes: nat) {
    && (r.Wrote? <==> fits && |output| + |image| <= maximum)
    && (r.Wrote? ==> r.output == output + image && r.nodes == nodes)
  }

  lemma Assoc(a: seq<byte>, b: seq<byte>, c: seq<byte>)
    ensures (a + b) + c == a + (b + c)
  {
  }

  lemma StringWritten(output: seq<byte>, maximum: nat, s: string, limits: CodecLimits, nodes: nat)
    ensures Appends(WriteString(output, maximum, s, limits, nodes), StringFits(s, limits), output, maximum,
        StringImage(s), nodes)
  {
  }

  lemma StringsWritten(output: seq<byte>, maximum: nat, s: string, t: string, limits: CodecLimits, nodes: nat)
    ensures Appends(WriteStrings(output, maximum, s, t, limits, nodes), StringFits(s, limits) && StringFits(t, limits),
                    output, maximum, StringsImage(s, t), nodes)
  {
    hide WriteString, StringFits, StringImage;
    StringWritten(output, maximum, s, limits, nodes);
    var out1 := output + StringImage(s);
    StringWritten(out1, maximum, t, limits, nodes);
    Assoc(output, StringImage(s), StringImage(t));
  }

  lemma {:induction false} AttributesWritten(output: seq<byte>, maximum: nat, attributes: Attributes,
      limits: CodecLimits, nodes: nat)
    requires |output| <= maximum
    ensures Appends(WriteAttributes(output, maximum, attributes, limits, nodes), AttributesFit(attributes, limits),
                    output, maximum, AttributesImage(attributes), nodes)
    decreases attributes
  {
    hide WriteStrings, StringFits, StringsImage;
    if attributes == [] {
      assert output + [] == output;
    } else {
      var k, v, rest := attributes[0].0, attributes[0].1, attributes[1..];
      AttributesFitCons(attributes, limits);
      StringsWritten(output, maximum, k, v, limits, nodes);
      var out2 := output + StringsImage(k, v);
      if |out2| <= maximum { AttributesWritten(out2, maximum, rest, limits, nodes); }
      Assoc(output, StringsImage(k, v), AttributesImage(rest));
    }
  }

  lemma AttributesFitCons(attributes: Attributes, limits: CodecLimits)
    requires attributes != []
    ensures AttributesFit(attributes, limits) <==>
            && StringFits(attributes[0].0, limits)
            && StringFits(attributes[0].1, limits)
            && AttributesFit(attributes[1..], limits)
  {
  }

  lemma CountWritten(output: seq<byte>, maximum: nat, n: nat, field: string, limit: nat, nodes: nat)
    ensures Appends(WriteCount(output, maximum, n, field, limit, nodes), CountFits(n, limit), output, maximum,
        Digits(n, 4), nodes)
  {
  }

  lemma AttributeListWritten(output: seq<byte>, maximum: nat, attributes: Attributes, limits: CodecLimits, nodes: nat)
    ensures Appends(WriteAttributeList(output, maximum, attributes, limits, nodes),
                    CountFits(|attributes|, limits.maxCollectionItems) && AttributesFit(attributes, limits),
                    output, maximum, AttributeListImage(attributes), nodes)
  {
    hide WriteAttributes, WriteCount, CountFits, AttributesFit, AttributesImage;
    CountWritten(output, maximum, |attributes|, "BML attribute count", limits.maxCollectionItems, nodes);
    var out1 := output + Digits(|attributes|, 4);
    if |out1| <= maximum { AttributesWritten(out1, maximum, attributes, limits, nodes); }
    Assoc(output, Digits(|attributes|, 4), AttributesImage(attributes));
  }

  lemma HeaderWritten(output: seq<byte>, maximum: nat, t: BmlObject, limits: CodecLimits, nodes: nat)
    ensures Appends(WriteHeader(output, maximum, t, limits, nodes), HeaderFits(t, limits), output, maximum,
        HeaderImage(t), nodes)
  {
    hide WriteStrings, WriteAttributeList, WriteCount, StringFits, CountFits, AttributesFit, StringsImage,
        AttributeListImage;
    var a, b, c := StringsImage(t.name, t.value), AttributeListImage(t.attributes), Digits(|t.children|, 4);
    StringsWritten(output, maximum, t.name, t.value, limits, nodes);
    AttributeListWritten(output + a, maximum, t.attributes, limits, nodes);
    CountWritten(output + a + b, maximum, |t.children|, "BML child count", limits.maxCollectionItems, nodes);
    Assoc(output, a, b);
    Assoc(output, a + b, c);
  }

  /** Writing a tree succeeds exactly when it fits the limits, the node budget and the payload bound. */
  lemma {:induction false} BmlWritten(output: seq<byte>, maximum: nat, t: BmlObject, limits: CodecLimits,
      nodes: nat, depth: nat)
    requires |output| <= maximum
    ensures Appends(WriteBml(output, maximum, t, limits, nodes, depth),
                    Fits(t, limits, depth) && BudgetFits(nodes + Size(t), limits),
                    output, maximum, Image(t), nodes + Size(t))
    decreases t, 0
  {
    hide WriteHeader, HeaderFits, HeaderImage;
    HeaderWritten(output, maximum, t, limits, nodes + 1);
    var out5 := output + HeaderImage(t);
    if |out5| <= maximum && nodes + 1 <= limits.maxBmlNodes && nodes + 1 <= USIZE_MAX {
      ChildrenWritten(out5, maximum, t.children, limits, nodes + 1, depth + 1);
    }
    assert Fits(t, limits, depth) <==>
      && depth <= limits.maxBmlDepth && depth < USIZE_MAX
      && HeaderFits(t, limits) && AllFit(t.children, limits, depth + 1);
    Assoc(output, HeaderImage(t), ImageAll(t.children));
  }

  lemma {:induction false} ChildrenWritten(output: seq<byte>, maximum: nat, ts: seq<BmlObject>,
      limits: CodecLimits, nodes: nat, depth: nat)
    requires |output| <= maximum && BudgetFits(nodes, limits)
    ensures Appends(WriteChildren(output, maximum, ts, limits, nodes, depth),
                    AllFit(ts, limits, depth) && BudgetFits(nodes + SizeAll(ts), limits),
                    output, maximum, ImageAll(ts), nodes + SizeAll(ts))
    decreases ts, 0
  {
    hide WriteBml, Fits, Image, Size;
    if ts == [] {
      assert output + [] == output;
    } else {
      var rest := ts[1..];
      BmlWritten(output, maximum, ts[0], limits, nodes, depth);
      AllFitCons(ts, limits, depth);
      var out1 := output + Image(ts[0]);
      if |out1| <= maximum && BudgetFits(nodes + Size(ts[0]), limits) {
        ChildrenWritten(out1, maximum, rest, limits, nodes + Size(ts[0]), depth);
      }
      Assoc(output, Image(ts[0]), ImageAll(rest));
    }
  }

  lemma AllFitCons(ts: seq<BmlObject>, limits: CodecLimits, depth: nat)
    requires ts != []
    ensures AllFit(ts, limits, depth) <==> Fits(ts[0], limits, depth) && AllFit(ts[1..], limits, depth)
  {
  }

  // ---------------------------------------------------------------- reading

  lemma CountRead(input: seq<byte>, at: nat, n: nat, field: string, limit: nat)
    requires Shows(input, at, Digits(n, 4)) && CountFits(n, limit)
    ensures ReadCount(input, at, field, limit) == Got(n, at + 4)
  {
    Pow256Values();
    SignedRoundTrip(n, 4);
  }

  lemma StringRead(input: seq<byte>, at: nat, s: string, limits: CodecLimits)
    requires Shows(input, at, StringImage(s)) && StringFits(s, limits)
    ensures ReadString(input, at, limits) == Got(s, at + |StringImage(s)|)
  {
    hide ReadCount;
    var n := |Units(s)|;
    ShowsSplit(input, at, Digits(n, 4), UnitBytes(Units(s)));
    CountRead(input, at, n, "UTF-16 string", limits.maxStringCodeUnits);
    UnitBytesRoundTrip(Units(s));
    UnitsRoundTrip(s);
  }

  lemma StringsRead(input: seq<byte>, at: nat, s: string, t: string, limits: CodecLimits)
    requires Shows(input, at, StringsImage(s, t)) && StringFits(s, limits) && StringFits(t, limits)
    ensures ReadStrings(input, at, limits) == Got((s, t), at + |StringsImage(s, t)|)
  {
    hide ReadString, StringFits, StringImage, Shows;
    ShowsSplit(input, at, StringImage(s), StringImage(t));
    StringRead(input, at, s, limits);
    StringRead(input, at + |StringImage(s)|, t, limits);
  }

  lemma {:induction false} AttributesRead(input: seq<byte>, at: nat, limits: CodecLimits, attributes: Attributes,
      done: Attributes)
    requires Shows(input, at, AttributesImage(attributes)) && AttributesFit(attributes, limits)
    requires DistinctKeys(done + attributes)
    ensures ReadAttributes(input, at, limits, |attributes|, done)
         == Got(done + attributes, at + |AttributesImage(attributes)|)
    decreases attributes
  {
    hide ReadString, StringFits, StringImage, Shows;
    if attributes == [] {
      assert done + attributes == done;
    } else {
      var k, v, rest := attributes[0].0, attributes[0].1, attributes[1..];
      AttributesFitCons(attributes, limits);
      ShowsSplit(input, at, StringsImage(k, v), AttributesImage(rest));
      ShowsSplit(input, at, StringImage(k), StringImage(v));
      StringRead(input, at, k, limits);
      StringRead(input, at + |StringImage(k)|, v, limits);
      if HasKey(done, k) {
        var i :| 0 <= i < |done| && done[i].0 == k;
        assert (done + attributes)[i].0 == (done + attributes)[|done|].0;
      }
      assert (done + [(k, v)]) + rest == done + attributes;
      AttributesRead(input, at + |StringsImage(k, v)|, limits, rest, done + [(k, v)]);
    }
  }

  lemma AttributeListRead(input: seq<byte>, at: nat, limits: CodecLimits, attributes: Attributes)
    requires Shows(input, at, AttributeListImage(attributes)) && DistinctKeys(attributes)
    requires CountFits(|attributes|, limits.maxCollectionItems) && AttributesFit(attributes, limits)
    ensures ReadAttributeList(input, at, limits) == Got(attributes, at + |AttributeListImage(attributes)|)
  {
    hide ReadCount, ReadAttributes, Shows, AttributesFit, AttributesImage, CountFits;
    ShowsSplit(input, at, Digits(|attributes|, 4), AttributesImage(attributes));
    CountRead(input, at, |attributes|, "BML attribute count", limits.maxCollectionItems);
    assert [] + attributes == attributes;
    AttributesRead(input, at + 4, limits, attributes, []);
  }

  lemma HeaderRead(input: seq<byte>, at: nat, limits: CodecLimits, t: BmlObject)
    requires Shows(input, at, HeaderImage(t)) && HeaderFits(t, limits) && DistinctKeys(t.attributes)
    ensures ReadHeader(input, at, limits)
         == Got(Header(t.name, t.value, t.attributes, |t.children|), at + |HeaderImage(t)|)
  {
    hide ReadStrings, ReadAttributeList, ReadCount, Shows, AttributesFit, StringsImage, AttributeListImage,
        CountFits, StringFits, DistinctKeys;
    var a, b, c := StringsImage(t.name, t.value), AttributeListImage(t.attributes), Digits(|t.children|, 4);
    ShowsSplit(input, at, a + b, c);
    ShowsSplit(input, at, a, b);
    StringsRead(input, at, t.name, t.value, limits);
    AttributeListRead(input, at + |a|, limits, t.attributes);
    CountRead(input, at + |a| + |b|, |t.children|, "BML child count", limits.maxCollectionItems);
  }

  /** Wherever the image of a fitting tree stands in the input, reading there returns that tree. */
  lemma {:induction false} BmlRead(input: seq<byte>, at: nat, limits: CodecLimits, nodes: nat, depth: nat, t: BmlObject)
    requires Shows(input, at, Image(t)) && Fits(t, limits, depth) && NoDuplicates(t)
    requires BudgetFits(nodes + Size(t), limits)
    ensures ReadBml(input, at, limits, nodes, depth) == Got(Counted(t, nodes + Size(t)), at + |Image(t)|)
    decreases t, 0
  {
    hide ReadHeader, HeaderFits, HeaderImage, Shows, DistinctKeys;
    ShowsSplit(input, at, HeaderImage(t), ImageAll(t.children));
    HeaderRead(input, at, limits, t);
    assert AllFit(t.children, limits, depth + 1);
    ChildrenRead(input, at + |HeaderImage(t)|, limits, nodes + 1, depth + 1, t.children, []);
    assert [] + t.children == t.children;
  }

  lemma {:induction false} ChildrenRead(input: seq<byte>, at: nat, limits: CodecLimits, nodes: nat, depth: nat,
                                        ts: seq<BmlObject>, done: seq<BmlObject>)
    requires Shows(input, at, ImageAll(ts)) && AllFit(ts, limits, depth)
    requires forall i :: 0 <= i < |ts| ==> NoDuplicates(ts[i])
    requires BudgetFits(nodes + SizeAll(ts), limits)
    ensures ReadChildren(input, at, limits, nodes, depth, |ts|, done)
         == Got(Counted(done + ts, nodes + SizeAll(ts)), at + |ImageAll(ts)|)
    decreases ts, 0
  {
    hide ReadBml, Fits, Image, Size, Shows, NoDuplicates;
    if ts == [] {
      assert done + ts == done;
    } else {
      var t, rest := ts[0], ts[1..];
      AllFitCons(ts, limits, depth);
      ShowsSplit(input, at, Image(t), ImageAll(rest));
      BmlRead(input, at, limits, nodes, depth, t);
      assert (done + [t]) + rest == done + ts;
      ChildrenRead(input, at + |Image(t)|, limits, nodes + Size(t), depth, rest, done + [t]);
    }
  }

  /** The first attribute whose key an earlier one has. */
  predicate RepeatsFirst(attributes: Attributes, i: nat) {
    i < |attributes| && DistinctKeys(attributes[..i]) && HasKey(attributes[..i], attributes[i].0)
  }

  lemma {:induction false} SomeRepeat(attributes: Attributes) returns (i: nat)
    requires !DistinctKeys(attributes)
    ensures RepeatsFirst(attributes, i)
    decreases |attributes|
  {
    var n := |attributes| - 1;
    var front := attributes[..n];
    if DistinctKeys(front) {
      i := n;
      var a, b :| 0 <= a < b < |attributes| && attributes[a].0 == attributes[b].0;
      assert forall k :: 0 <= k < n ==> front[k] == attributes[k];
      assert b == n;
      assert front[a].0 == attributes[n].0;
    } else {
      i := SomeRepeat(front);
      assert attributes[..i] == front[..i];
    }
  }

  lemma {:induction false} RepeatRefused(input: seq<byte>, at: nat, limits: CodecLimits, attributes: Attributes,
                                         done: Attributes, i: nat)
    requires Shows(input, at, AttributesImage(attributes)) && AttributesFit(attributes, limits)
    requires i < |attributes| && DistinctKeys(done + attributes[..i])
    requires HasKey(done + attributes[..i], attributes[i].0)
    ensures ReadAttributes(input, at, limits, |attributes|, done) == Failed(DuplicateBmlAttribute(attributes[i].0))
    decreases attributes
  {
    hide ReadString, StringFits, StringImage, Shows;
    var k, v, rest := attributes[0].0, attributes[0].1, attributes[1..];
    AttributesFitCons(attributes, limits);
    ShowsSplit(input, at, StringsImage(k, v), AttributesImage(rest));
    ShowsSplit(input, at, StringImage(k), StringImage(v));
    StringRead(input, at, k, limits);
    if i == 0 {
      assert done + attributes[..0] == done;
    } else {
      StringRead(input, at + |StringImage(k)|, v, limits);
      var all := done + attributes[..i];
      assert all[|done|] == attributes[0] && forall j :: 0 <= j < |done| ==> all[j] == done[j];
      assert (done + [(k, v)]) + rest[..i - 1] == all;
      RepeatRefused(input, at + |StringsImage(k, v)|, limits, rest, done + [(k, v)], i - 1);
    }
  }

  /** Reading the image of an attribute list stops at the first key that was there before, and names it. */
  lemma RepeatedKeyRefused(input: seq<byte>, at: nat, limits: CodecLimits, attributes: Attributes, i: nat)
    requires Shows(input, at, AttributeListImage(attributes)) && RepeatsFirst(attributes, i)
    requires CountFits(|attributes|, limits.maxCollectionItems) && AttributesFit(attributes, limits)
    ensures ReadAttributeList(input, at, limits) == Failed(DuplicateBmlAttribute(attributes[i].0))
  {
    hide ReadCount, ReadAttributes, Shows, AttributesFit, AttributesImage, CountFits;
    ShowsSplit(input, at, Digits(|attributes|, 4), AttributesImage(attributes));
    CountRead(input, at, |attributes|, "BML attribute count", limits.maxCollectionItems);
    assert [] + attributes[..i] == attributes[..i];
    RepeatRefused(input, at + 4, limits, attributes, [], i);
  }

  predicate Duplicate(e: PinCodecError) {
    e.DuplicateBmlAttribute?
  }

  /** The image of a fitting tree with a repeated key anywhere is refused for a repeated key, and for nothing else. */
  lemma {:induction false} BmlRefused(input: seq<byte>, at: nat, limits: CodecLimits, nodes: nat, depth: nat,
                                      t: BmlObject)
    requires Shows(input, at, Image(t)) && Fits(t, limits, depth) && !NoDuplicates(t)
    requires BudgetFits(nodes + Size(t), limits)
    ensures var r := ReadBml(input, at, limits, nodes, depth); r.Failed? && Duplicate(r.error)
    decreases t, 0
  {
    hide ReadAttributeList, ReadStrings, ReadCount, HeaderFits, Shows, DistinctKeys, AttributeListImage, StringsImage;
    ShowsSplit(input, at, HeaderImage(t), ImageAll(t.children));
    if DistinctKeys(t.attributes) {
      HeaderRead(input, at, limits, t);
      assert AllFit(t.children, limits, depth + 1);
      ChildrenRefused(input, at + |HeaderImage(t)|, limits, nodes + 1, depth + 1, t.children, []);
    } else {
      HeaderRefused(input, at, limits, t);
    }
  }

  lemma HeaderRefused(input: seq<byte>, at: nat, limits: CodecLimits, t: BmlObject)
    requires Shows(input, at, HeaderImage(t)) && HeaderFits(t, limits) && !DistinctKeys(t.attributes)
    ensures var r := ReadHeader(input, at, limits); r.Failed? && Duplicate(r.error)
  {
    hide ReadStrings, ReadAttributeList, ReadCount, Shows, AttributesFit, StringsImage, AttributeListImage,
        CountFits, StringFits, DistinctKeys, RepeatsFirst;
    var a, b, c := StringsImage(t.name, t.value), AttributeListImage(t.attributes), Digits(|t.children|, 4);
    ShowsSplit(input, at, a + b, c);
    ShowsSplit(input, at, a, b);
    StringsRead(input, at, t.name, t.value, limits);
    var i := SomeRepeat(t.attributes);
    RepeatedKeyRefused(input, at + |a|, limits, t.attributes, i);
  }

  lemma {:induction false} ChildrenRefused(input: seq<byte>, at: nat, limits: CodecLimits, nodes: nat, depth: nat,
                                           ts: seq<BmlObject>, done: seq<BmlObject>)
    requires Shows(input, at, ImageAll(ts)) && AllFit(ts, limits, depth)
    requires exists i :: 0 <= i < |ts| && !NoDuplicates(ts[i])
    requires BudgetFits(nodes + SizeAll(ts), limits)
    ensures var r := ReadChildren(input, at, limits, nodes, depth, |ts|, done); r.Failed? && Duplicate(r.error)
    decreases ts, 0
  {
    hide ReadBml, Fits, Image, Size, Shows, NoDuplicates;
    var t, rest := ts[0], ts[1..];
    AllFitCons(ts, limits, depth);
    ShowsSplit(input, at, Image(t), ImageAll(rest));
    if NoDuplicates(t) {
      BmlRead(input, at, limits, nodes, depth, t);
      var i :| 0 <= i < |ts| && !NoDuplicates(ts[i]);
      assert rest[i - 1] == ts[i];
      ChildrenRefused(input, at + |Image(t)|, limits, nodes + Size(t), depth, rest, done + [t]);
    } else {
      BmlRefused(input, at, limits, nodes, depth, t);
    }
  }

  // ------------------------------------------------------------- acceptance

  lemma CountAccepted(input: seq<byte>, at: nat, field: string, limit: nat)
    requires ReadCount(input, at, field, limit).Got?
    ensures var r := ReadCount(input, at, field, limit); CountFits(r.value, limit) && r.at == at + 4 <= |input|
  {
  }

  lemma StringAccepted(input: seq<byte>, at: nat, limits: CodecLimits)
    requires ReadString(input, at, limits).Got?
    ensures var r := ReadString(input, at, limits);
            StringFits(r.value, limits) && r.at == at + |StringImage(r.value)| <= |input|
  {
    hide ReadCount, Lossy, BytesUnits, Units, Digits, UnitBytes, Signed;
    CountAccepted(input, at, "UTF-16 string", limits.maxStringCodeUnits);
    var count := ReadCount(input, at, "UTF-16 string", limits.maxStringCodeUnits).value;
    LossyLength(BytesUnits(input[at + 4..at + 4 + 2 * count]));
  }

  lemma {:induction false} AttributesAccepted(input: seq<byte>, at: nat, limits: CodecLimits, count: nat,
      done: Attributes)
    requires ReadAttributes(input, at, limits, count, done).Got? && DistinctKeys(done)
    requires at <= |input|
    ensures var r := ReadAttributes(input, at, limits, count, done);
            && |r.value| == |done| + count && r.value[..|done|] == done && DistinctKeys(r.value)
            && AttributesFit(r.value[|done|..], limits)
            && r.at == at + |AttributesImage(r.value[|done|..])| <= |input|
    decreases count
  {
    hide ReadString, StringFits, StringImage;
    if count > 0 {
      StringAccepted(input, at, limits);
      var k := ReadString(input, at, limits);
      StringAccepted(input, k.at, limits);
      var v := ReadString(input, k.at, limits);
      var more := done + [(k.value, v.value)];
      assert DistinctKeys(more);
      AttributesAccepted(input, v.at, limits, count - 1, more);
      var r := ReadAttributes(input, v.at, limits, count - 1, more).value;
      assert r[..|done|] == r[..|more|][..|done|] == done;
      assert r[|done|] == r[..|more|][|done|] == (k.value, v.value);
      assert r[|done|..][1..] == r[|more|..];
      AttributesFitCons(r[|done|..], limits);
    }
  }

  lemma HeaderAccepted(input: seq<byte>, at: nat, limits: CodecLimits, children: seq<BmlObject>)
    requires ReadHeader(input, at, limits).Got? && ReadHeader(input, at, limits).value.children == |children|
    ensures var r := ReadHeader(input, at, limits);
            var t := BmlObject(r.value.name, r.value.value, r.value.attributes, children);
            HeaderFits(t, limits) && DistinctKeys(t.attributes) && r.at == at + |HeaderImage(t)| <= |input|
  {
    hide ReadString, StringFits, StringImage, ReadCount, CountFits, ReadAttributes, AttributesFit, AttributesImage;
    StringAccepted(input, at, limits);
    var first := ReadString(input, at, limits);
    StringAccepted(input, first.at, limits);
    var p2 := ReadString(input, first.at, limits).at;
    CountAccepted(input, p2, "BML attribute count", limits.maxCollectionItems);
    var count := ReadCount(input, p2, "BML attribute count", limits.maxCollectionItems).value;
    AttributesAccepted(input, p2 + 4, limits, count, []);
    var list := ReadAttributes(input, p2 + 4, limits, count, []);
    assert list.value[0..] == list.value;
    CountAccepted(input, list.at, "BML child count", limits.maxCollectionItems);
  }

  /** Every tree the reader returns is within the limits, repeats no key, and is paid for in the budget. */
  lemma {:induction false} BmlAccepted(input: seq<byte>, at: nat, limits: CodecLimits, nodes: nat, depth: nat)
    requires ReadBml(input, at, limits, nodes, depth).Got?
    ensures var r := ReadBml(input, at, limits, nodes, depth);
            var t := r.value.value;
            && Fits(t, limits, depth) && NoDuplicates(t)
            && r.value.nodes == nodes + Size(t) && BudgetFits(nodes + Size(t), limits)
            && r.at == at + |Image(t)| <= |input|
    decreases Room(depth, limits), 0
  {
    hide ReadHeader, HeaderFits, HeaderImage, DistinctKeys;
    var h := ReadHeader(input, at, limits);
    var c := ReadChildren(input, h.at, limits, nodes + 1, depth + 1, h.value.children, []);
    assert h.at <= |input| by {
      HeaderAccepted(input, at, limits, seq(h.value.children, i => BmlObject("", "", [], [])));
    }
    ChildrenAccepted(input, h.at, limits, nodes + 1, depth + 1, h.value.children, []);
    var ts := c.value.value;
    assert ts[0..] == ts;
    HeaderAccepted(input, at, limits, ts);
  }

  lemma {:induction false} ChildrenAccepted(input: seq<byte>, at: nat, limits: CodecLimits, nodes: nat, depth: nat,
                                            count: nat, done: seq<BmlObject>)
    requires ReadChildren(input, at, limits, nodes, depth, count, done).Got?
    requires at <= |input| && BudgetFits(nodes, limits)
    ensures var r := ReadChildren(input, at, limits, nodes, depth, count, done);
            && |r.value.value| == |done| + count && r.value.value[..|done|] == done
            && var ts := r.value.value[|done|..];
            && AllFit(ts, limits, depth) && (forall i :: 0 <= i < |ts| ==> NoDuplicates(ts[i]))
            && r.value.nodes == nodes + SizeAll(ts) && BudgetFits(nodes + SizeAll(ts), limits)
            && r.at == at + |ImageAll(ts)| <= |input|
    decreases Room(depth, limits), 1 + count
  {
    hide ReadBml, Fits, Image, Size, NoDuplicates;
    if count > 0 {
      BmlAccepted(input, at, limits, nodes, depth);
      var first := ReadBml(input, at, limits, nodes, depth);
      var more := done + [first.value.value];
      ChildrenAccepted(input, first.at, limits, first.value.nodes, depth, count - 1, more);
      var all := ReadChildren(input, first.at, limits, first.value.nodes, depth, count - 1, more).value.value;
      assert all[..|done|] == all[..|more|][..|done|] == done;
      assert all[|done|] == all[..|more|][|done|] == first.value.value;
      assert all[|done|..][1..] == all[|more|..];
      AllFitCons(all[|done|..], limits, depth);
    }
  }

  // ------------------------------------------------------------ the theorems

  /**
   Writing a tree anywhere in a payload and reading it back at that place returns the tree, the
   offset just behind it and the writer's own node count, exactly when no key is repeated.
   */
  lemma RoundTrip(output: seq<byte>, maximum: nat, after: seq<byte>, t: BmlObject, limits: CodecLimits, nodes: nat,
      depth: nat)
    requires |output| <= maximum
    requires WriteBml(output, maximum, t, limits, nodes, depth).Wrote?
    ensures var w := WriteBml(output, maximum, t, limits, nodes, depth);
            && w.nodes == nodes + Size(t)
            && (ReadBml(w.output + after, |output|, limits, nodes, depth) == Got(Counted(t, w.nodes), |w.output|)
                <==> NoDuplicates(t))
            && (!NoDuplicates(t) ==>
                  var r := ReadBml(w.output + after, |output|, limits, nodes, depth); r.Failed? && Duplicate(r.error))
  {
    hide ReadBml, WriteBml, Fits, NoDuplicates, Image;
    BmlWritten(output, maximum, t, limits, nodes, depth);
    var w := WriteBml(output, maximum, t, limits, nodes, depth);
    var input := w.output + after;
    assert input[|output|..|output| + |Image(t)|] == Image(t);
    if NoDuplicates(t) {
      BmlRead(input, |output|, limits, nodes, depth, t);
    } else {
      BmlRefused(input, |output|, limits, nodes, depth, t);
    }
  }

  /** A tree within the limits takes exactly the room of its image and reads back from it. */
  lemma Savable(t: BmlObject, limits: CodecLimits, nodes: nat, depth: nat)
    requires Fits(t, limits, depth) && NoDuplicates(t) && BudgetFits(nodes + Size(t), limits)
    ensures WriteBml([], |Image(t)|, t, limits, nodes, depth) == Wrote(Image(t), nodes + Size(t))
    ensures ReadBml(Image(t), 0, limits, nodes, depth) == Got(Counted(t, nodes + Size(t)), |Image(t)|)
  {
    hide ReadBml, WriteBml, Fits, NoDuplicates, Image;
    BmlWritten([], |Image(t)|, t, limits, nodes, depth);
    assert [] + Image(t) == Image(t);
    assert Image(t)[0..|Image(t)|] == Image(t);
    BmlRead(Image(t), 0, limits, nodes, depth, t);
  }

  /**
   Saving what was loaded: a tree accepted from any input can be written again under the same limits,
   takes exactly as many bytes as it took in the input, and reads back as the same tree.
   */
  lemma Resave(input: seq<byte>, at: nat, limits: CodecLimits, nodes: nat, depth: nat)
    requires ReadBml(input, at, limits, nodes, depth).Got?
    ensures var r := ReadBml(input, at, limits, nodes, depth);
            var image := Image(r.value.value);
            && WriteBml([], |image|, r.value.value, limits, nodes, depth) == Wrote(image, r.value.nodes)
            && r.at == at + |image|
            && ReadBml(image, 0, limits, nodes, depth) == Got(r.value, |image|)
  {
    hide ReadBml, WriteBml, Fits, NoDuplicates, Image;
    BmlAccepted(input, at, limits, nodes, depth);
    Savable(ReadBml(input, at, limits, nodes, depth).value.value, limits, nodes, depth);
  }

  // ------------------------------------------------------- removing children

  lemma {:induction false} OthersKept(ts: seq<BmlObject>, name: string)
    ensures forall t :: t in Others(ts, name) <==> t in ts && !Text.SameText(t.name, name)
    ensures SizeAll(Others(ts, name)) <= SizeAll(ts) && |Others(ts, name)| <= |ts|
    ensures |ImageAll(Others(ts, name))| <= |ImageAll(ts)|
  {
    hide Text.SameText;
    if ts != [] {
      OthersKept(ts[1..], name);
      var head, rest := ts[0], Others(ts[1..], name);
      assert ts == [head] + ts[1..];
      if !Text.SameText(head.name, name) {
        assert ([head] + rest)[1..] == rest;
      } else {
        assert [] + rest == rest;
      }
    }
  }

  lemma OthersFit(t: BmlObject, name: string, limits: CodecLimits, depth: nat)
    requires Fits(t, limits, depth) && NoDuplicates(t)
    ensures var u := t.(children := Others(t.children, name));
            && Fits(u, limits, depth) && NoDuplicates(u)
            && Size(u) <= Size(t) && |Image(u)| <= |Image(t)|
            && (forall i :: 0 <= i < |u.children| ==> !Text.SameText(u.children[i].name, name))
  {
    hide Text.SameText, HeaderFits, HeaderImage;
    var u := t.(children := Others(t.children, name));
    OthersKept(t.children, name);
    forall i | 0 <= i < |u.children|
      ensures u.children[i] in t.children && !Text.SameText(u.children[i].name, name)
    {
      assert u.children[i] in u.children;
    }
    SmallerHeader(t, u, limits);
  }

  lemma SmallerHeader(t: BmlObject, u: BmlObject, limits: CodecLimits)
    requires HeaderFits(t, limits) && u.name == t.name && u.value == t.value && u.attributes == t.attributes
    requires |u.children| <= |t.children|
    ensures HeaderFits(u, limits) && |HeaderImage(u)| == |HeaderImage(t)|
  {
  }

  /** Dropping the children with a name from a loaded tree leaves a smaller one that can still be saved and loaded. */
  lemma RemovalStaysSavable(t: BmlObject, name: string, limits: CodecLimits, nodes: nat, depth: nat)
    requires Fits(t, limits, depth) && NoDuplicates(t) && BudgetFits(nodes + Size(t), limits)
    ensures var u := t.(children := Others(t.children, name));
            && (forall i :: 0 <= i < |u.children| ==> !Text.SameText(u.children[i].name, name))
            && |Image(u)| <= |Image(t)|
            && WriteBml([], |Image(u)|, u, limits, nodes, depth) == Wrote(Image(u), nodes + Size(u))
            && ReadBml(Image(u), 0, limits, nodes, depth) == Got(Counted(u, nodes + Size(u)), |Image(u)|)
  {
    hide Text.SameText, WriteBml, ReadBml, Fits, NoDuplicates, Image, Size, Others;
    OthersFit(t, name, limits, depth);
    Savable(t.(children := Others(t.children, name)), limits, nodes, depth);
  }
}
