/** The PIN tree codec as it runs: a reader and a writer that share a node budget. */
module PinBmlRun {
  import opened Text
  import opened LittleEndian
  import Utf16
  import opened Reading
  import opened PinBml

  class BmlBudget {
    var nodes: nat

    constructor ()
      ensures nodes == 0
    {
      nodes := 0;
    }

    method Enter(depth: nat, limits: CodecLimits) returns (r: Result<()>)
      modifies this
      ensures match PinBml.Enter(old(nodes), depth, limits)
              case Got(entered, _) => r == Ok(()) && nodes == entered
              case Failed(e) => r == Err(e)
      ensures depth > limits.maxBmlDepth ==> r == Err(LimitExceeded("BML depth", depth, limits.maxBmlDepth))
      ensures depth <= limits.maxBmlDepth && old(nodes) < USIZE_MAX ==>
                if old(nodes) + 1 > limits.maxBmlNodes then
                  r == Err(LimitExceeded("BML node count", old(nodes) + 1, limits.maxBmlNodes))
                else r == Ok(()) && nodes == old(nodes) + 1
    {
      if depth > limits.maxBmlDepth {
        return Err(LimitExceeded("BML depth", depth, limits.maxBmlDepth));
      }
      if nodes == USIZE_MAX || nodes > USIZE_MAX {
        return Err(LengthOverflow("BML node count"));
      }
      nodes := nodes + 1;
      if nodes > limits.maxBmlNodes {
        return Err(LimitExceeded("BML node count", nodes, limits.maxBmlNodes));
      }
      r := Ok(());
    }
  }

  lemma Admitted(nodes: nat, depth: nat, limits: CodecLimits)
    ensures PinBml.Enter(nodes, depth, limits).Got? ==> depth <= limits.maxBmlDepth
  {
  }

  class WireReader {
    const input: seq<byte>
    var offset: nat

    constructor (bytes: seq<byte>)
      ensures input == bytes && offset == 0
    {
      input := bytes;
      offset := 0;
    }

    method Take(length: nat) returns (r: Result<seq<byte>>)
      modifies this
      ensures Follows(r, offset, ReadTake(input, old(offset), length))
      ensures if old(offset) + length <= |input| then
                r == Ok(input[old(offset)..offset]) && offset == old(offset) + length
              else r == Err(Truncated(old(offset), length))
    {
      if offset + length > |input| {
        return Err(Truncated(offset, length));
      }
      r := Ok(input[offset..offset + length]);
      offset := offset + length;
    }

    method Count(field: string, maximum: nat) returns (r: Result<nat>)
      modifies this
      ensures Follows(r, offset, ReadCount(input, old(offset), field, maximum))
      ensures old(offset) + 4 <= |input| ==>
                var n := Signed(input[old(offset)..old(offset) + 4]);
                if n < 0 then r == Err(NegativeLength(field, n))
                else if n > maximum then r == Err(LimitExceeded(field, n, maximum))
                else r == Ok(n) && offset == old(offset) + 4
    {
      var bytes :- Take(4);
      var signed := Signed(bytes);
      if signed < 0 {
        return Err(NegativeLength(field, signed));
      }
      if signed > maximum {
        return Err(LimitExceeded(field, signed, maximum));
      }
      r := Ok(signed);
    }

    method String(limits: CodecLimits) returns (r: Result<string>)
      modifies this
      ensures Follows(r, offset, ReadString(input, old(offset), limits))
    {
      var count :- Count("UTF-16 string", limits.maxStringCodeUnits);
      var bytes :- Take(2 * count);
      r := Ok(Utf16.Lossy(Utf16.BytesUnits(bytes)));
    }

    method AttributeList(limits: CodecLimits) returns (r: Result<Attributes>)
      modifies this
      ensures Follows(r, offset, ReadAttributeList(input, old(offset), limits))
    {
      hide ReadString, ReadCount, HasKey;
      var count :- Count("BML attribute count", limits.maxCollectionItems);
      ghost var body := offset;
      var attributes: Attributes := [];
      for i := 0 to count
        invariant ReadAttributes(input, body, limits, count, [])
               == ReadAttributes(input, offset, limits, count - i, attributes)
      {
        var key :- String(limits);
        if HasKey(attributes, key) {
          return Err(DuplicateBmlAttribute(key));
        }
        var value :- String(limits);
        attributes := attributes + [(key, value)];
      }
      r := Ok(attributes);
    }

    method Bml(limits: CodecLimits, budget: BmlBudget, depth: nat) returns (r: Result<BmlObject>)
      modifies this, budget
      ensures match ReadBml(input, old(offset), limits, old(budget.nodes), depth)
              case Got(c, at) => r == Ok(c.value) && offset == at && budget.nodes == c.nodes
              case Failed(e) => r == Err(e)
      decreases Room(depth, limits)
    {
      hide ReadString, ReadCount, ReadAttributeList, PinBml.Enter;
      var _ :- budget.Enter(depth, limits);
      assert depth <= limits.maxBmlDepth by { Admitted(old(budget.nodes), depth, limits); }
      var name :- String(limits);
      var value :- String(limits);
      var attributes :- AttributeList(limits);
      var count :- Count("BML child count", limits.maxCollectionItems);
      if depth + 1 > USIZE_MAX {
        return Err(LengthOverflow("BML depth"));
      }
      ghost var body, entered := offset, budget.nodes;
      var children: seq<BmlObject> := [];
      for i := 0 to count
        invariant ReadChildren(input, body, limits, entered, depth + 1, count, [])
               == ReadChildren(input, offset, limits, budget.nodes, depth + 1, count - i, children)
      {
        var child :- Bml(limits, budget, depth + 1);
        children := children + [child];
      }
      r := Ok(BmlObject(name, value, attributes, children));
    }
  }

  /** What a writing method promises: the specified output and node count, or the specified error. */
  ghost predicate Produces(r: Result<()>, output: seq<byte>, nodes: nat, spec: Written) {
    match spec
    case Wrote(out, n) => r == Ok(()) && output == out && nodes == n
    case Refused(e) => r == Err(e)
  }

  class WireWriter {
    const maximum: nat
    var output: seq<byte>

    constructor (limit: nat)
      ensures maximum == limit && output == []
    {
      maximum := limit;
      output := [];
    }

    method Bytes(bytes: seq<byte>, ghost nodes: nat) returns (r: Result<()>)
      modifies this
      ensures Produces(r, output, nodes, WriteBytes(old(output), maximum, bytes, nodes))
      ensures if |old(output)| + |bytes| > maximum then
                r == Err(LimitExceeded("PIN payload", |old(output)| + |bytes|, maximum))
              else r == Ok(()) && output == old(output) + bytes
    {
      if |output| + |bytes| > maximum {
        return Err(LimitExceeded("PIN payload", |output| + |bytes|, maximum));
      }
      output := output + bytes;
      r := Ok(());
    }

    method Count(value: nat, field: string, limit: nat, ghost nodes: nat) returns (r: Result<()>)
      modifies this
      ensures Produces(r, output, nodes, WriteCount(old(output), maximum, value, field, limit, nodes))
      ensures value > limit ==> r == Err(LimitExceeded(field, value, limit))
      ensures 0x7FFF_FFFF < value <= limit ==> r == Err(LengthOverflow(field))
    {
      if value > limit {
        return Err(LimitExceeded(field, value, limit));
      }
      if value > I32_MAX {
        return Err(LengthOverflow(field));
      }
      r := Bytes(Digits(value, 4), nodes);
    }

    method String(s: string, limits: CodecLimits, ghost nodes: nat) returns (r: Result<()>)
      modifies this
      ensures Produces(r, output, nodes, WriteString(old(output), maximum, s, limits, nodes))
      ensures |Utf16.Units(s)| > limits.maxStringCodeUnits ==>
                r == Err(LimitExceeded("UTF-16 string", |Utf16.Units(s)|, limits.maxStringCodeUnits))
      ensures r.Ok? ==> output == old(output) + Digits(|Utf16.Units(s)|, 4) + Utf16.UnitBytes(Utf16.Units(s))
    {
      var units := Utf16.Units(s);
      var _ :- Count(|units|, "UTF-16 string", limits.maxStringCodeUnits, nodes);
      r := Bytes(Utf16.UnitBytes(units), nodes);
    }

    method AttributeList(attributes: Attributes, limits: CodecLimits, ghost nodes: nat) returns (r: Result<()>)
      modifies this
      ensures Produces(r, output, nodes, WriteAttributeList(old(output), maximum, attributes, limits, nodes))
    {
      hide WriteString, WriteCount;
      var _ :- Count(|attributes|, "BML attribute count", limits.maxCollectionItems, nodes);
      ghost var start := output;
      assert attributes[0..] == attributes;
      for i := 0 to |attributes|
        invariant WriteAttributes(start, maximum, attributes, limits, nodes)
               == WriteAttributes(output, maximum, attributes[i..], limits, nodes)
      {
        assert attributes[i..][1..] == attributes[i + 1..];
        var _ :- String(attributes[i].0, limits, nodes);
        var _ :- String(attributes[i].1, limits, nodes);
      }
      r := Ok(());
    }

    method Bml(t: BmlObject, limits: CodecLimits, budget: BmlBudget, depth: nat) returns (r: Result<()>)
      modifies this, budget
      ensures Produces(r, output, budget.nodes, WriteBml(old(output), maximum, t, limits, old(budget.nodes), depth))
      decreases t
    {
      hide WriteString, WriteCount, WriteAttributeList, PinBml.Enter;
      var _ :- budget.Enter(depth, limits);
      var _ :- String(t.name, limits, budget.nodes);
      var _ :- String(t.value, limits, budget.nodes);
      var _ :- AttributeList(t.attributes, limits, budget.nodes);
      var _ :- Count(|t.children|, "BML child count", limits.maxCollectionItems, budget.nodes);
      if depth + 1 > USIZE_MAX {
        return Err(LengthOverflow("BML depth"));
      }
      ghost var start, entered := output, budget.nodes;
      assert t.children[0..] == t.children;
      for i := 0 to |t.children|
        invariant WriteChildren(start, maximum, t.children, limits, entered, depth + 1)
               == WriteChildren(output, maximum, t.children[i..], limits, budget.nodes, depth + 1)
      {
        assert t.children[i..][1..] == t.children[i + 1..];
        var _ :- Bml(t.children[i], limits, budget, depth + 1);
      }
      r := Ok(());
    }
  }

  /**
   Removes the direct children with the name; the rest of the node stays. A child without the name moves up by the
   number of children with it that stood before, nothing else is left, and all children with the name are counted.
   */
  method RemoveDirectChildrenNamed(t: BmlObject, name: string) returns (kept: BmlObject, removed: nat)
    ensures kept.(children := []) == t.(children := [])
    ensures kept.children == Others(t.children, name)
    ensures forall i :: 0 <= i < |t.children| && !SameText(t.children[i].name, name) ==>
                          var place := i - NamedCount(t.children[..i], name);
                          0 <= place < |kept.children| && kept.children[place] == t.children[i]
    ensures |kept.children| == |t.children| - removed
    ensures removed == NamedCount(t.children, name)
  {
    hide SameText;
    var before := |t.children|;
    var children: seq<BmlObject> := [];
    assert t.children[..0] == [];
    for i := 0 to |t.children|
      invariant children == Others(t.children[..i], name)
      invariant i - |children| == NamedCount(t.children[..i], name)
    {
      OthersNext(t.children, i, name);
      var child := t.children[i];
      if !SameText(child.name, name) { children := children + [child]; }
    }
    assert t.children[..|t.children|] == t.children;
    kept := t.(children := children);
    removed := before - |children|;
    forall i | 0 <= i < |t.children| && !SameText(t.children[i].name, name)
      ensures var place := i - NamedCount(t.children[..i], name);
              0 <= place < |children| && children[place] == t.children[i]
    {
      OthersPlace(t.children, name, i);
    }
  }

  /** A child without the name moves up by the number of children with it that stand before. */
  lemma {:induction false} OthersPlace(ts: seq<BmlObject>, name: string, i: nat)
    requires i < |ts| && !SameText(ts[i].name, name)
    ensures var place := i - NamedCount(ts[..i], name);
            0 <= place < |Others(ts, name)| && Others(ts, name)[place] == ts[i]
  {
    hide SameText;
    if i > 0 {
      assert ts[..i][1..] == ts[1..][..i - 1];
      OthersPlace(ts[1..], name, i - 1);
    }
  }

  lemma OthersNext(ts: seq<BmlObject>, i: nat, name: string)
    requires i < |ts|
    ensures Others(ts[..i + 1], name) == Others(ts[..i], name) + if SameText(ts[i].name, name) then [] else [ts[i]]
    ensures NamedCount(ts[..i + 1], name) == NamedCount(ts[..i], name) + if SameText(ts[i].name, name) then 1 else 0
  {
    hide SameText;
    assert ts[..i + 1] == ts[..i] + [ts[i]];
    OthersAppend(ts[..i], ts[i], name);
  }

  lemma {:induction false} OthersAppend(ts: seq<BmlObject>, last: BmlObject, name: string)
    ensures Others(ts + [last], name) == Others(ts, name) + if SameText(last.name, name) then [] else [last]
    ensures NamedCount(ts + [last], name) == NamedCount(ts, name) + if SameText(last.name, name) then 1 else 0
  {
    hide SameText;
    if ts == [] {
      assert ts + [last] == [last] && [last][1..] == [];
    } else {
      assert (ts + [last])[1..] == ts[1..] + [last];
      OthersAppend(ts[1..], last, name);
    }
  }
}
