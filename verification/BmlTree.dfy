/**
 The BML node of the core crate: an owned n-ary tree whose attributes are looked up by
 the first key that matches without regard to ASCII case. A path of child positions
 stands for a mutable borrow of one node of the tree.
 */
module BmlTree {
  import opened Text

  type Attributes = seq<(string, string)>

  datatype BmlNode = BmlNode(name: string, value: string, attributes: Attributes, children: seq<BmlNode>)

  /** A position: the node itself, or a position below the `k`-th child. */
  datatype Path = Here | Down(k: nat, rest: Path)

  /** Position of the first attribute with this key, or the length when there is none. */
  function KeyIndex(attributes: Attributes, wanted: string): (i: nat)
    ensures i <= |attributes|
    ensures i < |attributes| ==> SameText(attributes[i].0, wanted)
    ensures forall j :: 0 <= j < i ==> !SameText(attributes[j].0, wanted)
  {
    if attributes == [] || SameText(attributes[0].0, wanted) then 0
    else 1 + KeyIndex(attributes[1..], wanted)
  }

  function Lookup(attributes: Attributes, wanted: string): Option<string> {
    var i := KeyIndex(attributes, wanted);
    if i < |attributes| then Some(attributes[i].1) else None
  }

  function Attribute(node: BmlNode, wanted: string): Option<string> {
    Lookup(node.attributes, wanted)
  }

  function Assign(attributes: Attributes, wanted: string, value: string): Attributes {
    var i := KeyIndex(attributes, wanted);
    if i < |attributes| then attributes[i := (attributes[i].0, value)] else attributes + [(wanted, value)]
  }

  function Without(attributes: Attributes, wanted: string): (r: Attributes)
    ensures forall a :: a in r ==> !SameText(a.0, wanted)
  {
    if attributes == [] then []
    else if SameText(attributes[0].0, wanted) then Without(attributes[1..], wanted)
    else [attributes[0]] + Without(attributes[1..], wanted)
  }

  function SetAttribute(node: BmlNode, wanted: string, value: string): BmlNode {
    node.(attributes := Assign(node.attributes, wanted, value))
  }

  function RemoveAttribute(node: BmlNode, wanted: string): BmlNode {
    node.(attributes := Without(node.attributes, wanted))
  }

  lemma AssignLookup(attributes: Attributes, wanted: string, value: string, other: string)
    ensures Lookup(Assign(attributes, wanted, value), other)
         == if SameText(other, wanted) then Some(value) else Lookup(attributes, other)
  {
    var after := Assign(attributes, wanted, value);
    var i := KeyIndex(attributes, other);
    var j := KeyIndex(after, other);
    forall k | 0 <= k < |attributes|
      ensures after[k].0 == attributes[k].0
    {
    }
    if i < |attributes| { assert SameText(after[i].0, other); }
    if j < |attributes| { assert SameText(attributes[j].0, other); }
  }

  lemma {:induction false} WithoutLookup(attributes: Attributes, wanted: string, other: string)
    ensures Lookup(Without(attributes, wanted), other)
         == if SameText(other, wanted) then None else Lookup(attributes, other)
  {
    if attributes != [] {
      WithoutLookup(attributes[1..], wanted, other);
    }
    if SameText(other, wanted) {
      var r := Without(attributes, wanted);
      forall i | 0 <= i < |r|
        ensures !SameText(r[i].0, other)
      {
        assert r[i] in r;
      }
    }
  }

  lemma {:induction false} WithoutNothing(attributes: Attributes, wanted: string)
    ensures Without(attributes, wanted) == attributes <==> Lookup(attributes, wanted) == None
    ensures |Without(attributes, wanted)| <= |attributes|
    ensures |Without(attributes, wanted)| == |attributes| <==> Lookup(attributes, wanted) == None
  {
    if attributes != [] { WithoutNothing(attributes[1..], wanted); }
  }

  lemma AssignSame(attributes: Attributes, wanted: string, value: string)
    ensures Assign(attributes, wanted, value) == attributes <==> Lookup(attributes, wanted) == Some(value)
  {
    AssignLookup(attributes, wanted, value, wanted);
  }

  // ---------------------------------------------------------------- positions

  predicate Valid(t: BmlNode, p: Path) {
    p.Down? ==> p.k < |t.children| && Valid(t.children[p.k], p.rest)
  }

  function At(t: BmlNode, p: Path): BmlNode
    requires Valid(t, p)
  {
    if p.Here? then t else At(t.children[p.k], p.rest)
  }

  function Put(t: BmlNode, p: Path, n: BmlNode): BmlNode
    requires Valid(t, p)
  {
    if p.Here? then n
    else t.(children := t.children[p.k := Put(t.children[p.k], p.rest, n)])
  }

  function Append(p: Path, q: Path): Path {
    if p.Here? then q else Down(p.k, Append(p.rest, q))
  }

  lemma {:induction false} PutAt(t: BmlNode, p: Path, n: BmlNode)
    requires Valid(t, p)
    ensures Valid(Put(t, p, n), p) && At(Put(t, p, n), p) == n
    ensures Put(t, p, At(t, p)) == t
    ensures Put(t, p, n) == t ==> n == At(t, p)
  {
    if p.Down? { PutAt(t.children[p.k], p.rest, n); }
  }

  lemma {:induction false} PutPut(t: BmlNode, p: Path, a: BmlNode, b: BmlNode)
    requires Valid(t, p)
    ensures Valid(Put(t, p, a), p) && Put(Put(t, p, a), p, b) == Put(t, p, b)
  {
    if p.Down? { PutPut(t.children[p.k], p.rest, a, b); }
  }

  lemma {:induction false} ValidAppend(t: BmlNode, p: Path, q: Path)
    requires Valid(t, p) && Valid(At(t, p), q)
    ensures Valid(t, Append(p, q)) && At(t, Append(p, q)) == At(At(t, p), q)
  {
    if p.Down? { ValidAppend(t.children[p.k], p.rest, q); }
  }

  function Kid(p: Path, k: nat): Path {
    Append(p, Down(k, Here))
  }

  lemma {:induction false} PutKid(u: BmlNode, p: Path, k: nat, n: BmlNode)
    requires Valid(u, p) && k < |At(u, p).children|
    ensures Valid(u, Kid(p, k)) && At(u, Kid(p, k)) == At(u, p).children[k]
    ensures Put(u, Kid(p, k), n) == Put(u, p, At(u, p).(children := At(u, p).children[k := n]))
  {
    if p.Down? { PutKid(u.children[p.k], p.rest, k, n); }
  }
}
