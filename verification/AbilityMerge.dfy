/** Merging item abilities of imported karts into the target's ability files. */
module AbilityMerge {
  import opened Text
  import opened BmlTree

  // ------------------------------------------------------------ ability keys

  type Entry = (string, string)

  function InsertByName(a: Entry, sorted: Attributes): Attributes {
    if sorted == [] || !LexLess(sorted[0].0, a.0) then [a] + sorted
    else [sorted[0]] + InsertByName(a, sorted[1..])
  }

  /** The attributes by name; equal names keep their order. */
  function SortByName(attributes: Attributes): Attributes {
    if attributes == [] then [] else InsertByName(attributes[0], SortByName(attributes[1..]))
  }

  function Spelled(attributes: Attributes): string {
    if attributes == [] then ""
    else "|" + Lower(attributes[0].0) + "=" + Lower(attributes[0].1) + Spelled(attributes[1..])
  }

  function Key(node: BmlNode): string {
    Lower(node.name) + Spelled(SortByName(node.attributes))
  }

  // --------------------------------------------------------- which nodes count

  /** `parse::<u16>`: an optional plus sign, at least one digit, and no overflow. */
  function ParseId(s: string): Option<nat> {
    var digits := if s != "" && s[0] == '+' then s[1..] else s;
    if digits == "" || !AllDigits(digits) || DecimalValue(digits) > 0xFFFF then None else Some(DecimalValue(digits))
  }

  const KART_ID := "kartId"

  const REFERENCES: seq<string> := ["srcIdx", "dstIdx", "firedItemIdx", "firingItemIdx", "gainItemIdx"]

  /** The karts that were imported, and the items the target client knows. */
  datatype Scope = Scope(karts: set<nat>, items: set<string>)

  predicate Selected(node: BmlNode, scope: Scope) {
    var id := Attribute(node, KART_ID);
    id.Some? && ParseId(id.value).Some? && ParseId(id.value).value in scope.karts
  }

  predicate Supported(node: BmlNode, scope: Scope) {
    forall i :: 0 <= i < |REFERENCES| ==>
      var item := Attribute(node, REFERENCES[i]);
      item.None? || Lower(item.value) in scope.items
  }

  predicate Eligible(node: BmlNode, scope: Scope) {
    Selected(node, scope) && Supported(node, scope)
  }

  /** All nodes of a tree, parents before children. */
  function Nodes(node: BmlNode): seq<BmlNode>
    decreases node
  {
    [node] + Below(node.children)
  }

  function Below(children: seq<BmlNode>): seq<BmlNode>
    decreases children
  {
    if children == [] then [] else Nodes(children[0]) + Below(children[1..])
  }

  /** `collect_ability_keys`. */
  function KeysOf(nodes: seq<BmlNode>): set<string> {
    if nodes == [] then {}
    else (if Attribute(nodes[0], KART_ID).Some? then {Key(nodes[0])} else {}) + KeysOf(nodes[1..])
  }

  datatype State = State(existing: set<string>, output: seq<BmlNode>, skipped: nat)

  function Visit(node: BmlNode, scope: Scope, s: State): State {
    if !Selected(node, scope) then s
    else if !Supported(node, scope) then s.(skipped := s.skipped + 1)
    else if Key(node) in s.existing then s
    else State(s.existing + {Key(node)}, s.output + [node], s.skipped)
  }

  function Gather(nodes: seq<BmlNode>, scope: Scope, s: State): State
    decreases nodes
  {
    if nodes == [] then s else Gather(nodes[1..], scope, Visit(nodes[0], scope, s))
  }

  /** What a merge adds to the target. */
  function Additions(target: BmlNode, source: BmlNode, scope: Scope): State {
    Gather(Nodes(source), scope, State(KeysOf(Nodes(target)), [], 0))
  }

  function Merged(target: BmlNode, source: BmlNode, scope: Scope): BmlNode {
    target.(children := target.children + Additions(target, source, scope).output)
  }

  // ----------------------------------------------------------------- theorems

  lemma {:induction false} GatherAppend(a: seq<BmlNode>, b: seq<BmlNode>, scope: Scope, s: State)
    ensures Gather(a + b, scope, s) == Gather(b, scope, Gather(a, scope, s))
    decreases a
  {
    hide Visit;
    if a == [] {
      assert a + b == b;
    } else {
      assert (a + b)[1..] == a[1..] + b;
      GatherAppend(a[1..], b, scope, Visit(a[0], scope, s));
    }
  }

  /** Every node that was collected is an eligible one with a key of its own. */
  ghost predicate Sound(nodes: seq<BmlNode>, scope: Scope, before: set<string>, s: State) {
    && (forall i :: 0 <= i < |s.output| ==>
          s.output[i] in nodes && Eligible(s.output[i], scope) && Key(s.output[i]) !in before)
    && (forall i, j :: 0 <= i < j < |s.output| ==> Key(s.output[i]) != Key(s.output[j]))
    && s.existing == before + set n | n in s.output :: Key(n)
  }

  lemma VisitSound(nodes: seq<BmlNode>, node: BmlNode, scope: Scope, before: set<string>, s: State)
    requires Sound(nodes, scope, before, s) && node in nodes
    ensures Sound(nodes, scope, before, Visit(node, scope, s))
  {
    hide Key, Selected, Supported;
    var after := Visit(node, scope, s);
    if after.output != s.output {
      assert after.output[|s.output|] == node;
      forall i | 0 <= i < |s.output|
        ensures after.output[i] == s.output[i] && Key(s.output[i]) in s.existing
      {
      }
    }
  }

  lemma {:induction false} GatherSound(nodes: seq<BmlNode>, rest: seq<BmlNode>, scope: Scope, before: set<string>,
      s: State)
    requires Sound(nodes, scope, before, s) && forall n :: n in rest ==> n in nodes
    ensures Sound(nodes, scope, before, Gather(rest, scope, s))
    decreases rest
  {
    hide Sound, Visit;
    if rest != [] {
      assert rest[0] in rest;
      assert forall n :: n in rest[1..] ==> n in rest;
      VisitSound(nodes, rest[0], scope, before, s);
      GatherSound(nodes, rest[1..], scope, before, Visit(rest[0], scope, s));
    }
  }

  /** Keys only accumulate, and every eligible node's key is among them afterwards. */
  lemma {:induction false} GatherComplete(nodes: seq<BmlNode>, scope: Scope, s: State)
    ensures s.existing <= Gather(nodes, scope, s).existing
    ensures forall n :: n in nodes && Eligible(n, scope) ==> Key(n) in Gather(nodes, scope, s).existing
    decreases nodes
  {
    hide Key, Selected, Supported;
    if nodes != [] {
      GatherComplete(nodes[1..], scope, Visit(nodes[0], scope, s));
      assert nodes == [nodes[0]] + nodes[1..];
    }
  }

  lemma {:induction false} KeysAppend(a: seq<BmlNode>, b: seq<BmlNode>)
    ensures KeysOf(a + b) == KeysOf(a) + KeysOf(b)
  {
    hide Key;
    if a == [] {
      assert a + b == b;
    } else {
      assert (a + b)[1..] == a[1..] + b;
      KeysAppend(a[1..], b);
    }
  }

  lemma {:induction false} BelowAppend(a: seq<BmlNode>, b: seq<BmlNode>)
    ensures Below(a + b) == Below(a) + Below(b)
    decreases |a|
  {
    if a == [] {
      assert a + b == b;
    } else {
      assert (a + b)[1..] == a[1..] + b;
      BelowAppend(a[1..], b);
      assert Nodes(a[0]) + Below(a[1..]) + Below(b) == Nodes(a[0]) + (Below(a[1..]) + Below(b));
    }
  }

  lemma {:induction false} KeysHold(nodes: seq<BmlNode>, n: BmlNode)
    requires n in nodes && Attribute(n, KART_ID).Some?
    ensures Key(n) in KeysOf(nodes)
  {
    hide Key;
    if n != nodes[0] { KeysHold(nodes[1..], n); }
  }

  lemma {:induction false} ChildBelow(children: seq<BmlNode>, k: nat)
    requires k < |children|
    ensures children[k] in Below(children)
    decreases k
  {
    if k == 0 {
      assert Nodes(children[0])[0] == children[0];
    } else {
      ChildBelow(children[1..], k - 1);
    }
  }

  /** The keys of the merged tree: those of the target, and at least one for every added node. */
  lemma MergedKeys(target: BmlNode, source: BmlNode, scope: Scope)
    ensures KeysOf(Nodes(target)) <= KeysOf(Nodes(Merged(target, source, scope)))
    ensures Additions(target, source, scope).existing <= KeysOf(Nodes(Merged(target, source, scope)))
  {
    hide Key, Gather, Supported;
    var added := Additions(target, source, scope);
    var merged := Merged(target, source, scope);
    AdditionsSound(target, source, scope);
    BelowAppend(target.children, added.output);
    KeysAppend([merged], Below(merged.children));
    KeysAppend(Below(target.children), Below(added.output));
    KeysAppend([target], Below(target.children));
    OwnKey(target, merged);
    forall i | 0 <= i < |added.output|
      ensures Key(added.output[i]) in KeysOf(Below(added.output))
    {
      ChildBelow(added.output, i);
      KeysHold(Below(added.output), added.output[i]);
    }
  }

  lemma OwnKey(a: BmlNode, b: BmlNode)
    requires a.name == b.name && a.attributes == b.attributes
    ensures KeysOf([a]) == KeysOf([b])
  {
  }

  /**
   Every added node comes from the source, belongs to a selected kart, uses only supported items, and has a key
   that neither the target nor an earlier addition has.
   */
  lemma AdditionsSound(target: BmlNode, source: BmlNode, scope: Scope)
    ensures Sound(Nodes(source), scope, KeysOf(Nodes(target)), Additions(target, source, scope))
  {
    var start := State(KeysOf(Nodes(target)), [], 0);
    assert start.existing == KeysOf(Nodes(target)) + set n | n in start.output :: Key(n);
    GatherSound(Nodes(source), Nodes(source), scope, KeysOf(Nodes(target)), start);
  }

  /** Every eligible source node, nested ones included, has its key in the merged tree. */
  lemma MergeComplete(target: BmlNode, source: BmlNode, scope: Scope, n: BmlNode)
    requires n in Nodes(source) && Eligible(n, scope)
    ensures Key(n) in KeysOf(Nodes(Merged(target, source, scope)))
  {
    hide Key, Gather, Selected, Supported, Merged;
    GatherComplete(Nodes(source), scope, State(KeysOf(Nodes(target)), [], 0));
    MergedKeys(target, source, scope);
  }

  lemma {:induction false} NothingNew(nodes: seq<BmlNode>, scope: Scope, s: State)
    requires forall n :: n in nodes && Eligible(n, scope) ==> Key(n) in s.existing
    ensures Gather(nodes, scope, s).output == s.output
    decreases nodes
  {
    hide Key, Selected, Supported;
    if nodes != [] {
      assert nodes[0] in nodes;
      assert forall n :: n in nodes[1..] ==> n in nodes;
      NothingNew(nodes[1..], scope, Visit(nodes[0], scope, s));
    }
  }

  /** Merging the same source again adds nothing. */
  lemma MergeAgain(target: BmlNode, source: BmlNode, scope: Scope)
    ensures var once := Merged(target, source, scope);
            Additions(once, source, scope).output == [] && Merged(once, source, scope) == once
  {
    hide Key, Gather, Selected, Supported;
    var once := Merged(target, source, scope);
    forall n | n in Nodes(source) && Eligible(n, scope)
      ensures Key(n) in KeysOf(Nodes(once))
    {
      MergeComplete(target, source, scope, n);
    }
    NothingNew(Nodes(source), scope, State(KeysOf(Nodes(once)), [], 0));
    assert once.children + [] == once.children;
  }

  /** Only nodes of selected karts with an unsupported item are counted as skipped, each once. */
  function Skips(nodes: seq<BmlNode>, scope: Scope): nat {
    if nodes == [] then 0
    else (if Selected(nodes[0], scope) && !Supported(nodes[0], scope) then 1 else 0) + Skips(nodes[1..], scope)
  }

  lemma {:induction false} SkippedCount(nodes: seq<BmlNode>, scope: Scope, s: State)
    ensures Gather(nodes, scope, s).skipped == s.skipped + Skips(nodes, scope)
    decreases nodes
  {
    hide Key, Selected, Supported;
    if nodes != [] { SkippedCount(nodes[1..], scope, Visit(nodes[0], scope, s)); }
  }

  // ----------------------------------- when the key does not see attribute order

  predicate ByName(attributes: Attributes) {
    forall i, j :: 0 <= i < j < |attributes| ==> !LexLess(attributes[j].0, attributes[i].0)
  }

  lemma {:induction false} InsertMembers(a: Entry, sorted: Attributes)
    ensures multiset(InsertByName(a, sorted)) == multiset{a} + multiset(sorted)
    ensures forall x :: x in InsertByName(a, sorted) ==> x == a || x in sorted
  {
    hide LexLess;
    if sorted != [] {
      InsertMembers(a, sorted[1..]);
      assert sorted == [sorted[0]] + sorted[1..];
    }
  }

  /** In front of a sorted list goes anything that no member is before. */
  lemma ByNameFront(a: Entry, sorted: Attributes)
    requires ByName(sorted) && forall x :: x in sorted ==> !LexLess(x.0, a.0)
    ensures ByName([a] + sorted)
  {
  }

  lemma {:induction false} InsertSorted(a: Entry, sorted: Attributes)
    requires ByName(sorted)
    ensures ByName(InsertByName(a, sorted))
  {
    hide LexLess;
    if sorted == [] {
    } else if !LexLess(sorted[0].0, a.0) {
      forall x | x in sorted
        ensures !LexLess(x.0, a.0)
      {
        var k :| 0 <= k < |sorted| && sorted[k] == x;
        if k > 0 { NotLess(x.0, sorted[0].0, a.0); }
      }
      ByNameFront(a, sorted);
    } else {
      InsertSorted(a, sorted[1..]);
      InsertMembers(a, sorted[1..]);
      LexTotal(sorted[0].0, a.0);
      forall x | x in InsertByName(a, sorted[1..])
        ensures !LexLess(x.0, sorted[0].0)
      {
        if x != a {
          var k :| 0 <= k < |sorted[1..]| && sorted[1..][k] == x;
          assert sorted[k + 1] == x;
        }
      }
      ByNameFront(sorted[0], InsertByName(a, sorted[1..]));
    }
  }

  /** "Not before" is transitive. */
  lemma NotLess(a: string, b: string, c: string)
    requires !LexLess(a, b) && !LexLess(b, c)
    ensures !LexLess(a, c)
  {
  }

  lemma {:induction false} SortKeeps(attributes: Attributes)
    ensures ByName(SortByName(attributes)) && multiset(SortByName(attributes)) == multiset(attributes)
  {
    hide InsertByName;
    if attributes != [] {
      SortKeeps(attributes[1..]);
      InsertMembers(attributes[0], SortByName(attributes[1..]));
      InsertSorted(attributes[0], SortByName(attributes[1..]));
      assert attributes == [attributes[0]] + attributes[1..];
    }
  }

  lemma SameMembers(a: Attributes, b: Attributes)
    requires multiset(a) == multiset(b)
    ensures |a| == |b| && forall x :: x in a <==> x in b
  {
    assert |multiset(a)| == |a| && |multiset(b)| == |b|;
    forall x
      ensures x in a <==> x in b
    {
      assert x in multiset(a) <==> x in multiset(b);
    }
  }

  lemma {:induction false} SpelledAppend(a: Attributes, b: Attributes)
    ensures Spelled(a + b) == Spelled(a) + Spelled(b)
  {
    if a == [] {
      assert a + b == b;
    } else {
      hide Spelled;
      var rest := a[1..];
      assert a == [a[0]] + rest && a + b == [a[0]] + (rest + b);
      SpelledAppend(rest, b);
      SpelledFirst(a[0], rest);
      SpelledFirst(a[0], rest + b);
      Associate(Spelled([a[0]]), Spelled(rest), Spelled(b));
    }
  }

  lemma SpelledFirst(x: Entry, rest: Attributes)
    ensures Spelled([x] + rest) == Spelled([x]) + Spelled(rest)
  {
    hide Lower;
    assert ([x] + rest)[1..] == rest && [x][1..] == [];
  }

  lemma Associate(a: string, b: string, c: string)
    ensures (a + b) + c == a + (b + c)
  {
  }

  /** Two attributes of one exact name are spelled alike in both orders. */
  predicate NamesCommute(attributes: Attributes) {
    forall p, q :: p in attributes && q in attributes && p.0 == q.0 ==> Commute(p, q)
  }

  predicate Commute(p: Entry, q: Entry) {
    Spelled([p]) + Spelled([q]) == Spelled([q]) + Spelled([p])
  }

  lemma {:induction false} MoveFront(front: Attributes, p: Entry)
    requires forall x :: x in front ==> Commute(x, p)
    ensures Spelled(front) + Spelled([p]) == Spelled([p]) + Spelled(front)
  {
    if front != [] {
      hide Spelled;
      var x, rest := front[0], front[1..];
      assert front == [x] + rest;
      MoveFront(rest, p);
      SpelledFirst(x, rest);
      Associate(Spelled([x]), Spelled(rest), Spelled([p]));
      Associate(Spelled([x]), Spelled([p]), Spelled(rest));
      Associate(Spelled([p]), Spelled([x]), Spelled(rest));
      assert Commute(x, p);
    }
  }

  lemma Around(b: Attributes, x: Entry) returns (front: Attributes, back: Attributes)
    requires x in b
    ensures b == front + [x] + back
  {
    var k :| 0 <= k < |b| && b[k] == x;
    front, back := b[..k], b[k + 1..];
  }

  lemma BagOut(front: Attributes, x: Entry, back: Attributes)
    ensures multiset(front + [x] + back) == multiset(front + back) + multiset{x}
  {
  }

  lemma OthersBag(rest: Attributes, front: Attributes, x: Entry, back: Attributes)
    requires multiset([x] + rest) == multiset(front + [x] + back)
    ensures multiset(rest) == multiset(front + back)
  {
    BagOut(front, x, back);
    assert multiset(rest) == multiset([x] + rest) - multiset{x};
  }

  lemma WithoutSorted(front: Attributes, x: Entry, back: Attributes)
    requires ByName(front + [x] + back)
    ensures ByName(front + back)
    ensures forall f :: f in front ==> !LexLess(x.0, f.0)
  {
    hide LexLess;
    var all, others := front + [x] + back, front + back;
    forall i, j | 0 <= i < j < |others|
      ensures !LexLess(others[j].0, others[i].0)
    {
      var k, l := if i < |front| then i else i + 1, if j < |front| then j else j + 1;
      assert others[i] == all[k] && others[j] == all[l];
    }
    forall f | f in front
      ensures !LexLess(x.0, f.0)
    {
      var i :| 0 <= i < |front| && front[i] == f;
      assert all[i] == f && all[|front|] == x;
    }
  }

  /** Sorted orders of the same attributes are spelled alike when equal names commute. */
  lemma {:induction false} SortedAlike(x: Attributes, y: Attributes)
    requires ByName(x) && ByName(y) && multiset(x) == multiset(y) && NamesCommute(x)
    ensures Spelled(x) == Spelled(y)
    decreases |x|
  {
    hide LexLess, Spelled, Commute;
    SameMembers(x, y);
    if x != [] {
      var p, rest := x[0], x[1..];
      assert x == [p] + rest && p in x;
      var front, back := Around(y, p);
      OthersBag(rest, front, p, back);
      WithoutSorted(front, p, back);
      WithoutSorted([], p, rest);
      assert [] + [p] + rest == x && [] + rest == rest;
      forall f | f in front
        ensures Commute(f, p)
      {
        assert f in y;
        FirstIsLeast(x, f);
        LexTotal(f.0, p.0);
      }
      SortedAlike(rest, front + back);
      SpelledFirst(p, rest);
      SpelledMoved(front, p, back);
    }
  }

  lemma SpelledMoved(front: Attributes, p: Entry, back: Attributes)
    requires forall x :: x in front ==> Commute(x, p)
    ensures Spelled(front + [p] + back) == Spelled([p]) + Spelled(front + back)
  {
    hide Spelled, Commute;
    MoveFront(front, p);
    SpelledAppend(front, back);
    SpelledAppend(front + [p], back);
    SpelledAppend(front, [p]);
    Associate(Spelled([p]), Spelled(front), Spelled(back));
  }

  lemma FirstIsLeast(x: Attributes, f: Entry)
    requires ByName(x) && f in x
    ensures !LexLess(f.0, x[0].0)
  {
    hide LexLess;
    var i :| 0 <= i < |x| && x[i] == f;
    LexTotal(x[0].0, x[0].0);
  }

  /** Attributes of one name that are inserted one after the other stand side by side. */
  lemma {:induction false} Twins(p: Entry, q: Entry, sorted: Attributes) returns (u: Attributes, v: Attributes)
    requires p.0 == q.0
    ensures InsertByName(p, InsertByName(q, sorted)) == u + [p, q] + v
    ensures InsertByName(q, InsertByName(p, sorted)) == u + [q, p] + v
  {
    hide LexLess;
    LexTotal(p.0, p.0);
    if sorted == [] || !LexLess(sorted[0].0, p.0) {
      u, v := [], sorted;
    } else {
      var front;
      front, v := Twins(p, q, sorted[1..]);
      u := [sorted[0]] + front;
    }
  }

  lemma Between(u: string, a: string, b: string, v: string)
    requires u + a + v == u + b + v
    ensures a == b
  {
    assert |a| == |b|;
    assert a == (u + a + v)[|u|..|u| + |a|];
    assert b == (u + b + v)[|u|..|u| + |b|];
  }

  /** Attributes that do not commute can be left in two sorted orders with different spellings. */
  lemma Distinguish(attributes: Attributes, p: Entry, q: Entry) returns (x: Attributes, y: Attributes)
    requires p in attributes && q in attributes && p.0 == q.0 && !Commute(p, q)
    ensures ByName(x) && multiset(x) == multiset(attributes)
    ensures ByName(y) && multiset(y) == multiset(attributes)
    ensures Spelled(x) != Spelled(y)
  {
    hide Spelled, InsertByName, SortByName, ByName;
    var front, back := Around(attributes, p);
    var left, right := Around(front + back, q);
    var sorted := SortByName(left + right);
    SortKeeps(left + right);
    InsertMembers(p, sorted);
    InsertMembers(q, sorted);
    InsertMembers(p, InsertByName(q, sorted));
    InsertMembers(q, InsertByName(p, sorted));
    InsertSorted(p, sorted);
    InsertSorted(q, sorted);
    InsertSorted(p, InsertByName(q, sorted));
    InsertSorted(q, InsertByName(p, sorted));
    x, y := InsertByName(p, InsertByName(q, sorted)), InsertByName(q, InsertByName(p, sorted));
    BagOut(front, p, back);
    BagOut(left, q, right);
    var u, v := Twins(p, q, sorted);
    SpelledPair(u, p, q, v);
    SpelledPair(u, q, p, v);
    if Spelled(x) == Spelled(y) {
      Between(Spelled(u), Spelled([p]) + Spelled([q]), Spelled([q]) + Spelled([p]), Spelled(v));
    }
  }

  lemma SpelledPair(u: Attributes, p: Entry, q: Entry, v: Attributes)
    ensures Spelled(u + [p, q] + v) == Spelled(u) + (Spelled([p]) + Spelled([q])) + Spelled(v)
  {
    hide Spelled;
    assert [p] + [q] == [p, q];
    SpelledAppend([p], [q]);
    SpelledAppend(u, [p, q]);
    SpelledAppend(u + [p, q], v);
  }

  /**
   The key of a node is the same whichever sorted order an unstable sort leaves its attributes in, exactly when any two
   of its attributes with one exact name are spelled alike in both orders.
   */
  lemma KeyIgnoresOrder(node: BmlNode)
    ensures NamesCommute(node.attributes)
       <==> forall sorted :: ByName(sorted) && multiset(sorted) == multiset(node.attributes) ==>
                               Key(node) == Lower(node.name) + Spelled(sorted)
  {
    hide SortByName, ByName, NamesCommute, Spelled, Lower;
    SortKeeps(node.attributes);
    var own := SortByName(node.attributes);
    if NamesCommute(node.attributes) {
      CommuteSame(node.attributes, own);
      forall sorted | ByName(sorted) && multiset(sorted) == multiset(node.attributes)
        ensures Spelled(own) == Spelled(sorted)
      {
        SortedAlike(own, sorted);
      }
    } else {
      var p, q := Clash(node.attributes);
      var x, y := Distinguish(node.attributes, p, q);
      Behind(Lower(node.name), Spelled(own), Spelled(x));
      Behind(Lower(node.name), Spelled(own), Spelled(y));
    }
  }

  lemma Clash(attributes: Attributes) returns (p: Entry, q: Entry)
    requires !NamesCommute(attributes)
    ensures p in attributes && q in attributes && p.0 == q.0 && !Commute(p, q)
  {
    hide Commute;
    p, q :| p in attributes && q in attributes && p.0 == q.0 && !Commute(p, q);
  }

  lemma Behind(name: string, a: string, b: string)
    ensures name + a == name + b ==> a == b
  {
    if name + a == name + b { assert a == (name + a)[|name|..] && b == (name + b)[|name|..]; }
  }

  lemma CommuteSame(a: Attributes, b: Attributes)
    requires NamesCommute(a) && multiset(a) == multiset(b)
    ensures NamesCommute(b)
  {
    hide Commute;
    SameMembers(a, b);
  }

  /** Nodes that differ in the order of their attributes and the case of their names then have one key. */
  lemma KeyOfReordered(a: BmlNode, b: BmlNode)
    requires SameText(a.name, b.name) && multiset(a.attributes) == multiset(b.attributes)
    requires NamesCommute(a.attributes)
    ensures Key(a) == Key(b)
  {
    hide SortByName, ByName, NamesCommute, Spelled;
    SortKeeps(b.attributes);
    KeyIgnoresOrder(a);
  }

  // ------------------------------------------------------------- the collector

  class Collector {
    var existing: set<string>
    var output: seq<BmlNode>
    var skipped: nat

    constructor ()
      ensures Now() == State({}, [], 0)
    {
      existing, output, skipped := {}, [], 0;
    }

    ghost function Now(): State
      reads this
    {
      State(existing, output, skipped)
    }

    method CollectKeys(node: BmlNode)
      modifies this`existing
      ensures existing == old(existing) + KeysOf(Nodes(node))
      decreases node
    {
      hide Key;
      KeysAppend([node], Below(node.children));
      assert [node][1..] == [];
      if Attribute(node, KART_ID).Some? { existing := existing + {Key(node)}; }
      assert existing == old(existing) + KeysOf([node]);
      assert node.children[..0] == [];
      for i := 0 to |node.children|
        invariant existing == old(existing) + KeysOf([node]) + KeysOf(Below(node.children[..i]))
      {
        BelowStep(node.children, i);
        KeysAppend(Below(node.children[..i]), Nodes(node.children[i]));
        CollectKeys(node.children[i]);
      }
      assert node.children[..|node.children|] == node.children;
    }

    method CollectNodes(node: BmlNode, scope: Scope)
      modifies this
      ensures Now() == Gather(Nodes(node), scope, old(Now()))
      decreases node
    {
      hide Key;
      GatherAppend([node], Below(node.children), scope, Now());
      assert [node][1..] == [];
      ghost var start := Visit(node, scope, Now());
      if Selected(node, scope) {
        if Supported(node, scope) {
          var key := Key(node);
          if key !in existing {
            existing := existing + {key};
            output := output + [node];
          }
        } else {
          skipped := skipped + 1;
        }
      }
      assert node.children[..0] == [];
      for i := 0 to |node.children|
        invariant Now() == Gather(Below(node.children[..i]), scope, start)
      {
        BelowStep(node.children, i);
        GatherAppend(Below(node.children[..i]), Nodes(node.children[i]), scope, start);
        CollectNodes(node.children[i], scope);
      }
      assert node.children[..|node.children|] == node.children;
    }
  }

  lemma BelowStep(children: seq<BmlNode>, i: nat)
    requires i < |children|
    ensures Below(children[..i + 1]) == Below(children[..i]) + Nodes(children[i])
  {
    assert children[..i + 1] == children[..i] + [children[i]];
    BelowAppend(children[..i], [children[i]]);
    assert [children[i]][1..] == [];
    assert Nodes(children[i]) + [] == Nodes(children[i]);
  }

  /** One ability file: the merged tree, and how many nodes were added and skipped. */
  method BuildOverlay(target: BmlNode, source: BmlNode, scope: Scope)
    returns (merged: BmlNode, added: nat, skipped: nat)
    ensures merged == Merged(target, source, scope)
    ensures added == |Additions(target, source, scope).output| && skipped == Skips(Nodes(source), scope)
  {
    hide Gather, Nodes;
    var collector := new Collector();
    collector.CollectKeys(target);
    collector.CollectNodes(source, scope);
    SkippedCount(Nodes(source), scope, State(KeysOf(Nodes(target)), [], 0));
    assert {} + KeysOf(Nodes(target)) == KeysOf(Nodes(target));
    added, skipped := |collector.output|, collector.skipped;
    merged := target.(children := target.children + collector.output);
  }
}
