/** What the ability merge takes for the same ability, which of several nodes it adds, and what makes a node count. */
module AbilityKeys {
  import opened Text
  import opened BmlTree
  import opened AbilityMerge
  import ArchiveNames

  // ------------------------------------------------------------ what a key tells

  predicate Free(s: string) {
    '|' !in s && '=' !in s
  }

  predicate AllFree(attributes: Attributes) {
    forall i :: 0 <= i < |attributes| ==> Free(attributes[i].0) && Free(attributes[i].1)
  }

  lemma LowerFree(s: string)
    requires Free(s)
    ensures Free(Lower(s))
  {
    forall i | 0 <= i < |s|
      ensures Lower(s)[i] != '|' && Lower(s)[i] != '='
    {
      assert s[i] in s;
    }
  }

  lemma CutOnce(a: string, s: string, b: string, t: string, c: char)
    requires c !in a && c !in b && a + [c] + s == b + [c] + t
    ensures a == b && s == t
  {
    var x := a + [c] + s;
    assert x[|a|] == c && x[|b|] == c;
    assert forall i :: 0 <= i < |a| ==> x[i] == a[i];
    assert forall i :: 0 <= i < |b| ==> x[i] == b[i];
    assert x[..|a|] == a && x[..|b|] == b;
    assert x[|a| + 1..] == s && x[|b| + 1..] == t;
  }

  /** A text that ends before a bar, or with everything. */
  lemma EndOnce(a: string, s: string, b: string, t: string)
    requires '|' !in a && '|' !in b && a + s == b + t
    requires (s == "" || s[0] == '|') && (t == "" || t[0] == '|')
    ensures a == b && s == t
  {
    assert (a + s) + "|" == (b + t) + "|";
    var u, v := (s + "|")[1..], (t + "|")[1..];
    assert a + ['|'] + u == a + s + "|" && b + ['|'] + v == b + t + "|";
    CutOnce(a, u, b, v, '|');
    assert (a + s)[|a|..] == s && (b + t)[|b|..] == t;
  }

  /** Attributes are equal but for case. */
  predicate SameEntries(x: Attributes, y: Attributes) {
    |x| == |y| && forall i :: 0 <= i < |x| ==> SameText(x[i].0, y[i].0) && SameText(x[i].1, y[i].1)
  }

  lemma SpelledParts(x: Attributes)
    ensures x == [] ==> Spelled(x) == ""
    ensures x != [] ==> Spelled(x) == ['|'] + (Lower(x[0].0) + ['='] + (Lower(x[0].1) + Spelled(x[1..])))
    ensures Spelled(x) == "" || Spelled(x)[0] == '|'
  {
    hide Lower;
  }

  lemma {:induction false} SpelledTells(x: Attributes, y: Attributes)
    requires AllFree(x) && AllFree(y) && Spelled(x) == Spelled(y)
    ensures SameEntries(x, y)
    decreases x
  {
    hide Spelled, Lower, Free;
    SpelledParts(x);
    SpelledParts(y);
    if x != [] && y != [] {
      SpelledParts(x[1..]);
      SpelledParts(y[1..]);
      var a, b := Lower(x[0].1) + Spelled(x[1..]), Lower(y[0].1) + Spelled(y[1..]);
      FreeEntry(x);
      FreeEntry(y);
      assert Spelled(x)[1..] == Lower(x[0].0) + ['='] + a && Spelled(y)[1..] == Lower(y[0].0) + ['='] + b;
      CutOnce(Lower(x[0].0), a, Lower(y[0].0), b, '=');
      EndOnce(Lower(x[0].1), Spelled(x[1..]), Lower(y[0].1), Spelled(y[1..]));
      SpelledTells(x[1..], y[1..]);
      EntriesMore(x, y);
    }
  }

  lemma EntriesMore(x: Attributes, y: Attributes)
    requires x != [] && y != [] && SameText(x[0].0, y[0].0) && SameText(x[0].1, y[0].1) && SameEntries(x[1..], y[1..])
    ensures SameEntries(x, y)
  {
    hide SameText;
    forall i | 0 <= i < |x|
      ensures SameText(x[i].0, y[i].0) && SameText(x[i].1, y[i].1)
    {
      if i > 0 { assert x[i] == x[1..][i - 1] && y[i] == y[1..][i - 1]; }
    }
  }

  lemma FreeEntry(x: Attributes)
    requires x != [] && AllFree(x)
    ensures '=' !in Lower(x[0].0) && '|' !in Lower(x[0].0) && '|' !in Lower(x[0].1) && AllFree(x[1..])
  {
    hide Lower;
    LowerFree(x[0].0);
    LowerFree(x[0].1);
  }

  lemma SortFree(attributes: Attributes)
    requires AllFree(attributes)
    ensures AllFree(SortByName(attributes))
  {
    hide SortByName, Free;
    SortKeeps(attributes);
    var sorted := SortByName(attributes);
    SameMembers(sorted, attributes);
    forall i | 0 <= i < |sorted|
      ensures Free(sorted[i].0) && Free(sorted[i].1)
    {
      assert sorted[i] in sorted;
    }
  }

  /**
   Nodes whose names and attributes hold no bar and no equals sign have one key exactly when they agree, but for case,
   in their names and in their attributes by name.
   */
  lemma KeysTell(a: BmlNode, b: BmlNode)
    requires '|' !in a.name && '|' !in b.name && AllFree(a.attributes) && AllFree(b.attributes)
    ensures Key(a) == Key(b) <==>
              SameText(a.name, b.name) && SameEntries(SortByName(a.attributes), SortByName(b.attributes))
  {
    hide Spelled, SortByName, Lower, AllFree;
    var x, y := SortByName(a.attributes), SortByName(b.attributes);
    SortFree(a.attributes);
    SortFree(b.attributes);
    SpelledParts(x);
    SpelledParts(y);
    if Key(a) == Key(b) {
      NoBar(a.name);
      NoBar(b.name);
      EndOnce(Lower(a.name), Spelled(x), Lower(b.name), Spelled(y));
      SpelledTells(x, y);
    }
    if SameEntries(x, y) { EntriesSpelled(x, y); }
  }

  lemma NoBar(s: string)
    requires '|' !in s
    ensures '|' !in Lower(s)
  {
    forall i | 0 <= i < |s|
      ensures Lower(s)[i] != '|'
    {
      assert s[i] in s;
    }
  }

  lemma {:induction false} EntriesSpelled(x: Attributes, y: Attributes)
    requires SameEntries(x, y)
    ensures Spelled(x) == Spelled(y)
    decreases x
  {
    hide Lower;
    if x != [] {
      forall i | 0 <= i < |x[1..]|
        ensures x[1..][i] == x[i + 1] && y[1..][i] == y[i + 1]
      {
      }
      EntriesSpelled(x[1..], y[1..]);
    }
  }

  /** A bar in a value can make two different abilities look alike. */
  lemma BarsCanCollide()
    ensures var a := BmlNode("k", "", [("n", "a|n=b")], []);
            var b := BmlNode("k", "", [("n", "a"), ("n", "b")], []);
            Key(a) == Key(b) && |a.attributes| != |b.attributes|
  {
    var x, y: Attributes := [("n", "a|n=b")], [("n", "a"), ("n", "b")];
    LexIrreflexive("n");
    assert x[1..] == [] && y[1..] == [("n", "b")] && y[1..][1..] == [];
    assert SortByName(x) == x && SortByName(y) == y;
    assert Spelled(x) == "|n=a|n=b" == Spelled(y);
  }

  // ------------------------------------------------------- which nodes count

  /** A kart id is a decimal number of 16 bits, with any zeros before it and perhaps a plus sign. */
  lemma ParseIdExactly(s: string, n: nat)
    ensures ParseId(s) == Some(n) <==>
              n <= 0xFFFF
              && exists width :: s == ArchiveNames.Padded(n, width) || s == "+" + ArchiveNames.Padded(n, width)
  {
    hide ArchiveNames.Padded;
    if ParseId(s) == Some(n) {
      var digits := if s != "" && s[0] == '+' then s[1..] else s;
      ArchiveNames.PaddedBack(digits);
      if digits != s { assert s == "+" + digits; }
      assert digits == ArchiveNames.Padded(n, |digits|);
    }
    if width :| s == ArchiveNames.Padded(n, width) || s == "+" + ArchiveNames.Padded(n, width) {
      var p := ArchiveNames.Padded(n, width);
      ArchiveNames.PaddedValue(n, width);
      assert Digit(p[0]);
      if s != p { assert s[1..] == p; }
    }
  }

  predicate Names(node: BmlNode, name: string, items: set<string>) {
    Attribute(node, name).None? || Lower(Attribute(node, name).value) in items
  }

  /** A node counts when its kart was imported and the client knows every item it refers to. */
  lemma EligibleExactly(node: BmlNode, scope: Scope)
    ensures Eligible(node, scope) <==>
              && (exists n :: n in scope.karts && Attribute(node, "kartId").Some?
                              && ParseId(Attribute(node, "kartId").value) == Some(n))
              && Names(node, "srcIdx", scope.items) && Names(node, "dstIdx", scope.items)
              && Names(node, "firedItemIdx", scope.items) && Names(node, "firingItemIdx", scope.items)
              && Names(node, "gainItemIdx", scope.items)
  {
    hide ParseId, Attribute, Lower;
    assert Supported(node, scope) <==>
      && Names(node, REFERENCES[0], scope.items) && Names(node, REFERENCES[1], scope.items)
      && Names(node, REFERENCES[2], scope.items) && Names(node, REFERENCES[3], scope.items)
      && Names(node, REFERENCES[4], scope.items);
  }

  ghost predicate Holds(t: BmlNode, n: BmlNode) {
    exists p :: Valid(t, p) && At(t, p) == n
  }

  ghost predicate HoldsBelow(cs: seq<BmlNode>, n: BmlNode) {
    exists k: nat :: k < |cs| && Holds(cs[k], n)
  }

  lemma HoldsDown(t: BmlNode, n: BmlNode)
    ensures Holds(t, n) <==> n == t || HoldsBelow(t.children, n)
  {
    if p :| Valid(t, p) && At(t, p) == n {
      if p.Down? { assert Valid(t.children[p.k], p.rest) && At(t.children[p.k], p.rest) == n; }
    }
    if n == t { assert Valid(t, Here) && At(t, Here) == n; }
    if k: nat :| k < |t.children| && Holds(t.children[k], n) {
      var p :| Valid(t.children[k], p) && At(t.children[k], p) == n;
      assert Valid(t, Down(k, p)) && At(t, Down(k, p)) == n;
    }
  }

  /** The nodes of a tree are those at its positions. */
  lemma {:induction false} NodesExactly(t: BmlNode, n: BmlNode)
    ensures n in Nodes(t) <==> Holds(t, n)
    decreases t
  {
    hide Holds;
    BelowExactly(t.children, n);
    HoldsDown(t, n);
  }

  lemma {:induction false} BelowExactly(cs: seq<BmlNode>, n: BmlNode)
    ensures n in Below(cs) <==> HoldsBelow(cs, n)
    decreases cs
  {
    hide Holds;
    if cs != [] {
      NodesExactly(cs[0], n);
      BelowExactly(cs[1..], n);
      if k: nat :| k < |cs[1..]| && Holds(cs[1..][k], n) { assert Holds(cs[k + 1], n); }
      if k: nat :| k < |cs| && Holds(cs[k], n) {
        if k > 0 { assert Holds(cs[1..][k - 1], n); }
      }
    }
  }

  // --------------------------------------------------------- which node is added

  /** The node is eligible, and neither the keys before nor an earlier eligible node has its key. */
  predicate Newcomer(nodes: seq<BmlNode>, scope: Scope, before: set<string>, i: nat)
    requires i < |nodes|
  {
    && Eligible(nodes[i], scope) && Key(nodes[i]) !in before
    && forall j :: 0 <= j < i && Eligible(nodes[j], scope) ==> Key(nodes[j]) != Key(nodes[i])
  }

  function Newcomers(nodes: seq<BmlNode>, scope: Scope, before: set<string>, n: nat): nat
    requires n <= |nodes|
  {
    if n == 0 then 0
    else Newcomers(nodes, scope, before, n - 1) + if Newcomer(nodes, scope, before, n - 1) then 1 else 0
  }

  lemma {:induction false} GatherNext(nodes: seq<BmlNode>, scope: Scope, s: State, n: nat)
    requires n < |nodes|
    ensures Gather(nodes[..n + 1], scope, s) == Visit(nodes[n], scope, Gather(nodes[..n], scope, s))
  {
    hide Visit;
    assert nodes[..n + 1] == nodes[..n] + [nodes[n]];
    GatherAppend(nodes[..n], [nodes[n]], scope, s);
    assert [nodes[n]][1..] == [];
  }

  /** The keys after a while: those before, and those of the eligible nodes so far. */
  lemma {:induction false} GatherKeys(nodes: seq<BmlNode>, scope: Scope, before: set<string>, n: nat)
    requires n <= |nodes|
    ensures var s := Gather(nodes[..n], scope, State(before, [], 0));
            forall key :: key in s.existing <==>
                            key in before || exists j :: 0 <= j < n && Eligible(nodes[j], scope) && Key(nodes[j]) == key
  {
    hide Key, Selected, Supported;
    if n > 0 {
      GatherKeys(nodes, scope, before, n - 1);
      GatherNext(nodes, scope, State(before, [], 0), n - 1);
    }
  }

  /** The additions are exactly the newcomers, in the order of the nodes. */
  lemma {:induction false} AdditionsExactly(nodes: seq<BmlNode>, scope: Scope, before: set<string>, n: nat, i: nat)
    requires i < n <= |nodes|
    ensures var output := Gather(nodes[..n], scope, State(before, [], 0)).output;
            && |output| == Newcomers(nodes, scope, before, n)
            && (Newcomer(nodes, scope, before, i) ==>
                  Newcomers(nodes, scope, before, i) < |output|
                  && output[Newcomers(nodes, scope, before, i)] == nodes[i])
    decreases n
  {
    hide Key, Eligible;
    var start := State(before, [], 0);
    GatherKeys(nodes, scope, before, n - 1);
    GatherNext(nodes, scope, start, n - 1);
    VisitAdds(nodes[n - 1], scope, Gather(nodes[..n - 1], scope, start));
    if n == 1 { assert nodes[..0] == []; }
    if i < n - 1 {
      AdditionsExactly(nodes, scope, before, n - 1, i);
    } else if n > 1 {
      AdditionsExactly(nodes, scope, before, n - 1, 0);
    }
  }

  lemma VisitAdds(node: BmlNode, scope: Scope, s: State)
    ensures Visit(node, scope, s).output
         == if Eligible(node, scope) && Key(node) !in s.existing then s.output + [node] else s.output
  {
    hide Key, Selected, Supported;
  }

  /** A merged tree is the target with the newcomers of the source behind its children. */
  lemma MergedExactly(target: BmlNode, source: BmlNode, scope: Scope, i: nat)
    requires i < |Nodes(source)|
    ensures var merged, nodes, before := Merged(target, source, scope), Nodes(source), KeysOf(Nodes(target));
            && merged.name == target.name && merged.value == target.value && merged.attributes == target.attributes
            && target.children <= merged.children
            && |merged.children| == |target.children| + Newcomers(nodes, scope, before, |nodes|)
            && (Newcomer(nodes, scope, before, i) ==>
                  |target.children| + Newcomers(nodes, scope, before, i) < |merged.children|
                  && merged.children[|target.children| + Newcomers(nodes, scope, before, i)] == nodes[i])
  {
    hide Nodes, KeysOf, Gather, Newcomer, Newcomers;
    var nodes := Nodes(source);
    AdditionsExactly(nodes, scope, KeysOf(Nodes(target)), |nodes|, i);
    assert nodes[..|nodes|] == nodes;
  }
}
