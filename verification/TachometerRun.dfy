/** The migration as a procedure: a work list for the renames, then the rows in source order. */
module TachometerRun {
  import opened Text
  import opened BmlTree
  import opened Tachometer
  import TachometerProof
  import TachometerFixpoint
  import TachometerTheorems

  // -------------------------------------------------- the rename work list

  /** The tree that results from renaming everything below the pending positions, last one first. */
  ghost function Finish(u: BmlNode, pending: seq<Path>): BmlNode
    decreases |pending|
  {
    if pending == [] then u
    else
      var p := pending[|pending| - 1];
      var rest := pending[..|pending| - 1];
      if Valid(u, p) then Finish(Put(u, p, Renamed(At(u, p))), rest) else Finish(u, rest)
  }

  function Kids(p: Path, n: nat): (r: seq<Path>)
    ensures |r| == n && forall k :: 0 <= k < n ==> r[k] == Kid(p, k)
  {
    if n == 0 then [] else Kids(p, n - 1) + [Kid(p, n - 1)]
  }

  ghost function PartlyRenamed(n: BmlNode, k: nat): BmlNode
    requires k <= |n.children|
  {
    n.(children := RenamedAll(n.children[..k]) + n.children[k..])
  }

  lemma PartlyRenamedNone(n: BmlNode)
    ensures PartlyRenamed(n, 0) == n
  {
  }

  lemma PartlyRenamedOne(n: BmlNode, k: nat)
    requires 0 < k <= |n.children|
    ensures var m := n.(children := n.children[k - 1 := Renamed(n.children[k - 1])]);
            PartlyRenamed(m, k - 1) == PartlyRenamed(n, k)
  {
    var m := n.(children := n.children[k - 1 := Renamed(n.children[k - 1])]);
    var a, b := PartlyRenamed(m, k - 1).children, PartlyRenamed(n, k).children;
    assert |a| == |b|;
    forall i | 0 <= i < |a|
      ensures a[i] == b[i]
    {
    }
  }

  lemma FinishLast(u: BmlNode, pending: seq<Path>, p: Path)
    requires Valid(u, p)
    ensures Finish(u, pending + [p]) == Finish(Put(u, p, Renamed(At(u, p))), pending)
  {
  }

  /** Renaming the first `k` children, from the last of them down, renames them all. */
  lemma {:induction false} FinishKids(u: BmlNode, p: Path, k: nat, pending: seq<Path>)
    requires Valid(u, p) && k <= |At(u, p).children|
    ensures Finish(u, pending + Kids(p, k)) == Finish(Put(u, p, PartlyRenamed(At(u, p), k)), pending)
    decreases k
  {
    hide Renamed, PartlyRenamed, Valid, At, Put, Finish;
    var n := At(u, p);
    if k == 0 {
      assert pending + Kids(p, 0) == pending;
      PartlyRenamedNone(n);
      PutAt(u, p, n);
    } else {
      var child := Renamed(n.children[k - 1]);
      var m := n.(children := n.children[k - 1 := child]);
      PutKid(u, p, k - 1, child);
      PutAt(u, p, m);
      calc {
        Finish(u, pending + Kids(p, k));
        { assert pending + Kids(p, k) == (pending + Kids(p, k - 1)) + [Kid(p, k - 1)]; }
        Finish(u, (pending + Kids(p, k - 1)) + [Kid(p, k - 1)]);
        { FinishLast(u, pending + Kids(p, k - 1), Kid(p, k - 1)); }
        Finish(Put(u, p, m), pending + Kids(p, k - 1));
        { FinishKids(Put(u, p, m), p, k - 1, pending); }
        Finish(Put(Put(u, p, m), p, PartlyRenamed(m, k - 1)), pending);
        { PutPut(u, p, m, PartlyRenamed(m, k - 1)); PartlyRenamedOne(n, k); }
        Finish(Put(u, p, PartlyRenamed(n, k)), pending);
      }
    }
  }

  /** Renaming one node and queueing its children is as good as having it pending. */
  lemma FinishStep(u: BmlNode, p: Path, pending: seq<Path>)
    requires Valid(u, p)
    ensures var n := RenameTop(At(u, p));
            Finish(Put(u, p, n), pending + Kids(p, |n.children|)) == Finish(u, pending + [p])
  {
    var n := RenameTop(At(u, p));
    PutAt(u, p, n);
    FinishKids(Put(u, p, n), p, |n.children|, pending);
    assert n.children[..|n.children|] == n.children;
    assert PartlyRenamed(n, |n.children|) == Renamed(At(u, p));
    PutPut(u, p, n, Renamed(At(u, p)));
    assert (pending + [p])[..|pending|] == pending;
  }

  ghost predicate SameShape(a: BmlNode, b: BmlNode) {
    |a.children| == |b.children| && forall k :: 0 <= k < |a.children| ==> SameShape(a.children[k], b.children[k])
  }

  lemma {:induction false} ShapeRefl(a: BmlNode)
    ensures SameShape(a, a)
  {
    forall k | 0 <= k < |a.children| ensures SameShape(a.children[k], a.children[k]) { ShapeRefl(a.children[k]); }
  }

  lemma {:induction false} ShapeAt(a: BmlNode, b: BmlNode, p: Path)
    requires SameShape(a, b) && Valid(a, p)
    ensures Valid(b, p) && SameShape(At(a, p), At(b, p))
    decreases p
  {
    if p.Down? { ShapeAt(a.children[p.k], b.children[p.k], p.rest); }
  }

  lemma {:induction false} ShapePut(a: BmlNode, b: BmlNode, p: Path, n: BmlNode)
    requires SameShape(a, b) && Valid(b, p) && n.children == At(b, p).children
    ensures SameShape(a, Put(b, p, n))
    decreases p
  {
    if p.Down? { ShapePut(a.children[p.k], b.children[p.k], p.rest, n); }
  }

  ghost function Size(t: BmlNode): nat {
    1 + SizeAll(t.children)
  }

  ghost function SizeAll(cs: seq<BmlNode>): nat {
    if cs == [] then 0 else SizeAll(cs[..|cs| - 1]) + Size(cs[|cs| - 1])
  }

  /** Nodes of the original tree still to be visited. */
  ghost function Weight(t: BmlNode, pending: seq<Path>): nat
    decreases |pending|
  {
    if pending == [] then 0
    else
      var p := pending[|pending| - 1];
      Weight(t, pending[..|pending| - 1]) + if Valid(t, p) then Size(At(t, p)) else 1
  }

  lemma {:induction false} WeightKids(t: BmlNode, p: Path, k: nat, pending: seq<Path>)
    requires Valid(t, p) && k <= |At(t, p).children|
    ensures Weight(t, pending + Kids(p, k)) == Weight(t, pending) + SizeAll(At(t, p).children[..k])
    decreases k
  {
    if k == 0 {
      assert pending + Kids(p, 0) == pending;
    } else {
      var all := pending + Kids(p, k);
      assert all[|all| - 1] == Kid(p, k - 1);
      assert all[..|all| - 1] == pending + Kids(p, k - 1);
      PutKid(t, p, k - 1, At(t, p));
      WeightKids(t, p, k - 1, pending);
      var cs := At(t, p).children[..k];
      assert cs[..k - 1] == At(t, p).children[..k - 1];
    }
  }

  lemma {:induction false} ObsoleteAt(t: BmlNode, p: Path)
    requires Valid(t, p) && Obsolete(At(t, p))
    ensures AnyObsolete(t)
    decreases p
  {
    if p.Down? { ObsoleteAt(t.children[p.k], p.rest); }
  }

  lemma VisitKids(t: BmlNode, p: Path, pending: seq<Path>)
    requires Valid(t, p) && forall q :: q in pending ==> Valid(t, q)
    ensures var kids := Kids(p, |At(t, p).children|);
            && (forall q :: q in pending + kids ==> Valid(t, q))
            && Weight(t, pending + kids) < Weight(t, pending + [p])
  {
    var n := At(t, p);
    WeightKids(t, p, |n.children|, pending);
    assert n.children[..|n.children|] == n.children;
    assert (pending + [p])[..|pending|] == pending;
    forall q | q in Kids(p, |n.children|)
      ensures Valid(t, q)
    {
      var k :| 0 <= k < |n.children| && q == Kid(p, k);
      PutKid(t, p, k, n);
    }
  }

  /** Renames every obsolete node, visiting the tree through a stack of borrowed nodes. */
  method RenameNodes(t: BmlNode) returns (root: BmlNode, changed: bool)
    ensures root == Renamed(t)
    ensures changed <==> root != t
  {
    root, changed := t, false;
    var pending: seq<Path> := [Here];
    ShapeRefl(t);
    assert Finish(t, pending) == Renamed(t) by { assert pending[..0] == []; }
    while pending != []
      invariant SameShape(t, root)
      invariant forall p :: p in pending ==> Valid(t, p)
      invariant Finish(root, pending) == Renamed(t)
      invariant changed ==> AnyObsolete(t)
      invariant !changed ==> root == t
      decreases Weight(t, pending)
    {
      var p := pending[|pending| - 1];
      assert pending == pending[..|pending| - 1] + [p];
      pending := pending[..|pending| - 1];
      VisitKids(t, p, pending);
      ShapeAt(t, root, p);
      FinishStep(root, p, pending);
      var n := At(root, p);
      if Obsolete(n) {
        if !changed { ObsoleteAt(t, p); }
        changed := true;
      }
      PutAt(root, p, n);
      ShapePut(t, root, p, RenameTop(n));
      root := Put(root, p, RenameTop(n));
      pending := pending + Kids(p, |n.children|);
    }
    TachometerTheorems.RenamedFinal(t);
  }

  // --------------------------------------------------------------- the rows

  /** Applies the edits of one row to a borrowed node and says whether any of them changed it. */
  method Dress(node: BmlNode, l: Label) returns (r: BmlNode, changed: bool)
    requires l != N2o
    ensures r == ApplyTweaks(node, Tweaks(l))
    ensures changed <==> r != node
  {
    var tweaks := Tweaks(l);
    r, changed := node, false;
    for i := 0 to |tweaks|
      invariant ApplyTweaks(r, tweaks[i..]) == ApplyTweaks(node, tweaks)
      invariant changed ==> exists tweak :: tweak in tweaks && !Holds(node, tweak)
      invariant !changed ==> r == node
    {
      assert tweaks[i..][0] == tweaks[i] && tweaks[i..][1..] == tweaks[i + 1..];
      TachometerProof.TweakHolds(r, tweaks[i]);
      if !Holds(r, tweaks[i]) {
        assert tweaks[i] in tweaks;
        changed := true;
      }
      r := ApplyTweak(r, tweaks[i]);
    }
    TachometerProof.Dressed(node, l);
  }

  /** One row: look the node up, edit it in place. */
  method RunRow(root: BmlNode, l: Label) returns (r: BmlNode, changed: bool)
    ensures r == Step(root, l)
    ensures changed <==> r != root
  {
    r, changed := root, false;
    var at := LookupPath(root, l);
    if at.Some? {
      var node := At(root, at.value);
      PutAt(root, at.value, node);
      if l == N2o {
        var template := FindPath(root, N2oAlways);
        if template.Some? && !HasOn(node) {
          var icon := ActiveIcon(At(root, template.value));
          PutAt(root, at.value, Push(node, icon));
          assert |Push(node, icon).children| == |node.children| + 1;
          r, changed := Put(root, at.value, Push(node, icon)), true;
        }
      } else {
        var dressed;
        dressed, changed := Dress(node, l);
        PutAt(root, at.value, dressed);
        r := Put(root, at.value, dressed);
      }
    }
  }

  /** The charger's own work: cut the synthetic slices, then settle the gauge. */
  method RunCharger(root: BmlNode) returns (r: BmlNode, changed: bool)
    ensures r == Gauge(Trim(root))
    ensures changed <==> !ChargerOk(root)
    ensures !changed ==> r == root
  {
    r, changed := root, false;
    var at := FindPath(root, InstCharger);
    if at.Some? {
      var node := At(root, at.value);
      var kept := Keep(node.children);
      changed := |kept| != |node.children|;
      KeepLength(node.children);
      var i := GaugeIndex(kept);
      var settled := kept;
      if i < |kept| {
        TachometerFixpoint.DressGaugeFacts(kept[i]);
        changed := changed || DressGauge(kept[i]) != kept[i];
        settled := kept[i := DressGauge(kept[i])];
      }
      TachometerFixpoint.TrimFindsCharger(root);
      PutPut(root, at.value, Trimmed(node), Gauged(Trimmed(node)));
      r := Put(root, at.value, node.(children := settled));
      if !changed { TachometerTheorems.ChargerSettled(root); }
    } else {
      r := root;
    }
  }

  lemma {:induction false} KeepLength(cs: seq<BmlNode>)
    ensures |Keep(cs)| == |cs| <==> forall k :: 0 <= k < |cs| ==> !Slice(cs[k])
    ensures |Keep(cs)| == |cs| ==> Keep(cs) == cs
  {
    hide Slice;
    if cs != [] {
      var c, rest := cs[0], cs[1..];
      KeepLength(rest);
      assert cs == [c] + rest;
      if Slice(c) {
        assert |Keep(cs)| == |Keep(rest)| < |cs|;
      } else if |Keep(rest)| == |rest| {
        forall k | 0 <= k < |cs|
          ensures !Slice(cs[k])
        {
          if k > 0 { assert cs[k] == rest[k - 1]; }
        }
      } else {
        var k :| 0 <= k < |rest| && Slice(rest[k]);
        assert Slice(cs[k + 1]);
      }
    }
  }

  lemma {:induction false} StepsAppend(t: BmlNode, ls: seq<Label>, l: Label)
    ensures Steps(t, ls + [l]) == Step(Steps(t, ls), l)
    decreases ls
  {
    if ls == [] {
      assert [] + [l] == [l];
    } else {
      assert (ls + [l])[1..] == ls[1..] + [l];
      StepsAppend(Step(t, ls[0]), ls[1..], l);
    }
  }

  /** The whole migration of one decoded tree; `changed` says exactly whether the tree differs. */
  method NormalizeTachometer(input: BmlNode) returns (root: BmlNode, changed: bool)
    ensures root == Migrated(input)
    ensures changed <==> root != input
  {
    hide RowOk, Step, Trim, Gauge, ChargerOk, Renamed;
    root, changed := RenameNodes(input);
    TachometerTheorems.RenamedFinal(input);
    ghost var base := Rooted(root);
    AssignSame(root.attributes, ROOT_KEY, "1000");
    changed := changed || Attribute(root, ROOT_KEY) != Some("1000");
    root := SetAttribute(root, ROOT_KEY, "1000");
    for k := 0 to |ORDER|
      invariant root == Steps(base, ORDER[..k])
      invariant changed ==> !Settled(input)
      invariant !changed ==> root == input
    {
      assert ORDER[..k + 1] == ORDER[..k] + [ORDER[k]];
      StepsAppend(base, ORDER[..k], ORDER[k]);
      ghost var before := root;
      if RowOk(before, ORDER[k]) { TachometerTheorems.StepSettled(before, ORDER[k]); }
      var moved;
      root, moved := RunRow(root, ORDER[k]);
      changed := changed || moved;
    }
    assert ORDER[..|ORDER|] == ORDER;
    var moved;
    root, moved := RunCharger(root);
    changed := changed || moved;
    TachometerTheorems.FixedPoints(input);
  }

  /** The importer's test for a tachometer file: the staged tree is the settled form of the existing one. */
  method IsSafeTachometerMigration(existing: BmlNode, staged: BmlNode) returns (safe: bool)
    ensures safe <==> staged == Migrated(existing) && staged != existing && TachometerTheorems.NoHarmfulLoss(existing)
  {
    var normalized, changed := NormalizeTachometer(existing);
    var stagedNormalized, stagedChanged := NormalizeTachometer(staged);
    TachometerTheorems.Idempotent(existing);
    safe := changed && !stagedChanged && normalized == stagedNormalized;
  }
}
