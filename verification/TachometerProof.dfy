/** Fixed points of the tachometer migration: exactly which migrated trees it leaves alone. */
module TachometerProof {
  import opened Text
  import opened BmlTree
  import opened Tachometer

  // ------------------------------------------------------- one node's edits

  predicate Independent(a: Tweak, b: Tweak) {
    a.RetagWindow? || b.RetagWindow? || !SameText(a.key, b.key)
  }

  lemma TweakHolds(n: BmlNode, tweak: Tweak)
    ensures Holds(ApplyTweak(n, tweak), tweak)
    ensures Holds(n, tweak) <==> ApplyTweak(n, tweak) == n
    ensures ApplyTweak(n, tweak).children == n.children
  {
    match tweak {
      case Set(key, text) =>
        AssignLookup(n.attributes, key, text, key);
        AssignSame(n.attributes, key, text);
      case Remove(key) =>
        WithoutLookup(n.attributes, key, key);
        WithoutNothing(n.attributes, key);
      case RetagWindow =>
    }
  }

  lemma TweakKeeps(n: BmlNode, tweak: Tweak, other: Tweak)
    requires Independent(tweak, other)
    requires !(tweak.RetagWindow? && other.RetagWindow?)
    ensures Holds(ApplyTweak(n, tweak), other) == Holds(n, other)
  {
    match tweak {
      case Set(key, text) =>
        if !other.RetagWindow? { AssignLookup(n.attributes, key, text, other.key); }
      case Remove(key) =>
        if !other.RetagWindow? { WithoutLookup(n.attributes, key, other.key); }
      case RetagWindow =>
    }
  }

  predicate AllIndependent(tweaks: seq<Tweak>) {
    forall i, j :: 0 <= i < j < |tweaks| ==>
      Independent(tweaks[i], tweaks[j]) && !(tweaks[i].RetagWindow? && tweaks[j].RetagWindow?)
  }

  lemma {:induction false} TweaksKeep(n: BmlNode, tweaks: seq<Tweak>, other: Tweak)
    requires forall i :: 0 <= i < |tweaks| ==>
               Independent(tweaks[i], other) && !(tweaks[i].RetagWindow? && other.RetagWindow?)
    ensures Holds(ApplyTweaks(n, tweaks), other) == Holds(n, other)
    decreases tweaks
  {
    if tweaks != [] {
      TweakKeeps(n, tweaks[0], other);
      TweaksKeep(ApplyTweak(n, tweaks[0]), tweaks[1..], other);
    }
  }

  lemma {:induction false} TweaksHold(n: BmlNode, tweaks: seq<Tweak>)
    requires AllIndependent(tweaks)
    ensures forall tweak :: tweak in tweaks ==> Holds(ApplyTweaks(n, tweaks), tweak)
    ensures (forall tweak :: tweak in tweaks ==> Holds(n, tweak)) <==> ApplyTweaks(n, tweaks) == n
    ensures ApplyTweaks(n, tweaks).children == n.children
    decreases tweaks
  {
    if tweaks != [] {
      var m := ApplyTweak(n, tweaks[0]);
      TweakHolds(n, tweaks[0]);
      TweaksHold(m, tweaks[1..]);
      TweaksKeep(m, tweaks[1..], tweaks[0]);
      forall tweak | tweak in tweaks[1..]
        ensures Holds(m, tweak) == Holds(n, tweak)
      {
        TweakKeeps(n, tweaks[0], tweak);
      }
    }
  }

  /** The edits of a row touch pairwise different keys, never the node's name or the root's key. */
  lemma TweakKeys(l: Label)
    ensures AllIndependent(Tweaks(l))
    ensures forall i :: 0 <= i < |Tweaks(l)| && !Tweaks(l)[i].RetagWindow? ==>
              !SameText(Tweaks(l)[i].key, "name") && !SameText(Tweaks(l)[i].key, ROOT_KEY)
  {
    assert |Lower("visible")| == 7 && Lower("visible")[0] == 'v';
    assert |Lower("leftTopTex")| == 10;
    assert |Lower("leftTopWH")| == 9;
    assert |Lower("texture")| == 7 && Lower("texture")[0] == 't';
    assert |Lower("name")| == 4;
    assert |Lower(ROOT_KEY)| == 18;
  }

  lemma {:induction false} TweaksAttribute(n: BmlNode, tweaks: seq<Tweak>, key: string)
    requires forall i :: 0 <= i < |tweaks| && !tweaks[i].RetagWindow? ==> !SameText(tweaks[i].key, key)
    ensures Attribute(ApplyTweaks(n, tweaks), key) == Attribute(n, key)
    decreases tweaks
  {
    if tweaks != [] {
      match tweaks[0] {
        case Set(k, text) => AssignLookup(n.attributes, k, text, key);
        case Remove(k) => WithoutLookup(n.attributes, k, key);
        case RetagWindow =>
      }
      TweaksAttribute(ApplyTweak(n, tweaks[0]), tweaks[1..], key);
    }
  }

  lemma Dressed(n: BmlNode, l: Label)
    requires l != N2o
    ensures var m := ApplyTweaks(n, Tweaks(l));
            && Meets(m, l)
            && (Meets(n, l) <==> m == n)
            && m.children == n.children
            && Attribute(m, "name") == Attribute(n, "name")
            && Attribute(m, ROOT_KEY) == Attribute(n, ROOT_KEY)
  {
    TweakKeys(l);
    TweaksHold(n, Tweaks(l));
    TweaksAttribute(n, Tweaks(l), "name");
    TweaksAttribute(n, Tweaks(l), ROOT_KEY);
  }

  // ------------------------------------------------------------ similarity

  ghost predicate SameLabels(t: BmlNode, u: BmlNode) {
    forall x: Label :: NameIs(t, x) <==> NameIs(u, x)
  }

  ghost predicate OnLeaf(n: BmlNode) {
    n.children == [] && forall x: Label :: NameIs(n, x) <==> x == On
  }

  /** `u` looks to row `l` as `t` does, apart from active icons appended to some nodes. */
  ghost predicate Alike(t: BmlNode, u: BmlNode, l: Label)
    decreases t
  {
    && SameLabels(t, u)
    && (NameIs(t, l) ==> Meets(t, l) == Meets(u, l))
    && |t.children| <= |u.children|
    && (forall k :: 0 <= k < |t.children| ==> Alike(t.children[k], u.children[k], l))
    && (forall k :: |t.children| <= k < |u.children| ==> OnLeaf(u.children[k]))
  }

  lemma {:induction false} AlikeRefl(t: BmlNode, l: Label)
    ensures Alike(t, t, l)
  {
    forall k | 0 <= k < |t.children|
      ensures Alike(t.children[k], t.children[k], l)
    {
      AlikeRefl(t.children[k], l);
    }
  }

  lemma {:induction false} OnLeafFinds(n: BmlNode, x: Label)
    requires OnLeaf(n) && x != On
    ensures FindPath(n, x) == None
  {
  }

  lemma FindInSame(cs: seq<BmlNode>, ds: seq<BmlNode>, x: Label)
    requires |cs| <= |ds|
    requires forall k :: 0 <= k < |cs| ==> FindPath(cs[k], x) == FindPath(ds[k], x)
    requires forall k :: |cs| <= k < |ds| ==> FindPath(ds[k], x) == None
    ensures FindIn(cs, x) == FindIn(ds, x)
  {
    hide NameIs, FindPath, FindIn;
    FindInFirst(cs, x);
    FindInFirst(ds, x);
  }

  lemma {:induction false} AlikeFind(t: BmlNode, u: BmlNode, l: Label, x: Label)
    requires Alike(t, u, l) && x != On
    ensures FindPath(t, x) == FindPath(u, x)
    decreases t
  {
    if !NameIs(t, x) {
      forall k | 0 <= k < |t.children|
        ensures FindPath(t.children[k], x) == FindPath(u.children[k], x)
      {
        AlikeFind(t.children[k], u.children[k], l, x);
      }
      forall k | |t.children| <= k < |u.children|
        ensures FindPath(u.children[k], x) == None
      {
        OnLeafFinds(u.children[k], x);
      }
      FindInSame(t.children, u.children, x);
    }
  }

  lemma AlikeLookup(t: BmlNode, u: BmlNode, l: Label, x: Label)
    requires Alike(t, u, l) && x != On
    ensures LookupPath(t, x) == LookupPath(u, x)
  {
    hide NameIs, Meets;
    if Overlay(x) {
      AlikeFind(t, u, l, ExceedFeatures);
      var parent := FindPath(t, ExceedFeatures);
      if parent.Some? {
        AlikeAt(t, u, parent.value, l);
        AlikeFind(At(t, parent.value), At(u, parent.value), l, x);
      }
    } else {
      AlikeFind(t, u, l, x);
    }
  }

  /** Similar trees agree on whether the row is in order. */
  lemma AlikeRow(t: BmlNode, u: BmlNode, l: Label)
    requires Alike(t, u, l) && l != On
    ensures RowOk(t, l) == RowOk(u, l)
  {
    AlikeLookup(t, u, l, l);
    AlikeFind(t, u, l, N2oAlways);
    var at := LookupPath(t, l);
    if at.Some? { AlikeAt(t, u, at.value, l); AlikeHere(At(t, at.value), At(u, at.value), l); }
  }

  lemma AlikeHere(t: BmlNode, u: BmlNode, l: Label)
    requires Alike(t, u, l)
    ensures SameLabels(t, u) && (NameIs(t, l) ==> Meets(t, l) == Meets(u, l))
  {
  }

  /** Replacing similar nodes at one position keeps two trees similar. */
  lemma {:induction false} AlikePut(t: BmlNode, u: BmlNode, p: Path, n: BmlNode, m: BmlNode, l: Label)
    requires Alike(t, u, l) && Valid(t, p) && Valid(u, p)
    requires Alike(n, m, l) && SameLabels(At(t, p), n)
    ensures Alike(Put(t, p, n), Put(u, p, m), l)
    decreases t
  {
    if p.Down? {
      AlikePut(t.children[p.k], u.children[p.k], p.rest, n, m, l);
      PutLabels(t, p, n);
      assert SameLabels(At(u, p), m) by { AlikeAt(t, u, p, l); }
      PutLabels(u, p, m);
      if NameIs(t, l) {
        PutMeets(t, p, n, l);
        PutMeets(u, p, m, l);
      }
    }
  }

  lemma {:induction false} AlikeAt(t: BmlNode, u: BmlNode, p: Path, l: Label)
    requires Alike(t, u, l) && Valid(t, p)
    ensures Valid(u, p) && Alike(At(t, p), At(u, p), l)
    decreases p
  {
    if p.Down? { AlikeAt(t.children[p.k], u.children[p.k], p.rest, l); }
  }

  lemma {:induction false} PutLabels(t: BmlNode, p: Path, n: BmlNode)
    requires Valid(t, p) && SameLabels(At(t, p), n)
    ensures SameLabels(t, Put(t, p, n))
  {
  }

  /** Whether a node meets its own row depends on its attributes and on its children's names only. */
  lemma PutMeets(t: BmlNode, p: Path, n: BmlNode, l: Label)
    requires p.Down? && Valid(t, p) && SameLabels(At(t, p), n)
    ensures Meets(Put(t, p, n), l) == Meets(t, l)
  {
    var u := Put(t, p, n);
    if l == N2o {
      PutLabels(t.children[p.k], p.rest, n);
      forall k | 0 <= k < |t.children|
        ensures NameIs(t.children[k], On) == NameIs(u.children[k], On)
      {
      }
      if HasOn(t) { var k :| 0 <= k < |t.children| && NameIs(t.children[k], On); assert NameIs(u.children[k], On); }
      if HasOn(u) { var k :| 0 <= k < |u.children| && NameIs(u.children[k], On); assert NameIs(t.children[k], On); }
    } else {
      forall tweak | tweak in Tweaks(l)
        ensures Holds(u, tweak) == Holds(t, tweak)
      {
      }
    }
  }

  // -------------------------------------------- similarity through the steps

  /** Children lists of similar nodes. */
  ghost predicate AlikeAll(cs: seq<BmlNode>, ds: seq<BmlNode>, l: Label)
  {
    && |cs| <= |ds|
    && (forall k :: 0 <= k < |cs| ==> Alike(cs[k], ds[k], l))
    && (forall k :: |cs| <= k < |ds| ==> OnLeaf(ds[k]))
  }

  lemma AlikeCons(c: BmlNode, d: BmlNode, cs: seq<BmlNode>, ds: seq<BmlNode>, l: Label)
    requires Alike(c, d, l) && AlikeAll(cs, ds, l)
    ensures AlikeAll([c] + cs, [d] + ds, l)
  {
  }

  lemma {:induction false} KeepAlike(cs: seq<BmlNode>, ds: seq<BmlNode>, l: Label)
    requires AlikeAll(cs, ds, l)
    ensures AlikeAll(Keep(cs), Keep(ds), l)
    decreases |ds|
  {
    if ds == [] {
    } else if cs == [] {
      KeepLeaves(ds);
    } else {
      AlikeHere(cs[0], ds[0], l);
      KeepAlike(cs[1..], ds[1..], l);
      if !Slice(cs[0]) { AlikeCons(cs[0], ds[0], Keep(cs[1..]), Keep(ds[1..]), l); }
    }
  }

  lemma KeepLeaves(ds: seq<BmlNode>)
    requires forall k :: 0 <= k < |ds| ==> OnLeaf(ds[k])
    ensures forall k :: 0 <= k < |Keep(ds)| ==> OnLeaf(Keep(ds)[k])
  {
  }

  lemma TopMeets(n: BmlNode, m: BmlNode, l: Label)
    requires n.name == m.name && n.attributes == m.attributes
    ensures SameLabels(n, m)
    ensures l != N2o ==> Meets(n, l) == Meets(m, l)
  {
  }

  lemma NotBoth(n: BmlNode, a: Label, b: Label)
    requires NameIs(n, a) && NameIs(n, b)
    ensures a == b
  {
    LabelsDistinct(Attribute(n, "name").value, a, b);
  }

  lemma TrimmedAlike(n: BmlNode, m: BmlNode, l: Label)
    requires Alike(n, m, l) && NameIs(n, InstCharger)
    ensures Alike(Trimmed(n), Trimmed(m), l)
  {
    KeepAlike(n.children, m.children, l);
    AlikeHere(n, m, l);
    TopMeets(n, Trimmed(n), l);
    TopMeets(m, Trimmed(m), l);
    if NameIs(n, l) { NotBoth(n, l, InstCharger); }
  }

  lemma TrimAlike(t: BmlNode, u: BmlNode, l: Label)
    requires Alike(t, u, l)
    ensures Alike(Trim(t), Trim(u), l)
  {
    AlikeFind(t, u, l, InstCharger);
    var c := FindPath(t, InstCharger);
    if c.Some? {
      AlikeAt(t, u, c.value, l);
      TrimmedAlike(At(t, c.value), At(u, c.value), l);
      TopMeets(At(t, c.value), Trimmed(At(t, c.value)), l);
      AlikePut(t, u, c.value, Trimmed(At(t, c.value)), Trimmed(At(u, c.value)), l);
    }
  }

  lemma {:induction false} InSliceAlike(t: BmlNode, u: BmlNode, c: Path, q: Path, l: Label)
    requires Alike(t, u, l) && Valid(t, c) && Valid(t, q) && Valid(u, c) && Valid(u, q)
    ensures InSlice(t, c, q) == InSlice(u, c, q)
    decreases c
  {
    if q.Down? {
      if c.Here? {
        AlikeHere(t.children[q.k], u.children[q.k], l);
      } else if c.k == q.k {
        InSliceAlike(t.children[c.k], u.children[c.k], c.rest, q.rest, l);
      }
    }
  }

  lemma AlikeLost(t: BmlNode, u: BmlNode, l: Label, x: Label)
    requires Alike(t, u, l) && x != On
    ensures Lost(t, x) == Lost(u, x)
  {
    hide NameIs, Meets, Alike;
    AlikeFind(t, u, l, InstCharger);
    AlikeFind(t, u, l, ExceedFeatures);
    AlikeLookup(t, u, l, x);
    var c, parent, q := FindPath(t, InstCharger), FindPath(t, ExceedFeatures), LookupPath(t, x);
    if c.Some? && q.Some? { InSliceAlike(t, u, c.value, q.value, l); }
    if c.Some? && parent.Some? { InSliceAlike(t, u, c.value, parent.value, l); }
  }

  /** Putting a node that looks the same to row `l` leaves the tree alike. */
  lemma PutAlike(t: BmlNode, p: Path, n: BmlNode, l: Label)
    requires Valid(t, p) && Alike(At(t, p), n, l)
    ensures Alike(t, Put(t, p, n), l)
  {
    AlikeRefl(t, l);
    AlikeHere(At(t, p), n, l);
    PutAt(t, p, n);
    AlikePut(t, t, p, At(t, p), n, l);
  }

  /** Equal names, equal children and no change in the row give similar nodes. */
  lemma SameChildrenAlike(n: BmlNode, m: BmlNode, l: Label)
    requires SameLabels(n, m) && n.children == m.children
    requires NameIs(n, l) ==> Meets(n, l) == Meets(m, l)
    ensures Alike(n, m, l)
  {
  }

  lemma ActiveIconName(template: BmlNode)
    ensures Attribute(ActiveIcon(template), "name") == Some("on") && ActiveIcon(template).children == []
  {
    var a1 := Assign(template.attributes, "name", "on");
    var a2 := Assign(a1, "leftTopTex", "0 0");
    var a3 := Assign(a2, "visible", "false");
    var a4 := Without(a3, "windowSize");
    var a5 := Without(a4, "adjust");
    assert |Lower("name")| == 4;
    assert |Lower("leftTopTex")| == 10 && |Lower("visible")| == 7;
    assert |Lower("windowSize")| == 10 && |Lower("adjust")| == 6 && |Lower("align")| == 5;
    AssignLookup(template.attributes, "name", "on", "name");
    AssignLookup(a1, "leftTopTex", "0 0", "name");
    AssignLookup(a2, "visible", "false", "name");
    WithoutLookup(a3, "windowSize", "name");
    WithoutLookup(a4, "adjust", "name");
    WithoutLookup(a5, "align", "name");
  }

  lemma ActiveIconIsLeaf(template: BmlNode)
    ensures OnLeaf(ActiveIcon(template))
  {
    hide ActiveIcon;
    var icon := ActiveIcon(template);
    ActiveIconName(template);
    assert SameText("on", Spelling(On));
    forall x: Label
      ensures NameIs(icon, x) <==> x == On
    {
      if NameIs(icon, x) { LabelsDistinct("on", x, On); }
    }
  }

  lemma PushAlike(n: BmlNode, icon: BmlNode, l: Label)
    requires OnLeaf(icon) && (NameIs(n, l) ==> l != N2o)
    ensures Alike(n, Push(n, icon), l)
  {
    TopMeets(n, Push(n, icon), l);
    forall k | 0 <= k < |n.children|
      ensures Alike(n.children[k], Push(n, icon).children[k], l)
    {
      AlikeRefl(n.children[k], l);
    }
  }

  lemma NameLabels(n: BmlNode, m: BmlNode)
    requires Attribute(n, "name") == Attribute(m, "name")
    ensures SameLabels(n, m)
  {
  }

  lemma ActivateAlike(t: BmlNode, l: Label)
    requires l != N2o
    ensures Alike(t, Step(t, N2o), l)
  {
    hide Alike, Meets, ActiveIcon, NameIs, HasOn;
    AlikeRefl(t, l);
    var at, template := LookupPath(t, N2o), FindPath(t, N2oAlways);
    if at.Some? && template.Some? && !HasOn(At(t, at.value)) {
      var n, icon := At(t, at.value), ActiveIcon(At(t, template.value));
      if NameIs(n, l) { NotBoth(n, l, N2o); }
      ActiveIconIsLeaf(At(t, template.value));
      PushAlike(n, icon, l);
      PutAlike(t, at.value, Push(n, icon), l);
    }
  }

  /** The step of one row is invisible to every other row. */
  lemma StepAlike(t: BmlNode, x: Label, l: Label)
    requires x != l
    ensures Alike(t, Step(t, x), l)
  {
    hide Alike, Meets, Tweaks, NameIs, Attribute;
    var at := LookupPath(t, x);
    if at.None? {
      AlikeRefl(t, l);
    } else if x == N2o {
      ActivateAlike(t, l);
    } else {
      var n := At(t, at.value);
      if NameIs(n, l) { NotBoth(n, l, x); }
      var m := ApplyTweaks(n, Tweaks(x));
      Dressed(n, x);
      NameLabels(n, m);
      SameChildrenAlike(n, m, l);
      PutAlike(t, at.value, m, l);
    }
  }

  lemma RootedAlike(t: BmlNode, l: Label)
    ensures Alike(t, Rooted(t), l)
  {
    var u := Rooted(t);
    assert |Lower("name")| == 4 && |Lower(ROOT_KEY)| == 18;
    AssignLookup(t.attributes, ROOT_KEY, "1000", "name");
    TweakKeys(l);
    if l != N2o {
      forall tweak | tweak in Tweaks(l)
        ensures Holds(t, tweak) == Holds(u, tweak)
      {
        TweakKeeps(t, Set(ROOT_KEY, "1000"), tweak);
      }
    } else {
      assert HasOn(t) == HasOn(u);
    }
    SameChildrenAlike(t, u, l);
  }
}
