/**
 What the tachometer migration does at every position of a tree, in the literal names and attributes of the resource:
 which nodes it looks up, what it changes there, and that it changes nothing else.
 */
module TachometerFrame {
  import opened Text
  import opened BmlTree
  import opened Tachometer
  import opened TachometerProof
  import opened TachometerFixpoint

  // --------------------------------------------------------- the first node

  /** `p` is visited before `q` when a node comes before its children and children come in order. */
  predicate Before(p: Path, q: Path) {
    q.Down? && (p.Here? || p.k < q.k || (p.k == q.k && Before(p.rest, q.rest)))
  }

  /** The first node with the name. */
  ghost predicate First(t: BmlNode, p: Path, text: string) {
    && Valid(t, p) && Called(At(t, p), text)
    && forall q :: Valid(t, q) && Before(q, p) ==> !Called(At(t, q), text)
  }

  lemma {:induction false} FindSome(t: BmlNode, q: Path, l: Label)
    requires Valid(t, q) && NameIs(At(t, q), l)
    ensures FindPath(t, l).Some?
    decreases q
  {
    if q.Down? && !NameIs(t, l) {
      FindSome(t.children[q.k], q.rest, l);
      if FindPath(t, l).None? { FindNoneBelow(t, l); }
    }
  }

  lemma {:induction false} FoundFirst(t: BmlNode, l: Label, q: Path)
    requires FindPath(t, l).Some? && Valid(t, q) && Before(q, FindPath(t, l).value)
    ensures !NameIs(At(t, q), l)
    decreases q
  {
    hide Called;
    FoundBelow(t, l);
    if q.Down? {
      var p := FindPath(t, l).value;
      if q.k < p.k {
        if NameIs(At(t.children[q.k], q.rest), l) { FindSome(t.children[q.k], q.rest, l); }
      } else {
        FoundFirst(t.children[q.k], l, q.rest);
      }
    }
  }

  lemma {:induction false} BeforeTotal(p: Path, q: Path)
    ensures Before(p, q) || p == q || Before(q, p)
  {
    if p.Down? && q.Down? { BeforeTotal(p.rest, q.rest); }
  }

  /** The lookup finds exactly the first node with the name. */
  lemma FindsFirst(t: BmlNode, l: Label, p: Path)
    ensures FindPath(t, l) == Some(p) <==> First(t, p, Spelling(l))
  {
    var found := FindPath(t, l);
    if found.Some? {
      forall q | Valid(t, q) && Before(q, found.value)
        ensures !NameIs(At(t, q), l)
      {
        FoundFirst(t, l, q);
      }
      assert First(t, found.value, Spelling(l));
    }
    if First(t, p, Spelling(l)) {
      FindSome(t, p, l);
      BeforeTotal(p, found.value);
    }
  }

  // ------------------------------------------------------------- the aliases

  /** The names that the modern resource uses for nodes of the old one. */
  const ALIASED := ["xungen_bg1", "xungen_bg2", "bg_engineIcon1", "bg_engineIcon2",
                    "xunLegacyRoad1", "xunLegacyRoad2", "xunLegacyRoad3"]

  lemma AliasedApart(name: string, i: nat, j: nat)
    requires i < |ALIASED| && j < |ALIASED| && SameText(name, ALIASED[i]) && SameText(name, ALIASED[j])
    ensures i == j
  {
    assert Lower(ALIASED[i]) == Lower(ALIASED[j]);
    assert |ALIASED[i]| == |ALIASED[j]|;
    assert LowerChar(ALIASED[i][0]) == LowerChar(ALIASED[j][0]);
    assert LowerChar(ALIASED[i][|ALIASED[i]| - 1]) == LowerChar(ALIASED[j][|ALIASED[j]| - 1]);
  }

  /** At every position a node with one of the seven names takes the old one, and nothing else changes anywhere. */
  lemma {:induction false} RenamedAt(t: BmlNode, p: Path)
    requires Valid(t, p)
    ensures Valid(Renamed(t), p)
    ensures var n, m := At(t, p), At(Renamed(t), p);
            && m.name == n.name && m.value == n.value && |m.children| == |n.children|
            && (forall key :: !SameText(key, "name") ==> Attribute(m, key) == Attribute(n, key))
            && (Called(n, "xungen_bg1") ==> Attribute(m, "name") == Some("v1gen_bg1"))
            && (Called(n, "xungen_bg2") ==> Attribute(m, "name") == Some("v1gen_bg2"))
            && (Called(n, "bg_engineIcon1") ==> Attribute(m, "name") == Some("n2o"))
            && (Called(n, "bg_engineIcon2") ==> Attribute(m, "name") == Some("n2o_always"))
            && (Called(n, "xunLegacyRoad1") ==> Attribute(m, "name") == Some("blinkRoad1"))
            && (Called(n, "xunLegacyRoad2") ==> Attribute(m, "name") == Some("blinkRoad2"))
            && (Called(n, "xunLegacyRoad3") ==> Attribute(m, "name") == Some("blinkRoad3"))
            && ((forall i :: 0 <= i < |ALIASED| ==> !Called(n, ALIASED[i])) ==> m.attributes == n.attributes)
    decreases p
  {
    if p.Down? {
      RenamedAt(t.children[p.k], p.rest);
    } else {
      RenamedTop(t);
    }
  }

  lemma RenamedTop(n: BmlNode)
    ensures var m := RenameTop(n);
            && m.name == n.name && m.value == n.value && m.children == n.children
            && (forall key :: !SameText(key, "name") ==> Attribute(m, key) == Attribute(n, key))
            && (Called(n, "xungen_bg1") ==> Attribute(m, "name") == Some("v1gen_bg1"))
            && (Called(n, "xungen_bg2") ==> Attribute(m, "name") == Some("v1gen_bg2"))
            && (Called(n, "bg_engineIcon1") ==> Attribute(m, "name") == Some("n2o"))
            && (Called(n, "bg_engineIcon2") ==> Attribute(m, "name") == Some("n2o_always"))
            && (Called(n, "xunLegacyRoad1") ==> Attribute(m, "name") == Some("blinkRoad1"))
            && (Called(n, "xunLegacyRoad2") ==> Attribute(m, "name") == Some("blinkRoad2"))
            && (Called(n, "xunLegacyRoad3") ==> Attribute(m, "name") == Some("blinkRoad3"))
            && ((forall i :: 0 <= i < |ALIASED| ==> !Called(n, ALIASED[i])) ==> m.attributes == n.attributes)
  {
    hide SameText, Replacement;
    var name := Attribute(n, "name");
    if name.Some? {
      var r := Replacement(name.value);
      if r.Some? {
        forall key
          ensures Attribute(RenameTop(n), key) == if SameText(key, "name") then r else Attribute(n, key)
        {
          AssignLookup(n.attributes, "name", r.value, key);
        }
        assert SameText("name", "name") by { NameItself(); }
      }
      Replacements(name.value);
    }
  }

  lemma Replacements(name: string)
    ensures SameText(name, "xungen_bg1") ==> Replacement(name) == Some("v1gen_bg1")
    ensures SameText(name, "xungen_bg2") ==> Replacement(name) == Some("v1gen_bg2")
    ensures SameText(name, "bg_engineIcon1") ==> Replacement(name) == Some("n2o")
    ensures SameText(name, "bg_engineIcon2") ==> Replacement(name) == Some("n2o_always")
    ensures SameText(name, "xunLegacyRoad1") ==> Replacement(name) == Some("blinkRoad1")
    ensures SameText(name, "xunLegacyRoad2") ==> Replacement(name) == Some("blinkRoad2")
    ensures SameText(name, "xunLegacyRoad3") ==> Replacement(name) == Some("blinkRoad3")
    ensures (forall i :: 0 <= i < |ALIASED| ==> !SameText(name, ALIASED[i])) ==> Replacement(name) == None
  {
    hide SameText;
    assert ALIASED[0] == "xungen_bg1" && ALIASED[1] == "xungen_bg2" && ALIASED[2] == "bg_engineIcon1";
    assert ALIASED[3] == "bg_engineIcon2" && ALIASED[4] == "xunLegacyRoad1" && ALIASED[5] == "xunLegacyRoad2";
    assert ALIASED[6] == "xunLegacyRoad3";
    forall i, j | 0 <= i < |ALIASED| && 0 <= j < |ALIASED| && SameText(name, ALIASED[i]) && SameText(name, ALIASED[j])
      ensures i == j
    {
      AliasedApart(name, i, j);
    }
  }

  lemma NameItself()
    ensures SameText("name", "name")
  {
  }

  // -------------------------------------------------- a position in the rows

  /** The same node, apart from what its children hold. */
  predicate Same(n: BmlNode, m: BmlNode) {
    m.name == n.name && m.value == n.value && m.attributes == n.attributes && |m.children| == |n.children|
  }

  /** Putting a node with the old children, and perhaps further ones, changes nothing at any other position. */
  lemma {:induction false} PutFrame(t: BmlNode, q: Path, n: BmlNode, p: Path)
    requires Valid(t, q) && Valid(t, p) && p != q && At(t, q).children <= n.children
    ensures Valid(Put(t, q, n), p) && Same(At(t, p), At(Put(t, q, n), p))
    decreases q
  {
    if q.Down? && p.Down? && p.k == q.k { PutFrame(t.children[q.k], q.rest, n, p.rest); }
  }

  lemma StepAway(t: BmlNode, l: Label, p: Path)
    requires Valid(t, p) && LookupPath(t, l) != Some(p)
    ensures Valid(Step(t, l), p) && Same(At(t, p), At(Step(t, l), p))
  {
    hide LookupPath, ApplyTweaks, ActiveIcon, HasOn, FindPath;
    var at := LookupPath(t, l);
    if at.Some? {
      var n := At(t, at.value);
      if l == N2o {
        var template := FindPath(t, N2oAlways);
        if template.Some? { PutFrame(t, at.value, Push(n, ActiveIcon(At(t, template.value))), p); }
      } else {
        Dressed(n, l);
        PutFrame(t, at.value, ApplyTweaks(n, Tweaks(l)), p);
      }
    }
  }

  lemma {:induction false} StepsAway(t: BmlNode, ls: seq<Label>, p: Path)
    requires Valid(t, p) && forall l :: l in ls ==> l != On && LookupPath(t, l) != Some(p)
    ensures Valid(Steps(t, ls), p) && Same(At(t, p), At(Steps(t, ls), p))
    decreases ls
  {
    hide LookupPath, Step, FindPath, Lost;
    if ls != [] {
      StepAway(t, ls[0], p);
      forall l | l in ls
        ensures LookupPath(Step(t, ls[0]), l) != Some(p)
      {
        StepLookups(t, ls[0], l);
      }
      assert forall l :: l in ls[1..] ==> l in ls;
      StepsAway(Step(t, ls[0]), ls[1..], p);
    }
  }

  /** Different rows look up different nodes. */
  lemma LookupsApart(t: BmlNode, l: Label, x: Label)
    requires LookupPath(t, l).Some? && LookupPath(t, l) == LookupPath(t, x)
    ensures l == x
  {
    NotBoth(At(t, LookupPath(t, l).value), l, x);
  }

  lemma {:induction false} SameTweaks(n: BmlNode, m: BmlNode, tweaks: seq<Tweak>)
    requires Same(n, m)
    ensures Same(ApplyTweaks(n, tweaks), ApplyTweaks(m, tweaks))
    decreases tweaks
  {
    if tweaks != [] { SameTweaks(ApplyTweak(n, tweaks[0]), ApplyTweak(m, tweaks[0]), tweaks[1..]); }
  }

  /** The node a row looks up ends with that row's edits and no others. */
  lemma {:induction false} StepsHere(t: BmlNode, ls: seq<Label>, l: Label, p: Path)
    requires l in ls && Distinct(ls) && On !in ls && l != N2o && LookupPath(t, l) == Some(p)
    ensures Valid(Steps(t, ls), p) && Same(ApplyTweaks(At(t, p), Tweaks(l)), At(Steps(t, ls), p))
    decreases ls
  {
    hide LookupPath, FindPath, Lost, Tweaks, ApplyTweaks;
    var u, rest := Step(t, ls[0]), ls[1..];
    StepLookups(t, ls[0], l);
    if ls[0] == l {
      PutAt(t, p, ApplyTweaks(At(t, p), Tweaks(l)));
      forall x | x in rest
        ensures LookupPath(u, x) != Some(p)
      {
        StepLookups(t, l, x);
        if LookupPath(t, x) == Some(p) { LookupsApart(t, l, x); }
      }
      StepsAway(u, rest, p);
    } else {
      if LookupPath(t, ls[0]) == Some(p) { LookupsApart(t, l, ls[0]); }
      StepAway(t, ls[0], p);
      SameTweaks(At(t, p), At(u, p), Tweaks(l));
      StepsHere(u, rest, l, p);
    }
  }

  lemma StepName(t: BmlNode, l: Label, p: Path)
    requires Valid(t, p)
    ensures Valid(Step(t, l), p) && Attribute(At(Step(t, l), p), "name") == Attribute(At(t, p), "name")
  {
    hide LookupPath, FindPath, ApplyTweaks, Tweaks, ActiveIcon, HasOn;
    if LookupPath(t, l) == Some(p) {
      if l != N2o { Dressed(At(t, p), l); }
      var n := At(t, p);
      PutAt(t, p, ApplyTweaks(n, Tweaks(l)));
      var template := FindPath(t, N2oAlways);
      if template.Some? { PutAt(t, p, Push(n, ActiveIcon(At(t, template.value)))); }
    } else {
      StepAway(t, l, p);
    }
  }

  lemma StepHasOn(t: BmlNode, l: Label, p: Path)
    requires Valid(t, p) && LookupPath(t, l) != Some(p)
    ensures Valid(Step(t, l), p) && HasOn(At(Step(t, l), p)) == HasOn(At(t, p))
  {
    hide LookupPath, Step, Called;
    var u := Step(t, l);
    StepAway(t, l, p);
    forall k | 0 <= k < |At(t, p).children|
      ensures NameIs(At(u, p).children[k], On) == NameIs(At(t, p).children[k], On)
    {
      PutKid(t, p, k, At(t, p));
      PutKid(u, p, k, At(u, p));
      StepName(t, l, Kid(p, k));
      SameCalled(At(t, Kid(p, k)), At(u, Kid(p, k)));
    }
    if HasOn(At(t, p)) {
      var k :| 0 <= k < |At(t, p).children| && NameIs(At(t, p).children[k], On);
      assert NameIs(At(u, p).children[k], On);
    }
  }

  lemma SameCalled(n: BmlNode, m: BmlNode)
    requires Attribute(n, "name") == Attribute(m, "name")
    ensures forall text :: Called(n, text) <==> Called(m, text)
  {
  }

  lemma SameIcon(n: BmlNode, m: BmlNode)
    requires Same(n, m)
    ensures ActiveIcon(n) == ActiveIcon(m)
  {
  }

  /** `n2o` takes one more child, made from the first `n2o_always`, unless it has one to switch on already. */
  lemma {:induction false} StepsActivate(t: BmlNode, ls: seq<Label>, p: Path)
    requires N2o in ls && Distinct(ls) && On !in ls && N2oAlways !in ls && LookupPath(t, N2o) == Some(p)
    ensures Valid(Steps(t, ls), p)
    ensures var n, m, template := At(t, p), At(Steps(t, ls), p), FindPath(t, N2oAlways);
            && m.name == n.name && m.value == n.value && m.attributes == n.attributes
            && if template.None? || HasOn(n) then |m.children| == |n.children|
               else |m.children| == |n.children| + 1
                    && m.children[|n.children|] == ActiveIcon(At(t, template.value))
    decreases ls
  {
    hide LookupPath, FindPath, Lost, ActiveIcon, HasOn;
    var u, rest, template := Step(t, ls[0]), ls[1..], FindPath(t, N2oAlways);
    StepLookups(t, ls[0], N2o);
    StepLookups(t, ls[0], N2oAlways);
    if ls[0] == N2o {
      Activated(t, rest, p);
    } else {
      if LookupPath(t, ls[0]) == Some(p) { LookupsApart(t, N2o, ls[0]); }
      StepAway(t, ls[0], p);
      StepHasOn(t, ls[0], p);
      if template.Some? {
        if LookupPath(t, ls[0]) == template { NotBoth(At(t, template.value), N2oAlways, ls[0]); }
        StepAway(t, ls[0], template.value);
        SameIcon(At(t, template.value), At(u, template.value));
      }
      StepsActivate(u, rest, p);
    }
  }

  lemma Activated(t: BmlNode, rest: seq<Label>, p: Path)
    requires LookupPath(t, N2o) == Some(p) && N2o !in rest && On !in rest
    ensures Valid(Steps(Step(t, N2o), rest), p)
    ensures var n, m, template := At(t, p), At(Steps(Step(t, N2o), rest), p), FindPath(t, N2oAlways);
            && m.name == n.name && m.value == n.value && m.attributes == n.attributes
            && if template.None? || HasOn(n) then |m.children| == |n.children|
               else |m.children| == |n.children| + 1
                    && m.children[|n.children|] == ActiveIcon(At(t, template.value))
  {
    hide LookupPath, FindPath, Lost, ActiveIcon, HasOn;
    var u, template := Step(t, N2o), FindPath(t, N2oAlways);
    var n := At(t, p);
    forall x | x in rest
      ensures LookupPath(u, x) == LookupPath(t, x) && LookupPath(u, x) != Some(p)
    {
      StepLookups(t, N2o, x);
      if LookupPath(t, x) == Some(p) { LookupsApart(t, N2o, x); }
    }
    if template.None? || HasOn(n) {
      StepsAway(u, rest, p);
    } else {
      var icon := ActiveIcon(At(t, template.value));
      var at := Kid(p, |n.children|);
      PutAt(t, p, Push(n, icon));
      StepsAway(u, rest, p);
      PutKid(u, p, |n.children|, icon);
      forall x | x in rest
        ensures LookupPath(u, x) != Some(at)
      {
        if LookupPath(t, x) == Some(at) { KidsOnly(t, p, |n.children|); }
      }
      StepsAway(u, rest, at);
      PutKid(Steps(u, rest), p, |n.children|, icon);
      ActiveIconName(At(t, template.value));
    }
  }

  lemma {:induction false} KidsOnly(t: BmlNode, p: Path, k: nat)
    requires Valid(t, p) && Valid(t, Kid(p, k))
    ensures k < |At(t, p).children|
  {
    if p.Down? { KidsOnly(t.children[p.k], p.rest, k); }
  }

  // ------------------------------------------------------ one row, literally

  lemma KeysApart()
    ensures |Lower("visible")| == 7 && Lower("visible")[0] == 'v'
    ensures |Lower("texture")| == 7 && Lower("texture")[0] == 't'
    ensures |Lower("leftTopTex")| == 10 && |Lower("leftTopWH")| == 9
    ensures |Lower("name")| == 4 && |Lower("instAccelFullLenth")| == 18
  {
  }

  lemma SpellingLookup(n: BmlNode, a: string, b: string)
    requires SameText(a, b)
    ensures Attribute(n, a) == Attribute(n, b)
  {
    var i, j := KeyIndex(n.attributes, a), KeyIndex(n.attributes, b);
  }

  lemma TweakSeen(n: BmlNode, l: Label, tweak: Tweak, key: string)
    requires l != N2o && tweak in Tweaks(l) && !tweak.RetagWindow? && SameText(key, tweak.key)
    ensures Attribute(ApplyTweaks(n, Tweaks(l)), key) == if tweak.Set? then Some(tweak.text) else None
  {
    hide Tweaks, SameText, Attribute;
    TweakKeys(l);
    TweaksHold(n, Tweaks(l));
    SpellingLookup(ApplyTweaks(n, Tweaks(l)), key, tweak.key);
  }

  predicate Lights(l: Label) {
    l in {ExceedFeatures, InstAccel, InstAccelGauge, InstAccelBar, InstCharger}
  }

  predicate Dims(l: Label) {
    l in {Idling, Usable, PlayFull, Charger, Charger2, Kmh2, Kmh3}
  }

  /** What an attribute reads after the edits of a row. */
  function RowValue(l: Label, key: string, before: Option<string>): Option<string> {
    if SameText(key, "visible") && Lights(l) then Some("true")
    else if SameText(key, "visible") && Dims(l) then Some("false")
    else if SameText(key, "leftTopTex") && l == InstAccel then Some("0 512")
    else if SameText(key, "texture") && l == InstAccel then None
    else if SameText(key, "leftTopWH") && l == ChargerFeatures then Some("0 0 396 74")
    else if SameText(key, "leftTopWH") && l == InstCharger then None
    else before
  }

  lemma RowAttribute(n: BmlNode, l: Label, key: string)
    requires Part(l) && l != N2o
    ensures var m := ApplyTweaks(n, Tweaks(l));
            Attribute(m, key) == RowValue(l, key, Attribute(n, key))
  {
    hide Attribute, ApplyTweaks, Lower;
    KeysApart();
    if i :| 0 <= i < |Tweaks(l)| && !Tweaks(l)[i].RetagWindow? && SameText(key, Tweaks(l)[i].key) {
      TweakSeen(n, l, Tweaks(l)[i], key);
    } else {
      TweaksAttribute(n, Tweaks(l), key);
      assert forall tweak :: tweak in Tweaks(l) && !tweak.RetagWindow? ==> !SameText(key, tweak.key);
      RowKeys(l);
    }
  }

  /** The keys a row edits. */
  lemma RowKeys(l: Label)
    requires Part(l)
    ensures Lights(l) || Dims(l) ==> exists tweak :: tweak in Tweaks(l) && tweak.Set? && tweak.key == "visible"
    ensures l == InstAccel ==> Set("leftTopTex", "0 512") in Tweaks(l) && Remove("texture") in Tweaks(l)
    ensures l == ChargerFeatures ==> Set("leftTopWH", "0 0 396 74") in Tweaks(l)
    ensures l == InstCharger ==> Remove("leftTopWH") in Tweaks(l)
  {
    if Lights(l) { assert Set("visible", "true") in Tweaks(l); }
    if Dims(l) { assert Set("visible", "false") in Tweaks(l); }
  }

  /** Of a row's node only the tag can change besides, to a window, and only in two rows. */
  lemma {:induction false} RowRest(n: BmlNode, tweaks: seq<Tweak>)
    ensures var m := ApplyTweaks(n, tweaks);
            && m.value == n.value && m.children == n.children
            && m.name == if RetagWindow in tweaks && !SameText(n.name, "Window") then "Window" else n.name
    decreases tweaks
  {
    if tweaks != [] {
      RowRest(ApplyTweak(n, tweaks[0]), tweaks[1..]);
      assert RetagWindow in tweaks <==> tweaks[0] == RetagWindow || RetagWindow in tweaks[1..];
    }
  }

  // ------------------------------------------------------- places after the cut

  /** One of the slices that an earlier patch put into the charger. */
  predicate Synthetic(n: BmlNode) {
    Called(n, "blinkRoad1") || Called(n, "blinkRoad2") || Called(n, "blinkRoad3")
  }

  function Cuts(cs: seq<BmlNode>, k: nat): (r: nat)
    requires k <= |cs|
    ensures r <= k
  {
    if k == 0 then 0 else Cuts(cs, k - 1) + if Synthetic(cs[k - 1]) then 1 else 0
  }

  /** The position lies in a slice of the charger at `c`. */
  predicate CutAway(t: BmlNode, c: Path, p: Path) {
    && p.Down? && p.k < |t.children|
    && if c.Here? then Synthetic(t.children[p.k]) else c.k == p.k && CutAway(t.children[c.k], c.rest, p.rest)
  }

  /** Where a position of the tree is after the charger at `c` lost its slices. */
  function Place(t: BmlNode, c: Path, p: Path): Path
    requires Valid(t, c) && Valid(t, p)
  {
    if p.Here? then Here
    else if c.Here? then Down(p.k - Cuts(t.children, p.k), p.rest)
    else if p.k == c.k then Down(p.k, Place(t.children[c.k], c.rest, p.rest))
    else p
  }

  lemma {:induction false} KeepFront(cs: seq<BmlNode>, k: nat)
    requires k <= |cs|
    ensures |Keep(cs[..k])| == k - Cuts(cs, k)
    decreases k
  {
    hide Synthetic, Keep;
    if k == 0 {
      assert cs[..0] == [];
      KeepNone();
    } else {
      KeepFront(cs, k - 1);
      assert cs[..k] == cs[..k - 1] + [cs[k - 1]];
      KeepAppend(cs[..k - 1], [cs[k - 1]]);
      KeepOne(cs[k - 1]);
    }
  }

  lemma KeepNone()
    ensures Keep([]) == []
  {
  }

  lemma KeepPlace(cs: seq<BmlNode>, k: nat)
    requires k <= |cs|
    ensures |Keep(cs)| >= k - Cuts(cs, k)
    ensures k < |cs| && !Synthetic(cs[k]) ==>
              k - Cuts(cs, k) < |Keep(cs)| && Keep(cs)[k - Cuts(cs, k)] == cs[k]
  {
    hide Synthetic, Keep, Cuts;
    assert cs == cs[..k] + cs[k..];
    KeepAppend(cs[..k], cs[k..]);
    KeepFront(cs, k);
    if k < |cs| {
      assert cs[k..] == [cs[k]] + cs[k + 1..];
      KeepAppend([cs[k]], cs[k + 1..]);
      KeepOne(cs[k]);
    }
  }

  lemma KeepOne(n: BmlNode)
    ensures Keep([n]) == if Synthetic(n) then [] else [n]
  {
    SliceSynthetic(n);
    hide Slice, Synthetic;
    assert [n][1..] == [];
  }

  lemma SliceSynthetic(n: BmlNode)
    ensures Slice(n) <==> Synthetic(n)
  {
    hide Called;
  }

  lemma {:induction false} TrimPlace(t: BmlNode, c: Path, p: Path)
    requires Valid(t, c) && Valid(t, p) && !CutAway(t, c, p)
    ensures var u, q := TrimAt(t, c), Place(t, c, p);
            && Valid(u, q)
            && if p == c then At(u, q) == Trimmed(At(t, c)) && q == c else Same(At(t, p), At(u, q)) && q != c
    decreases c
  {
    hide Synthetic, Cuts, Keep;
    if c.Here? {
      if p.Down? { TrimPlaceChild(t, p); }
    } else if p.Down? && p.k == c.k {
      TrimPlace(t.children[c.k], c.rest, p.rest);
    }
  }

  lemma TrimPlaceChild(t: BmlNode, p: Path)
    requires Valid(t, p) && p.Down? && !Synthetic(t.children[p.k])
    ensures Place(t, Here, p).Down? && Valid(TrimAt(t, Here), Place(t, Here, p))
    ensures At(TrimAt(t, Here), Place(t, Here, p)) == At(t, p)
  {
    hide Synthetic, Cuts, Keep;
    KeepPlace(t.children, p.k);
  }

  lemma {:induction false} PlaceKid(t: BmlNode, c: Path, p: Path, k: nat)
    requires Valid(t, c) && Valid(t, p) && k < |At(t, p).children| && Valid(t, Kid(p, k))
    ensures p == c ==> Place(t, c, Kid(p, k)) == Kid(p, k - Cuts(At(t, p).children, k))
    ensures p != c && !CutAway(t, c, p) ==> Place(t, c, Kid(p, k)) == Kid(Place(t, c, p), k)
    ensures p != c && !CutAway(t, c, p) ==> !CutAway(t, c, Kid(p, k))
    ensures p == c ==> CutAway(t, c, Kid(p, k)) == Synthetic(At(t, p).children[k])
    decreases p
  {
    hide Called;
    if p.Down? && c.Down? && p.k == c.k { PlaceKid(t.children[c.k], c.rest, p.rest, k); }
  }

  // --------------------------------------------- the specification, literally

  /** The first node with the name below the first `exceedFeatures`. */
  ghost predicate FirstOverlay(t: BmlNode, p: Path, text: string) {
    exists e, q :: First(t, e, "exceedFeatures") && First(At(t, e), q, text) && p == Append(e, q)
  }

  /** The migration makes this node visible. */
  ghost predicate Shown(t: BmlNode, p: Path) {
    || First(t, p, "exceedFeatures") || First(t, p, "instAccel") || First(t, p, "instAccelGauge")
    || First(t, p, "instAccelBar") || First(t, p, "instCharger")
  }

  /** The migration hides this node. */
  ghost predicate Hidden(t: BmlNode, p: Path) {
    || First(t, p, "charger") || First(t, p, "charger2") || First(t, p, "kmh2") || First(t, p, "kmh3")
    || FirstOverlay(t, p, "idling") || FirstOverlay(t, p, "usable") || FirstOverlay(t, p, "playFull")
  }

  predicate GaugeNamed(n: BmlNode) {
    Called(n, "instChargerGauge") || Called(n, "xunInstChargerGauge")
  }

  /** The first gauge among the charger's children. */
  ghost predicate GaugeAt(t: BmlNode, p: Path) {
    exists c, k: nat :: First(t, c, "instCharger") && p == Kid(c, k)
                        && k < |At(t, c).children| && GaugeNamed(At(t, c).children[k])
                        && forall j :: 0 <= j < k ==> !GaugeNamed(At(t, c).children[j])
  }

  /** What a key of the node at a position reads after the migration of a tree whose names are replaced already. */
  ghost function Final(t: BmlNode, p: Path, key: string): Option<string>
    requires Valid(t, p)
  {
    if SameText(key, "instAccelFullLenth") && p.Here? then Some("1000")
    else if SameText(key, "name") && GaugeAt(t, p) then Some("instChargerGauge")
    else if SameText(key, "visible") && (Shown(t, p) || GaugeAt(t, p)) then Some("true")
    else if SameText(key, "visible") && Hidden(t, p) then Some("false")
    else if SameText(key, "leftTopTex") && First(t, p, "instAccel") then Some("0 512")
    else if SameText(key, "texture") && First(t, p, "instAccel") then None
    else if SameText(key, "leftTopWH") && First(t, p, "chargerFeatures") then Some("0 0 396 74")
    else if SameText(key, "leftTopWH") && First(t, p, "instCharger") then None
    else Attribute(At(t, p), key)
  }

  /** The migration gives this node a child to switch on, made from the node at `a`. */
  ghost predicate Activates(t: BmlNode, p: Path, a: Path) {
    && First(t, p, "n2o") && First(t, a, "n2o_always")
    && forall k :: 0 <= k < |At(t, p).children| ==> !Called(At(t, p).children[k], "on")
  }

  /** The position is in no slice of the first charger. */
  ghost predicate Stays(t: BmlNode, p: Path) {
    Valid(t, p) && forall c :: First(t, c, "instCharger") ==> !CutAway(t, c, p)
  }

  /** Where the position is afterwards. */
  ghost predicate Lands(t: BmlNode, p: Path, q: Path) {
    && Valid(t, p)
    && (forall c :: First(t, c, "instCharger") ==> q == Place(t, c, p))
    && ((forall c :: !First(t, c, "instCharger")) ==> q == p)
  }

  // ---------------------------------------------------------- rows and places

  ghost predicate LooksUp(t: BmlNode, p: Path, l: Label) {
    LookupPath(t, l) == Some(p)
  }

  lemma LooksUpOverlay(t: BmlNode, p: Path, l: Label)
    requires Overlay(l)
    ensures LooksUp(t, p, l) <==> FirstOverlay(t, p, Spelling(l))
  {
    hide Spelling, Called, FindPath;
    assert Spelling(ExceedFeatures) == "exceedFeatures" by { ExceedSpelled(); }
    if LooksUp(t, p, l) {
      var e := FindPath(t, ExceedFeatures).value;
      var q := FindPath(At(t, e), l).value;
      FindsFirst(t, ExceedFeatures, e);
      FindsFirst(At(t, e), l, q);
      assert First(t, e, "exceedFeatures") && First(At(t, e), q, Spelling(l)) && p == Append(e, q);
    }
    if FirstOverlay(t, p, Spelling(l)) {
      var e, q :| First(t, e, "exceedFeatures") && First(At(t, e), q, Spelling(l)) && p == Append(e, q);
      FindsFirst(t, ExceedFeatures, e);
      FindsFirst(At(t, e), l, q);
    }
  }

  lemma ExceedSpelled()
    ensures Spelling(ExceedFeatures) == "exceedFeatures"
  {
  }

  /** The rows' lookups in the names of the resource. */
  lemma LooksUpMeans(t: BmlNode, p: Path)
    ensures LooksUp(t, p, ExceedFeatures) <==> First(t, p, "exceedFeatures")
    ensures LooksUp(t, p, Idling) <==> FirstOverlay(t, p, "idling")
    ensures LooksUp(t, p, Usable) <==> FirstOverlay(t, p, "usable")
    ensures LooksUp(t, p, PlayFull) <==> FirstOverlay(t, p, "playFull")
    ensures LooksUp(t, p, InstAccel) <==> First(t, p, "instAccel")
    ensures LooksUp(t, p, InstAccelGauge) <==> First(t, p, "instAccelGauge")
    ensures LooksUp(t, p, InstAccelBar) <==> First(t, p, "instAccelBar")
    ensures LooksUp(t, p, Charger) <==> First(t, p, "charger")
    ensures LooksUp(t, p, Charger2) <==> First(t, p, "charger2")
    ensures LooksUp(t, p, Kmh2) <==> First(t, p, "kmh2")
    ensures LooksUp(t, p, Kmh3) <==> First(t, p, "kmh3")
    ensures LooksUp(t, p, N2o) <==> First(t, p, "n2o")
    ensures LooksUp(t, p, ChargerFeatures) <==> First(t, p, "chargerFeatures")
    ensures LooksUp(t, p, InstCharger) <==> First(t, p, "instCharger")
  {
    hide First, FirstOverlay, LooksUp, Spelling;
    OverlaysMean(t, p);
    GaugesMean(t, p);
    PanelsMean(t, p);
    ChargersMean(t, p);
  }

  lemma OverlaysMean(t: BmlNode, p: Path)
    ensures LooksUp(t, p, Idling) <==> FirstOverlay(t, p, "idling")
    ensures LooksUp(t, p, Usable) <==> FirstOverlay(t, p, "usable")
    ensures LooksUp(t, p, PlayFull) <==> FirstOverlay(t, p, "playFull")
  {
    hide First, FirstOverlay, LooksUp;
    LooksUpOverlay(t, p, Idling);
    LooksUpOverlay(t, p, Usable);
    LooksUpOverlay(t, p, PlayFull);
  }

  lemma GaugesMean(t: BmlNode, p: Path)
    ensures LooksUp(t, p, ExceedFeatures) <==> First(t, p, "exceedFeatures")
    ensures LooksUp(t, p, InstAccel) <==> First(t, p, "instAccel")
    ensures LooksUp(t, p, InstAccelGauge) <==> First(t, p, "instAccelGauge")
    ensures LooksUp(t, p, InstAccelBar) <==> First(t, p, "instAccelBar")
  {
    hide First, LooksUp;
    LooksUpFirst(t, p, ExceedFeatures);
    LooksUpFirst(t, p, InstAccel);
    LooksUpFirst(t, p, InstAccelGauge);
    LooksUpFirst(t, p, InstAccelBar);
  }

  lemma PanelsMean(t: BmlNode, p: Path)
    ensures LooksUp(t, p, Charger) <==> First(t, p, "charger")
    ensures LooksUp(t, p, Charger2) <==> First(t, p, "charger2")
    ensures LooksUp(t, p, Kmh2) <==> First(t, p, "kmh2")
    ensures LooksUp(t, p, Kmh3) <==> First(t, p, "kmh3")
  {
    hide First, LooksUp;
    LooksUpFirst(t, p, Charger);
    LooksUpFirst(t, p, Charger2);
    LooksUpFirst(t, p, Kmh2);
    LooksUpFirst(t, p, Kmh3);
  }

  lemma ChargersMean(t: BmlNode, p: Path)
    ensures LooksUp(t, p, N2o) <==> First(t, p, "n2o")
    ensures LooksUp(t, p, ChargerFeatures) <==> First(t, p, "chargerFeatures")
    ensures LooksUp(t, p, InstCharger) <==> First(t, p, "instCharger")
  {
    hide First, LooksUp;
    LooksUpFirst(t, p, N2o);
    LooksUpFirst(t, p, ChargerFeatures);
    LooksUpFirst(t, p, InstCharger);
  }

  lemma LooksUpFirst(t: BmlNode, p: Path, l: Label)
    requires !Overlay(l)
    ensures LooksUp(t, p, l) <==> First(t, p, Spelling(l))
  {
    hide First, FindPath;
    FindsFirst(t, l, p);
  }

  /** The value before the cut of the charger. */
  ghost function RowsValue(t: BmlNode, p: Path, key: string): Option<string>
    requires Valid(t, p)
  {
    if SameText(key, "instAccelFullLenth") && p.Here? then Some("1000")
    else if SameText(key, "visible") && Shown(t, p) then Some("true")
    else if SameText(key, "visible") && Hidden(t, p) then Some("false")
    else if SameText(key, "leftTopTex") && First(t, p, "instAccel") then Some("0 512")
    else if SameText(key, "texture") && First(t, p, "instAccel") then None
    else if SameText(key, "leftTopWH") && First(t, p, "chargerFeatures") then Some("0 0 396 74")
    else if SameText(key, "leftTopWH") && First(t, p, "instCharger") then None
    else Attribute(At(t, p), key)
  }

  lemma RowsValueRow(t: BmlNode, p: Path, l: Label, key: string)
    requires Valid(t, p) && Part(l) && LooksUp(t, p, l)
    ensures RowsValue(t, p, key)
         == RowValue(l, key, if SameText(key, "instAccelFullLenth") && p.Here? then Some("1000")
                             else Attribute(At(t, p), key))
  {
    hide First, FirstOverlay, Attribute, Lower, LookupPath, LooksUp;
    KeysApart();
    LooksUpMeans(t, p);
    forall x: Label | LooksUp(t, p, x)
      ensures x == l
    {
      OneLookup(t, p, l, x);
    }
  }

  lemma OneLookup(t: BmlNode, p: Path, l: Label, x: Label)
    requires LooksUp(t, p, l) && LooksUp(t, p, x)
    ensures l == x
  {
    LookupsApart(t, l, x);
  }

  lemma RowsValueAway(t: BmlNode, p: Path, key: string)
    requires Valid(t, p) && forall l :: Part(l) ==> !LooksUp(t, p, l)
    ensures RowsValue(t, p, key) == if SameText(key, "instAccelFullLenth") && p.Here? then Some("1000")
                                    else Attribute(At(t, p), key)
  {
    hide Shown, Hidden, First, Attribute, SameText;
    NoLookup(t, p);
  }

  lemma NoLookup(t: BmlNode, p: Path)
    requires forall l :: Part(l) ==> !LooksUp(t, p, l)
    ensures !Shown(t, p) && !Hidden(t, p)
    ensures !First(t, p, "instAccel") && !First(t, p, "chargerFeatures") && !First(t, p, "instCharger")
  {
    hide First, FirstOverlay, LooksUp, Part;
    SomeParts();
    assert !Shown(t, p) by { GaugesMean(t, p); ChargersMean(t, p); }
    assert !Hidden(t, p) by { PanelsMean(t, p); OverlaysMean(t, p); }
    GaugesMean(t, p);
    ChargersMean(t, p);
  }

  lemma SomeParts()
    ensures Part(ExceedFeatures) && Part(Idling) && Part(Usable) && Part(PlayFull) && Part(InstAccel)
    ensures Part(InstAccelGauge) && Part(InstAccelBar) && Part(Charger) && Part(Charger2) && Part(Kmh2)
    ensures Part(Kmh3) && Part(ChargerFeatures) && Part(InstCharger)
  {
  }

  // ------------------------------------------------- a position after the rows

  lemma RootedAt(r: BmlNode, p: Path, key: string)
    requires Valid(r, p)
    ensures var b := Rooted(r);
            && Valid(b, p) && b.children == r.children
            && At(b, p).name == At(r, p).name && At(b, p).value == At(r, p).value
            && At(b, p).children == At(r, p).children
            && Attribute(At(b, p), key) == if SameText(key, "instAccelFullLenth") && p.Here? then Some("1000")
                                           else Attribute(At(r, p), key)
  {
    AssignLookup(r.attributes, ROOT_KEY, "1000", key);
  }

  lemma RootedLookups(r: BmlNode, l: Label)
    requires l != On
    ensures LookupPath(Rooted(r), l) == LookupPath(r, l) && FindPath(Rooted(r), l) == FindPath(r, l)
  {
    RootedAlike(r, Kmh2);
    AlikeLookup(r, Rooted(r), Kmh2, l);
    AlikeFind(r, Rooted(r), Kmh2, l);
  }

  lemma {:induction false} StepsLookups(t: BmlNode, ls: seq<Label>, x: Label)
    requires x != On
    ensures FindPath(Steps(t, ls), x) == FindPath(t, x) && LookupPath(Steps(t, ls), x) == LookupPath(t, x)
    decreases ls
  {
    hide Step, FindPath, LookupPath, Lost;
    if ls != [] {
      StepLookups(t, ls[0], x);
      StepsLookups(Step(t, ls[0]), ls[1..], x);
    }
  }

  lemma OrderMembers()
    ensures Distinct(ORDER) && On !in ORDER && N2oAlways !in ORDER
    ensures forall l :: l in ORDER <==> Part(l)
  {
    forall l: Label
      ensures l in ORDER <==> Part(l)
    {
      OrderFacts(l);
    }
    OrderFacts(On);
  }

  ghost function AfterRows(r: BmlNode): BmlNode {
    Steps(Rooted(r), ORDER)
  }

  lemma WindowRows(l: Label)
    ensures RetagWindow in Tweaks(l) <==> l == InstAccel || l == InstCharger
  {
    if l == InstAccel || l == InstCharger { assert Tweaks(l)[0] == RetagWindow; }
  }

  /** Two rows make their node a window. */
  ghost predicate MadeWindow(t: BmlNode, p: Path)
    requires Valid(t, p)
  {
    (First(t, p, "instAccel") || First(t, p, "instCharger")) && !SameText(At(t, p).name, "Window")
  }

  /** What the rows leave of a node, apart from its children. */
  ghost predicate RowsLeave(r: BmlNode, p: Path, key: string, m: BmlNode)
    requires Valid(r, p)
  {
    var n := At(r, p);
    && m.value == n.value
    && m.name == (if MadeWindow(r, p) then "Window" else n.name)
    && Attribute(m, key) == RowsValue(r, p, key)
    && (!First(r, p, "n2o") ==> |m.children| == |n.children|)
  }

  lemma RowsAt(r: BmlNode, p: Path, key: string)
    requires Valid(r, p)
    ensures Valid(AfterRows(r), p) && RowsLeave(r, p, key, At(AfterRows(r), p))
  {
    hide LooksUp, RowsLeave, AfterRows;
    if l :| Part(l) && LooksUp(r, p, l) {
      if l == N2o { RowsAtIcon(r, p, key); } else { RowsAtRow(r, p, l, key); }
    } else {
      RowsAtNone(r, p, key);
    }
  }

  lemma RowsAtRow(r: BmlNode, p: Path, l: Label, key: string)
    requires Valid(r, p) && Part(l) && l != N2o && LooksUp(r, p, l)
    ensures Valid(AfterRows(r), p) && RowsLeave(r, p, key, At(AfterRows(r), p))
  {
    hide First, FirstOverlay, Attribute, Lower, FindPath, RowsValue, RowValue, Steps, Tweaks, ApplyTweaks, Rooted;
    var b := Rooted(r);
    RootedAt(r, p, key);
    RootedLookups(r, l);
    OrderMembers();
    RowsValueRow(r, p, l, key);
    StepsHere(b, ORDER, l, p);
    var dressed := ApplyTweaks(At(b, p), Tweaks(l));
    RowAttribute(At(b, p), l, key);
    SameAttribute(dressed, At(AfterRows(r), p), key);
    RowRest(At(b, p), Tweaks(l));
    WindowRows(l);
    WindowLookups(r, p, l);
  }

  lemma WindowLookups(r: BmlNode, p: Path, l: Label)
    requires LooksUp(r, p, l)
    ensures First(r, p, "instAccel") <==> l == InstAccel
    ensures First(r, p, "instCharger") <==> l == InstCharger
    ensures First(r, p, "n2o") <==> l == N2o
  {
    hide First, FirstOverlay, LooksUp;
    LooksUpMeans(r, p);
    if First(r, p, "instAccel") { OneLookup(r, p, l, InstAccel); }
    if First(r, p, "instCharger") { OneLookup(r, p, l, InstCharger); }
    if First(r, p, "n2o") { OneLookup(r, p, l, N2o); }
  }

  lemma RowsAtIcon(r: BmlNode, p: Path, key: string)
    requires Valid(r, p) && LooksUp(r, p, N2o)
    ensures Valid(AfterRows(r), p) && RowsLeave(r, p, key, At(AfterRows(r), p))
  {
    hide First, FirstOverlay, Attribute, Lower, FindPath, RowsValue, RowValue, Steps, Rooted, ActiveIcon, HasOn;
    var b := Rooted(r);
    RootedAt(r, p, key);
    RootedLookups(r, N2o);
    OrderMembers();
    StepsActivate(b, ORDER, p);
    SameAttribute(At(b, p), At(AfterRows(r), p), key);
    RowsValueRow(r, p, N2o, key);
    NoRowValue(key, Attribute(At(b, p), key));
    WindowLookups(r, p, N2o);
  }

  lemma RowsAtNone(r: BmlNode, p: Path, key: string)
    requires Valid(r, p) && forall l :: Part(l) ==> !LooksUp(r, p, l)
    ensures Valid(AfterRows(r), p) && RowsLeave(r, p, key, At(AfterRows(r), p))
  {
    hide First, FirstOverlay, Attribute, Lower, FindPath, RowsValue, Steps, Rooted;
    var b := Rooted(r);
    RootedAt(r, p, key);
    OrderMembers();
    forall l | l in ORDER
      ensures LookupPath(b, l) != Some(p)
    {
      RootedLookups(r, l);
      assert !LooksUp(r, p, l);
    }
    StepsAway(b, ORDER, p);
    RowsValueAway(r, p, key);
    SameAttribute(At(b, p), At(AfterRows(r), p), key);
    LooksUpMeans(r, p);
    assert Part(InstAccel) && Part(InstCharger);
  }

  lemma SameAttribute(n: BmlNode, m: BmlNode, key: string)
    requires n.attributes == m.attributes
    ensures Attribute(n, key) == Attribute(m, key)
  {
  }

  lemma NoRowValue(key: string, before: Option<string>)
    ensures RowValue(N2o, key, before) == before
  {
  }

  // ------------------------------------------------------ names stay in place

  /** Every position of the first tree is one of the second, with the same name. */
  ghost predicate SameNames(r: BmlNode, d: BmlNode) {
    forall q :: Valid(r, q) ==> Valid(d, q) && Attribute(At(d, q), "name") == Attribute(At(r, q), "name")
  }

  lemma RowsKeepNames(r: BmlNode)
    ensures SameNames(r, AfterRows(r))
  {
    hide AfterRows, Attribute, First, FirstOverlay;
    forall q | Valid(r, q)
      ensures Valid(AfterRows(r), q)
      ensures Attribute(At(AfterRows(r), q), "name") == Attribute(At(r, q), "name")
    {
      RowsAt(r, q, "name");
      NameStays(r, q);
    }
  }

  lemma NameStays(r: BmlNode, q: Path)
    requires Valid(r, q)
    ensures RowsValue(r, q, "name") == Attribute(At(r, q), "name")
  {
    hide First, FirstOverlay, Attribute, Lower;
    KeysApart();
  }

  lemma SameNamesBelow(r: BmlNode, d: BmlNode, k: nat)
    requires SameNames(r, d) && k < |r.children|
    ensures k < |d.children| && SameNames(r.children[k], d.children[k])
  {
    assert Valid(r, Down(k, Here));
    forall q | Valid(r.children[k], q)
      ensures Valid(d.children[k], q)
      ensures Attribute(At(d.children[k], q), "name") == Attribute(At(r.children[k], q), "name")
    {
      assert Valid(r, Down(k, q));
    }
  }

  /** The first nodes of the second list carry the names of those of the first. */
  ghost predicate CalledAlike(cs: seq<BmlNode>, ds: seq<BmlNode>) {
    |cs| <= |ds| && forall j, text :: 0 <= j < |cs| ==> Called(cs[j], text) == Called(ds[j], text)
  }

  lemma SameNamesHere(r: BmlNode, d: BmlNode)
    requires SameNames(r, d)
    ensures Attribute(d, "name") == Attribute(r, "name")
    ensures CalledAlike(r.children, d.children)
  {
    assert Valid(r, Here);
    if |r.children| > 0 { SameNamesBelow(r, d, |r.children| - 1); }
    forall k, text | 0 <= k < |r.children|
      ensures Called(r.children[k], text) == Called(d.children[k], text)
    {
      SameNamesBelow(r, d, k);
      assert Valid(r.children[k], Here);
    }
  }

  lemma {:induction false} CutsSame(cs: seq<BmlNode>, ds: seq<BmlNode>, k: nat)
    requires k <= |cs| <= |ds| && CalledAlike(cs, ds)
    ensures Cuts(cs, k) == Cuts(ds, k)
  {
    hide Called;
    if k > 0 { CutsSame(cs, ds, k - 1); }
  }

  lemma {:induction false} SameNamesAt(r: BmlNode, d: BmlNode, c: Path)
    requires SameNames(r, d) && Valid(r, c)
    ensures Valid(d, c) && SameNames(At(r, c), At(d, c))
    decreases c
  {
    if c.Down? {
      SameNamesBelow(r, d, c.k);
      SameNamesAt(r.children[c.k], d.children[c.k], c.rest);
    }
  }

  lemma {:induction false} PlaceSame(r: BmlNode, d: BmlNode, c: Path, p: Path)
    requires SameNames(r, d) && Valid(r, c) && Valid(r, p) && Valid(d, c) && Valid(d, p)
    ensures CutAway(r, c, p) == CutAway(d, c, p)
    ensures Place(r, c, p) == Place(d, c, p)
    decreases c
  {
    hide Called, SameNames;
    if p.Down? {
      SameNamesHere(r, d);
      SameNamesBelow(r, d, p.k);
      if c.Here? {
        CutsSame(r.children, d.children, p.k);
      } else if c.k == p.k {
        PlaceSame(r.children[c.k], d.children[c.k], c.rest, p.rest);
      }
    }
  }

  // ------------------------------------------------------ the cut and the gauge

  lemma {:induction false} CutsGrow(cs: seq<BmlNode>, j: nat, k: nat)
    requires j < k <= |cs| && !Synthetic(cs[j])
    ensures j - Cuts(cs, j) < k - Cuts(cs, k)
    decreases k
  {
    hide Synthetic;
    if j < k - 1 { CutsGrow(cs, j, k - 1); }
  }

  lemma GaugeNotSynthetic(n: BmlNode)
    requires GaugeNamed(n)
    ensures !Synthetic(n)
  {
    assert |Lower("instChargerGauge")| == 16 && |Lower("xunInstChargerGauge")| == 19;
    assert |Lower("blinkRoad1")| == |Lower("blinkRoad2")| == |Lower("blinkRoad3")| == 10;
  }

  /** The first gauge among the kept children is the first among all. */
  lemma GaugeKept(cs: seq<BmlNode>)
    ensures var i := GaugeIndex(cs);
            GaugeIndex(Keep(cs)) == if i < |cs| then i - Cuts(cs, i) else |Keep(cs)|
  {
    hide Called, Cuts, Synthetic;
    var i := GaugeIndex(cs);
    var front := Keep(cs[..i]);
    assert cs == cs[..i] + cs[i..];
    KeepAppend(cs[..i], cs[i..]);
    KeepFront(cs, i);
    forall j | 0 <= j < |front|
      ensures !IsGauge(Keep(cs)[j])
    {
      assert front[j] in cs[..i];
    }
    if i < |cs| {
      GaugeNotSynthetic(cs[i]);
      KeepPlace(cs, i);
      GaugeIndexAfter(Keep(cs), i - Cuts(cs, i));
    } else {
      assert cs[..i] == cs;
      NoGaugeIndex(Keep(cs));
    }
  }

  lemma {:induction false} NoGaugeIndex(cs: seq<BmlNode>)
    requires forall j :: 0 <= j < |cs| ==> !IsGauge(cs[j])
    ensures GaugeIndex(cs) == |cs|
  {
    if cs != [] { NoGaugeIndex(cs[1..]); }
  }

  /** Only a child of the charger is placed as one. */
  lemma {:induction false} PlaceBack(t: BmlNode, c: Path, p: Path, i: nat) returns (k: nat)
    requires Valid(t, c) && Valid(t, p) && !CutAway(t, c, p) && Place(t, c, p) == Kid(c, i)
    ensures k < |At(t, c).children| && p == Kid(c, k) && i == k - Cuts(At(t, c).children, k)
    ensures !Synthetic(At(t, c).children[k])
    decreases c
  {
    hide Synthetic;
    if c.Here? {
      k := p.k;
      assert Kid(Here, i) == Down(i, Here);
    } else {
      k := PlaceBack(t.children[c.k], c.rest, p.rest, i);
    }
  }

  /** The gauge that is settled is the one the specification names. */
  lemma GaugePlaced(t: BmlNode, c: Path, p: Path)
    requires First(t, c, "instCharger") && Valid(t, p) && !CutAway(t, c, p)
    ensures var cs := At(t, c).children;
            var i := GaugeIndex(Keep(cs));
            GaugeAt(t, p) <==> i < |Keep(cs)| && Place(t, c, p) == Kid(c, i)
  {
    hide Called, Cuts, Synthetic, CutAway, Place, Valid, GaugeIndex, Keep;
    if GaugeAt(t, p) { GaugeLands(t, c, p); }
    var cs := At(t, c).children;
    var g, i := GaugeIndex(cs), GaugeIndex(Keep(cs));
    GaugeKept(cs);
    if i < |Keep(cs)| && Place(t, c, p) == Kid(c, i) {
      var k := PlaceBack(t, c, p, i);
      KeepPlace(cs, k);
      assert Keep(cs)[i] == cs[k];
      if g < k {
        GaugeNotSynthetic(cs[g]);
        CutsGrow(cs, g, k);
      }
      assert g == k;
    }
  }

  lemma GaugeLands(t: BmlNode, c: Path, p: Path)
    requires First(t, c, "instCharger") && GaugeAt(t, p)
    ensures Valid(t, c) && Valid(t, p)
    ensures var cs := At(t, c).children;
            var i := GaugeIndex(Keep(cs));
            i < |Keep(cs)| && Place(t, c, p) == Kid(c, i)
  {
    hide First, GaugeAt, GaugeNamed, Cuts, Synthetic, CutAway, Place, GaugeIndex, Keep;
    var k := GaugeChild(t, c, p);
    GaugeIndexKept(At(t, c).children, k);
    PutKid(t, c, k, t);
    PlaceKid(t, c, c, k);
  }

  lemma GaugeChild(t: BmlNode, c: Path, p: Path) returns (k: nat)
    requires First(t, c, "instCharger") && GaugeAt(t, p)
    ensures Valid(t, c)
    ensures var cs := At(t, c).children;
            && p == Kid(c, k) && k < |cs| && GaugeNamed(cs[k])
            && forall j :: 0 <= j < k ==> !GaugeNamed(cs[j])
  {
    hide GaugeNamed;
    var a;
    a, k :| First(t, a, "instCharger") && p == Kid(a, k) && k < |At(t, a).children|
            && GaugeNamed(At(t, a).children[k])
            && forall j :: 0 <= j < k ==> !GaugeNamed(At(t, a).children[j]);
    FirstOnce(t, a, c, "instCharger");
  }

  lemma GaugeIndexKept(cs: seq<BmlNode>, k: nat)
    requires k < |cs| && GaugeNamed(cs[k]) && forall j :: 0 <= j < k ==> !GaugeNamed(cs[j])
    ensures !Synthetic(cs[k]) && GaugeIndex(Keep(cs)) == k - Cuts(cs, k) < |Keep(cs)|
  {
    hide Called, Cuts, Synthetic;
    GaugeKept(cs);
    GaugeIndexAfter(cs, k);
    GaugeNotSynthetic(cs[k]);
    KeepPlace(cs, k);
  }

  lemma FirstOnce(t: BmlNode, a: Path, c: Path, text: string)
    requires First(t, a, text) && First(t, c, text)
    ensures a == c
  {
    BeforeTotal(a, c);
  }

  /** Settling the gauge replaces one child of the charger. */
  lemma GaugePuts(e: BmlNode, c: Path)
    requires FindPath(e, InstCharger) == Some(c)
    ensures Valid(e, c)
    ensures var cs := At(e, c).children;
            var i := GaugeIndex(cs);
            if i < |cs| then Valid(e, Kid(c, i)) && At(e, Kid(c, i)) == cs[i]
                             && Gauge(e) == Put(e, Kid(c, i), DressGauge(cs[i]))
            else Gauge(e) == e
  {
    hide Called, DressGauge;
    var n := At(e, c);
    var i := GaugeIndex(n.children);
    if i < |n.children| {
      PutKid(e, c, i, DressGauge(n.children[i]));
    } else {
      PutAt(e, c, n);
    }
  }

  // -------------------------------------------------------------- the whole

  lemma ChargerStays(r: BmlNode, c: Path)
    requires First(r, c, "instCharger")
    ensures FindPath(AfterRows(r), InstCharger) == Some(c) && Valid(AfterRows(r), c)
    ensures FindPath(Trim(AfterRows(r)), InstCharger) == Some(c) && Valid(Trim(AfterRows(r)), c)
    ensures Trim(AfterRows(r)) == TrimAt(AfterRows(r), c)
    ensures At(Trim(AfterRows(r)), c) == Trimmed(At(AfterRows(r), c))
  {
    hide First, FindPath, LookupPath, Steps, Rooted;
    FindsFirst(r, InstCharger, c) by { assert Spelling(InstCharger) == "instCharger"; }
    RootedLookups(r, InstCharger);
    StepsLookups(Rooted(r), ORDER, InstCharger);
    TrimFindsCharger(AfterRows(r));
  }

  /** A position that is not cut, before the gauge is settled. */
  lemma CutAt(r: BmlNode, c: Path, p: Path)
    requires First(r, c, "instCharger") && Valid(r, p) && !CutAway(r, c, p)
    ensures var d, q := AfterRows(r), Place(r, c, p);
            && Valid(d, p) && Valid(Trim(d), q)
            && var n, m := At(d, p), At(Trim(d), q);
               && m.name == n.name && m.value == n.value && m.attributes == n.attributes
               && if p == c then q == c && m.children == Keep(n.children)
                  else q != c && |m.children| == |n.children|
  {
    hide AfterRows, Called, CutAway, Place;
    var d := AfterRows(r);
    RowsKeepNames(r);
    SameNamesAt(r, d, p);
    ChargerStays(r, c);
    PlaceSame(r, d, c, p);
    TrimPlace(d, c, p);
  }

  lemma SameGauges(cs: seq<BmlNode>, ds: seq<BmlNode>)
    requires |cs| == |ds| && CalledAlike(cs, ds)
    ensures GaugeIndex(Keep(cs)) == GaugeIndex(Keep(ds)) && |Keep(cs)| == |Keep(ds)|
  {
    hide Called, CalledAlike, GaugeIndex, Keep;
    GaugeKept(cs);
    GaugeKept(ds);
    GaugesAlike(cs, ds);
    KeepFront(cs, |cs|);
    KeepFront(ds, |ds|);
    assert cs[..|cs|] == cs && ds[..|ds|] == ds;
    CutsSame(cs, ds, |cs|);
    CutsSame(cs, ds, GaugeIndex(cs));
  }

  lemma GaugesAlike(cs: seq<BmlNode>, ds: seq<BmlNode>)
    requires |cs| == |ds| && CalledAlike(cs, ds)
    ensures GaugeIndex(cs) == GaugeIndex(ds)
  {
    hide Called;
    var i := GaugeIndex(cs);
    if i < |cs| { GaugeIndexAfter(ds, i); } else { NoGaugeIndex(ds); }
  }

  /** Settling the gauge, seen from one position. */
  lemma GaugeMoves(r: BmlNode, c: Path, p: Path)
    requires First(r, c, "instCharger") && Valid(r, p) && !CutAway(r, c, p)
    ensures var e, q := Trim(AfterRows(r)), Place(r, c, p);
            && Valid(e, q) && Valid(Gauge(e), q)
            && if GaugeAt(r, p) then At(Gauge(e), q) == DressGauge(At(e, q)) else Same(At(e, q), At(Gauge(e), q))
  {
    hide Called, First, AfterRows, CutAway, Place, DressGauge, GaugeAt, SameNames, CalledAlike;
    FirstValid(r, c, "instCharger");
    var d, e, q := AfterRows(r), Trim(AfterRows(r)), Place(r, c, p);
    CutAt(r, c, p);
    ChargerStays(r, c);
    RowsKeepNames(r);
    ChargerNotIcon(r, c);
    SameNamesAt(r, d, c);
    SameNamesHere(At(r, c), At(d, c));
    SameGauges(At(r, c).children, At(d, c).children);
    GaugePlaced(r, c, p);
    GaugePuts(e, c);
    var i := GaugeIndex(At(e, c).children);
    if i < |At(e, c).children| {
      var gauge := At(e, c).children[i];
      DressGaugeFacts(gauge);
      if q == Kid(c, i) { PutAt(e, q, DressGauge(gauge)); } else { PutFrame(e, Kid(c, i), DressGauge(gauge), q); }
    }
  }

  lemma ChargerNotIcon(r: BmlNode, c: Path)
    requires First(r, c, "instCharger")
    ensures Valid(r, c) && Valid(AfterRows(r), c)
    ensures |At(AfterRows(r), c).children| == |At(r, c).children|
  {
    hide AfterRows;
    RowsAt(r, c, "name");
    NotN2o(r, c);
  }

  lemma NotN2o(r: BmlNode, c: Path)
    requires First(r, c, "instCharger")
    ensures !First(r, c, "n2o")
  {
    assert |Lower("instCharger")| == 11 && |Lower("n2o")| == 3;
  }

  /** The node at a position once the migration is done. */
  ghost predicate Ends(r: BmlNode, p: Path, m: BmlNode)
    requires Valid(r, p)
  {
    && m.value == At(r, p).value
    && m.name == (if MadeWindow(r, p) then "Window" else At(r, p).name)
    && forall key :: Attribute(m, key) == Final(r, p, key)
  }

  lemma GaugeValue(n: BmlNode, key: string)
    ensures Attribute(DressGauge(n), key) == if SameText(key, "name") then Some("instChargerGauge")
                                             else if SameText(key, "visible") then Some("true")
                                             else Attribute(n, key)
  {
    KeysApart();
    var a := Assign(n.attributes, "name", GAUGE);
    AssignLookup(n.attributes, "name", GAUGE, key);
    AssignLookup(a, "visible", "true", key);
  }

  /** The gauge itself is no node that a row looks up, nor the root. */
  lemma GaugeUnlooked(r: BmlNode, p: Path, l: Label)
    requires GaugeAt(r, p)
    ensures Valid(r, p) && p.Down? && !LooksUp(r, p, l)
  {
    var c, k: nat :| First(r, c, "instCharger") && p == Kid(c, k) && k < |At(r, c).children|
                     && GaugeNamed(At(r, c).children[k])
                     && forall j :: 0 <= j < k ==> !GaugeNamed(At(r, c).children[j]);
    PutKid(r, c, k, r);
    if LooksUp(r, p, l) { GaugeHasNoLabel(Attribute(At(r, p), "name").value, l); }
  }

  lemma GaugeAway(r: BmlNode, p: Path, key: string)
    requires GaugeAt(r, p)
    ensures Valid(r, p) && p.Down? && RowsValue(r, p, key) == Attribute(At(r, p), key)
  {
    hide GaugeAt, RowsValue, LooksUp;
    GaugeUnlooked(r, p, N2o);
    forall l | Part(l)
      ensures !LooksUp(r, p, l)
    {
      GaugeUnlooked(r, p, l);
    }
    RowsValueAway(r, p, key);
  }

  lemma FirstValid(t: BmlNode, p: Path, text: string)
    requires First(t, p, text)
    ensures Valid(t, p)
  {
  }

  lemma FinalValue(r: BmlNode, p: Path, key: string)
    requires Valid(r, p)
    ensures !GaugeAt(r, p) ==> Final(r, p, key) == RowsValue(r, p, key)
    ensures GaugeAt(r, p) ==>
              Final(r, p, key) == if SameText(key, "name") then Some("instChargerGauge")
                                  else if SameText(key, "visible") then Some("true")
                                  else RowsValue(r, p, key)
  {
    hide First, FirstOverlay, GaugeAt, Attribute, Lower;
    KeysApart();
    if GaugeAt(r, p) { GaugeAway(r, p, key); }
  }

  lemma EndsWithCharger(r: BmlNode, c: Path, p: Path, key: string)
    requires First(r, c, "instCharger") && Valid(r, p) && !CutAway(r, c, p)
    ensures var u, q := Gauge(Trim(AfterRows(r))), Place(r, c, p);
            && Valid(u, q)
            && At(u, q).value == At(r, p).value
            && At(u, q).name == (if MadeWindow(r, p) then "Window" else At(r, p).name)
            && Attribute(At(u, q), key) == Final(r, p, key)
            && (!First(r, p, "n2o") ==>
                  var cs := At(r, p).children;
                  |At(u, q).children| == |cs| - if p == c then Cuts(cs, |cs|) else 0)
  {
    hide First, FirstOverlay, AfterRows, Called, Place, CutAway, GaugeAt, Final, RowsValue, Attribute, Trim, Gauge;
    FirstValid(r, c, "instCharger");
    var d := AfterRows(r);
    var e, q := Trim(d), Place(r, c, p);
    CutAt(r, c, p);
    GaugeMoves(r, c, p);
    RowsAt(r, p, key);
    FinalValue(r, p, key);
    SameAttribute(At(d, p), At(e, q), key);
    if GaugeAt(r, p) {
      GaugeValue(At(e, q), key);
      GaugeAway(r, p, key);
    } else {
      SameAttribute(At(e, q), At(Gauge(e), q), key);
    }
    if p == c { ChargerCount(r, c); }
  }

  lemma ChargerCount(r: BmlNode, c: Path)
    requires First(r, c, "instCharger")
    ensures Valid(r, c) && Valid(AfterRows(r), c)
    ensures var cs := At(r, c).children; |Keep(At(AfterRows(r), c).children)| == |cs| - Cuts(cs, |cs|)
  {
    hide Called, AfterRows, CalledAlike, SameNames, Keep, Cuts, First, At, Valid;
    ChargerNotIcon(r, c);
    RowsKeepNames(r);
    SameNamesAt(r, AfterRows(r), c);
    SameNamesHere(At(r, c), At(AfterRows(r), c));
    KeepCount(At(r, c).children, At(AfterRows(r), c).children);
  }

  lemma KeepCount(cs: seq<BmlNode>, ds: seq<BmlNode>)
    requires |cs| == |ds| && CalledAlike(cs, ds)
    ensures |Keep(ds)| == |cs| - Cuts(cs, |cs|)
  {
    hide Called, CalledAlike, Keep, Cuts;
    CutsSame(cs, ds, |cs|);
    KeepFront(ds, |ds|);
    assert ds[..|ds|] == ds;
  }

  lemma EndsWithoutCharger(r: BmlNode, p: Path, key: string)
    requires Valid(r, p) && forall c :: !First(r, c, "instCharger")
    ensures Gauge(Trim(AfterRows(r))) == AfterRows(r)
    ensures var u := AfterRows(r);
            && Valid(u, p)
            && At(u, p).value == At(r, p).value
            && At(u, p).name == (if MadeWindow(r, p) then "Window" else At(r, p).name)
            && Attribute(At(u, p), key) == Final(r, p, key)
            && (!First(r, p, "n2o") ==> |At(u, p).children| == |At(r, p).children|)
  {
    hide First, FirstOverlay, LookupPath, FindPath, Steps, Rooted, Final, RowsValue, Attribute;
    var found := FindPath(r, InstCharger);
    if found.Some? {
      FindsFirst(r, InstCharger, found.value) by { assert Spelling(InstCharger) == "instCharger"; }
    }
    RootedLookups(r, InstCharger);
    StepsLookups(Rooted(r), ORDER, InstCharger);
    RowsAt(r, p, key);
    FinalValue(r, p, key);
  }

  /**
   The whole migration, position by position: every node outside the charger's slices is found again, its value kept,
   its tag kept or made a window, and each of its attributes reads what the specification says. It keeps its children
   but for the charger's slices and the one child that `n2o` may take.
   */
  lemma MigratedAt(t: BmlNode, p: Path) returns (q: Path)
    requires Stays(Renamed(t), p)
    ensures Lands(Renamed(t), p, q) && Valid(Migrated(t), q)
    ensures Ends(Renamed(t), p, At(Migrated(t), q))
    ensures !First(Renamed(t), p, "n2o") ==>
              var cs := At(Renamed(t), p).children;
              |At(Migrated(t), q).children|
              == |cs| - if First(Renamed(t), p, "instCharger") then Cuts(cs, |cs|) else 0
  {
    hide First, Renamed, AfterRows, CutAway, Place, Ends, Trim, Gauge, Cuts, Attribute, Lands, Stays, Migrated;
    var r := Renamed(t);
    MigratedMeans(t);
    StaysValid(r, p);
    if c :| First(r, c, "instCharger") {
      FirstValid(r, c, "instCharger");
      q := Place(r, c, p);
      EndsThere(r, c, p);
    } else {
      q := p;
      EndsHere(r, p);
    }
  }

  lemma MigratedMeans(t: BmlNode)
    ensures Migrated(t) == Gauge(Trim(AfterRows(Renamed(t))))
  {
    hide Steps, Renamed, Gauge, Trim;
  }

  lemma StaysValid(r: BmlNode, p: Path)
    requires Stays(r, p)
    ensures Valid(r, p)
  {
  }

  lemma EndsThere(r: BmlNode, c: Path, p: Path)
    requires First(r, c, "instCharger") && Valid(r, c) && Stays(r, p)
    ensures Lands(r, p, Place(r, c, p))
    ensures var u, q := Gauge(Trim(AfterRows(r))), Place(r, c, p);
            && Valid(u, q) && Ends(r, p, At(u, q))
            && (!First(r, p, "n2o") ==>
                  var cs := At(r, p).children;
                  |At(u, q).children| == |cs| - if First(r, p, "instCharger") then Cuts(cs, |cs|) else 0)
  {
    hide First, FirstOverlay, AfterRows, CutAway, Place, Final, Trim, Gauge, Attribute, Cuts, MadeWindow;
    var u, q := Gauge(Trim(AfterRows(r))), Place(r, c, p);
    OnlyFirst(r, c, "instCharger");
    EndsWithCharger(r, c, p, "");
    forall key
      ensures Attribute(At(u, q), key) == Final(r, p, key)
    {
      EndsWithCharger(r, c, p, key);
    }
    if First(r, p, "instCharger") { FirstOnce(r, p, c, "instCharger"); }
  }

  lemma EndsHere(r: BmlNode, p: Path)
    requires Valid(r, p) && forall c :: !First(r, c, "instCharger")
    ensures Lands(r, p, p)
    ensures var u := Gauge(Trim(AfterRows(r)));
            && Valid(u, p) && Ends(r, p, At(u, p))
            && (!First(r, p, "n2o") ==> |At(u, p).children| == |At(r, p).children|)
  {
    hide First, FirstOverlay, AfterRows, Final, Trim, Gauge, Attribute, MadeWindow;
    EndsWithoutCharger(r, p, "");
    forall key
      ensures Attribute(At(AfterRows(r), p), key) == Final(r, p, key)
    {
      EndsWithoutCharger(r, p, key);
    }
  }

  lemma OnlyFirst(t: BmlNode, c: Path, text: string)
    requires First(t, c, text)
    ensures forall a :: First(t, a, text) ==> a == c
  {
    forall a | First(t, a, text)
      ensures a == c
    {
      FirstOnce(t, a, c, text);
    }
  }

  // ------------------------------------------------------------ the active icon

  /** What a key of the icon reads, given what it reads in the template. */
  function IconValue(key: string, template: Option<string>): Option<string> {
    if SameText(key, "name") then Some("on")
    else if SameText(key, "leftTopTex") then Some("0 0")
    else if SameText(key, "visible") then Some("false")
    else if SameText(key, "windowSize") || SameText(key, "adjust") || SameText(key, "align") then None
    else template
  }

  lemma IconKeysApart()
    ensures |Lower("windowSize")| == 10 && Lower("windowSize")[0] == 'w' && Lower("leftTopTex")[0] == 'l'
    ensures |Lower("adjust")| == 6 && |Lower("align")| == 5
  {
  }

  /** The icon has the tag, the value and the remaining attributes of its template, and no children. */
  lemma ActiveIconContract(template: BmlNode, key: string)
    ensures var icon := ActiveIcon(template);
            && icon.children == [] && icon.name == template.name && icon.value == template.value
            && Attribute(icon, key) == IconValue(key, Attribute(template, key))
  {
    hide Assign, Without, Lookup;
    KeysApart();
    IconKeysApart();
    var a1 := Assign(template.attributes, "name", "on");
    var a2 := Assign(a1, "leftTopTex", "0 0");
    var a3 := Assign(a2, "visible", "false");
    var a4 := Without(a3, "windowSize");
    var a5 := Without(a4, "adjust");
    AssignLookup(template.attributes, "name", "on", key);
    AssignLookup(a1, "leftTopTex", "0 0", key);
    AssignLookup(a2, "visible", "false", key);
    WithoutLookup(a3, "windowSize", key);
    WithoutLookup(a4, "adjust", key);
    WithoutLookup(a5, "align", key);
  }

  /** The node that the first `n2o_always` serves as a template for. */
  ghost predicate IconOf(r: BmlNode, a: Path, icon: BmlNode)
    requires Valid(r, a)
  {
    && icon.children == [] && icon.name == At(r, a).name && icon.value == At(r, a).value
    && forall key :: Attribute(icon, key)
                  == IconValue(key, if SameText(key, "instAccelFullLenth") && a.Here? then Some("1000")
                                    else Attribute(At(r, a), key))
  }

  lemma RootedIcon(r: BmlNode, a: Path)
    requires Valid(r, a)
    ensures Valid(Rooted(r), a) && IconOf(r, a, ActiveIcon(At(Rooted(r), a)))
  {
    hide Rooted, ActiveIcon, IconValue, Attribute;
    RootedAt(r, a, "");
    var icon := ActiveIcon(At(Rooted(r), a));
    ActiveIconContract(At(Rooted(r), a), "");
    forall key
      ensures Attribute(icon, key)
           == IconValue(key, if SameText(key, "instAccelFullLenth") && a.Here? then Some("1000")
                             else Attribute(At(r, a), key))
    {
      RootedAt(r, a, key);
      ActiveIconContract(At(Rooted(r), a), key);
    }
  }

  lemma RootedHasOn(r: BmlNode, p: Path)
    requires Valid(r, p)
    ensures Valid(Rooted(r), p)
    ensures HasOn(At(Rooted(r), p)) <==> exists k :: 0 <= k < |At(r, p).children| && Called(At(r, p).children[k], "on")
  {
    hide Called;
    RootedAt(r, p, "");
  }

  lemma SpelledIcons()
    ensures Spelling(N2o) == "n2o" && Spelling(N2oAlways) == "n2o_always"
  {
  }

  lemma RowsActivate(r: BmlNode, p: Path, a: Path)
    requires Activates(r, p, a)
    ensures Valid(r, p) && Valid(r, a) && Valid(AfterRows(r), p)
    ensures var n, m := At(r, p), At(AfterRows(r), p);
            |m.children| == |n.children| + 1 && IconOf(r, a, m.children[|n.children|])
  {
    hide Called, LookupPath, FindPath, Steps, Rooted, ActiveIcon, IconOf, HasOn, Spelling;
    SpelledIcons();
    FindsFirst(r, N2o, p);
    FindsFirst(r, N2oAlways, a);
    LooksUpFirst(r, p, N2o);
    RootedLookups(r, N2o);
    RootedLookups(r, N2oAlways);
    RootedAt(r, p, "");
    RootedHasOn(r, p);
    RootedIcon(r, a);
    OrderMembers();
    StepsActivate(Rooted(r), ORDER, p);
  }

  lemma RowsIdle(r: BmlNode, p: Path)
    requires First(r, p, "n2o") && forall a :: !Activates(r, p, a)
    ensures Valid(r, p) && Valid(AfterRows(r), p) && |At(AfterRows(r), p).children| == |At(r, p).children|
  {
    hide Called, LookupPath, FindPath, Steps, Rooted, ActiveIcon, HasOn, Spelling;
    SpelledIcons();
    FindsFirst(r, N2o, p);
    LooksUpFirst(r, p, N2o);
    RootedLookups(r, N2o);
    RootedLookups(r, N2oAlways);
    RootedAt(r, p, "");
    RootedHasOn(r, p);
    OrderMembers();
    StepsActivate(Rooted(r), ORDER, p);
    var template := FindPath(r, N2oAlways);
    if template.Some? {
      FindsFirst(r, N2oAlways, template.value);
      assert !Activates(r, p, template.value);
    }
  }

  lemma KidIsBelow(p: Path, k: nat)
    ensures p.Down? ==> Kid(p, k).Down? && Kid(p, k).k == p.k && Kid(p, k).rest == Kid(p.rest, k)
    ensures p.Down? ==> Kid(p.rest, k).Down?
    ensures p.Here? ==> Kid(p, k) == Down(k, Here)
  {
  }

  lemma {:induction false} KidApart(p: Path, q: Path, i: nat, j: nat)
    requires Kid(p, i) == Kid(q, j)
    ensures p == q && i == j
  {
    KidIsBelow(p, i);
    KidIsBelow(q, j);
    if p.Down? && q.Down? { KidApart(p.rest, q.rest, i, j); }
  }

  /** Further children of a node other than the charger come through the cut and the gauge as they are. */
  lemma ExtraChild(r: BmlNode, c: Path, p: Path, k: nat)
    requires First(r, c, "instCharger") && Valid(r, p) && p != c && !CutAway(r, c, p)
    requires Valid(AfterRows(r), p) && k < |At(AfterRows(r), p).children|
    requires At(AfterRows(r), p).children[k].children == []
    ensures var u, q := Gauge(Trim(AfterRows(r))), Place(r, c, p);
            && Valid(u, q) && |At(u, q).children| == |At(AfterRows(r), p).children|
            && At(u, q).children[k] == At(AfterRows(r), p).children[k]
  {
    hide AfterRows, Called, CutAway, Place, First, SameNames, DressGauge;
    FirstValid(r, c, "instCharger");
    var d, q := AfterRows(r), Place(r, c, p);
    ChargerStays(r, c);
    RowsKeepNames(r);
    SameNamesAt(r, d, p);
    PlaceSame(r, d, c, p);
    PutKid(d, p, k, d);
    PlaceKid(d, c, p, k);
    TrimPlace(d, c, p);
    TrimPlace(d, c, Kid(p, k));
    var e := Trim(d);
    PutKid(e, q, k, e);
    GaugePuts(e, c);
    var i := GaugeIndex(At(e, c).children);
    if i < |At(e, c).children| {
      var gauge := At(e, c).children[i];
      DressGaugeFacts(gauge);
      if Kid(c, i) == Kid(q, k) { KidApart(c, q, i, k); }
      ExtraPut(e, Kid(c, i), DressGauge(gauge), q, k);
    }
  }

  lemma ExtraPut(e: BmlNode, g: Path, n: BmlNode, q: Path, k: nat)
    requires Valid(e, g) && At(e, g).children == n.children && Valid(e, q) && k < |At(e, q).children|
    requires g != Kid(q, k) && At(e, q).children[k].children == []
    ensures Valid(Put(e, g, n), q) && |At(Put(e, g, n), q).children| == |At(e, q).children|
    ensures At(Put(e, g, n), q).children[k] == At(e, q).children[k]
  {
    var u := Put(e, g, n);
    PutKid(e, q, k, n);
    PutFrame(e, g, n, Kid(q, k));
    if q == g { PutAt(e, g, n); } else { PutFrame(e, g, n, q); PutKid(u, q, k, n); }
  }

  /** `n2o` ends with one more child made from the first `n2o_always`, exactly when it had none to switch on. */
  lemma MigratedIcon(t: BmlNode, p: Path) returns (q: Path)
    requires Stays(Renamed(t), p) && First(Renamed(t), p, "n2o")
    ensures Lands(Renamed(t), p, q) && Valid(Migrated(t), q)
    ensures var cs, ds := At(Renamed(t), p).children, At(Migrated(t), q).children;
            && ((forall a :: !Activates(Renamed(t), p, a)) ==> |ds| == |cs|)
            && (forall a :: Activates(Renamed(t), p, a) ==>
                  Valid(Renamed(t), a) && |ds| == |cs| + 1 && IconOf(Renamed(t), a, ds[|cs|]))
  {
    hide First, Renamed, AfterRows, CutAway, Place, Trim, Gauge, Attribute, Activates, IconOf, Migrated;
    var r := Renamed(t);
    MigratedMeans(t);
    if c :| First(r, c, "instCharger") {
      OnlyFirst(r, c, "instCharger");
      FirstValid(r, c, "instCharger");
      q := Place(r, c, p);
      IconThere(r, c, p);
    } else {
      q := p;
      IconHere(r, p);
    }
  }

  lemma IconThere(r: BmlNode, c: Path, p: Path)
    requires First(r, c, "instCharger") && Valid(r, c) && Valid(r, p) && !CutAway(r, c, p) && First(r, p, "n2o")
    ensures var u, q := Gauge(Trim(AfterRows(r))), Place(r, c, p);
            && Valid(u, q)
            && var cs, ds := At(r, p).children, At(u, q).children;
               && ((forall a :: !Activates(r, p, a)) ==> |ds| == |cs|)
               && (forall a :: Activates(r, p, a) ==>
                     Valid(r, a) && |ds| == |cs| + 1 && IconOf(r, a, ds[|cs|]))
  {
    hide First, AfterRows, CutAway, Place, Trim, Gauge, Attribute, Activates, GaugeAt;
    GaugeMoves(r, c, p);
    CutAt(r, c, p);
    NotN2o(r, c);
    if a :| Activates(r, p, a) {
      RowsActivate(r, p, a);
      ExtraChild(r, c, p, |At(r, p).children|);
      OnlyTemplate(r, p, a);
    } else {
      RowsIdle(r, p);
      GaugeNotN2o(r, p);
    }
  }

  lemma GaugeNotN2o(r: BmlNode, p: Path)
    requires First(r, p, "n2o")
    ensures !GaugeAt(r, p)
  {
    hide First;
    if GaugeAt(r, p) {
      LooksUpFirst(r, p, N2o) by { SpelledIcons(); }
      assert Spelling(N2o) == "n2o" by { SpelledIcons(); }
      GaugeUnlooked(r, p, N2o);
    }
  }

  lemma OnlyTemplate(r: BmlNode, p: Path, a: Path)
    requires Activates(r, p, a)
    ensures forall b :: Activates(r, p, b) ==> b == a
  {
    OnlyFirst(r, a, "n2o_always");
  }

  lemma IconHere(r: BmlNode, p: Path)
    requires First(r, p, "n2o") && Valid(r, p) && forall c :: !First(r, c, "instCharger")
    ensures var u := Gauge(Trim(AfterRows(r)));
            && Valid(u, p)
            && var cs, ds := At(r, p).children, At(u, p).children;
               && ((forall a :: !Activates(r, p, a)) ==> |ds| == |cs|)
               && (forall a :: Activates(r, p, a) ==>
                     Valid(r, a) && |ds| == |cs| + 1 && IconOf(r, a, ds[|cs|]))
  {
    hide First, AfterRows, Trim, Gauge, Attribute, Activates;
    EndsWithoutCharger(r, p, "");
    if a :| Activates(r, p, a) {
      RowsActivate(r, p, a);
      OnlyTemplate(r, p, a);
    } else {
      RowsIdle(r, p);
    }
  }

  // ------------------------------------------------------- the modern icons

  /** The name a node has after the renames. */
  function NewName(name: string): string {
    if Replacement(name).Some? then Replacement(name).value else name
  }

  lemma RenamedTo(t: BmlNode, p: Path)
    requires Valid(t, p)
    ensures Valid(Renamed(t), p)
    ensures var name := Attribute(At(t, p), "name");
            Attribute(At(Renamed(t), p), "name") == if name.Some? then Some(NewName(name.value)) else None
    decreases p
  {
    if p.Down? {
      RenamedTo(t.children[p.k], p.rest);
    } else if Obsolete(t) {
      AssignLookup(t.attributes, "name", Replacement(Attribute(t, "name").value).value, "name");
    }
  }

  lemma IconNames(name: string)
    ensures SameText(NewName(name), "n2o") <==> SameText(name, "n2o") || SameText(name, "bg_engineIcon1")
    ensures SameText(NewName(name), "n2o_always") <==> SameText(name, "n2o_always") || SameText(name, "bg_engineIcon2")
    ensures SameText(NewName(name), "on") <==> SameText(name, "on")
  {
    hide Replacement, SameText;
    Replacements(name);
    if i :| 0 <= i < |ALIASED| && SameText(name, ALIASED[i]) {
      OldNames(name, i);
      NewNames(i);
    }
  }

  const REPLACED := ["v1gen_bg1", "v1gen_bg2", "n2o", "n2o_always", "blinkRoad1", "blinkRoad2", "blinkRoad3"]

  lemma OldNames(name: string, i: nat)
    requires i < |ALIASED| && SameText(name, ALIASED[i])
    ensures !SameText(name, "n2o") && !SameText(name, "n2o_always") && !SameText(name, "on")
    ensures SameText(name, "bg_engineIcon1") <==> i == 2
    ensures SameText(name, "bg_engineIcon2") <==> i == 3
    ensures Replacement(name) == Some(REPLACED[i])
  {
    hide Replacement;
    Replacements(name);
    assert ALIASED[2] == "bg_engineIcon1" && ALIASED[3] == "bg_engineIcon2";
    if SameText(name, ALIASED[2]) { AliasedApart(name, i, 2); }
    if SameText(name, ALIASED[3]) { AliasedApart(name, i, 3); }
    assert |ALIASED[i]| == 10 || |ALIASED[i]| == 14;
    assert |Lower("n2o_always")| == 10 && Lower("n2o_always")[0] == 'n';
    assert Lower(ALIASED[i])[0] == 'x' || Lower(ALIASED[i])[0] == 'b';
  }

  lemma NewNames(i: nat)
    requires i < |REPLACED|
    ensures SameText(REPLACED[i], "n2o") <==> i == 2
    ensures SameText(REPLACED[i], "n2o_always") <==> i == 3
    ensures !SameText(REPLACED[i], "on")
  {
    assert |Lower("n2o_always")| == 10 && Lower("n2o_always")[0] == 'n';
    assert |REPLACED[i]| == 10 ==> i == 3 || Lower(REPLACED[i])[0] == 'b';
  }

  lemma RenamedCalled(t: BmlNode, p: Path)
    requires Valid(t, p)
    ensures Valid(Renamed(t), p)
    ensures var n, m := At(t, p), At(Renamed(t), p);
            && (Called(m, "n2o") <==> Called(n, "n2o") || Called(n, "bg_engineIcon1"))
            && (Called(m, "n2o_always") <==> Called(n, "n2o_always") || Called(n, "bg_engineIcon2"))
            && (Called(m, "on") <==> Called(n, "on"))
  {
    hide SameText, Renamed, Attribute, NewName;
    RenamedTo(t, p);
    var name := Attribute(At(t, p), "name");
    if name.Some? { IconNames(name.value); }
  }

  lemma BeforeItself(p: Path)
    ensures !Before(p, p)
  {
  }

  lemma {:induction false} RenamedValid(t: BmlNode, p: Path)
    ensures Valid(Renamed(t), p) <==> Valid(t, p)
    decreases p
  {
    if p.Down? && p.k < |t.children| { RenamedValid(t.children[p.k], p.rest); }
  }

  lemma IconFirst(t: BmlNode, p: Path)
    requires Valid(t, p) && Called(At(t, p), "bg_engineIcon1")
    requires forall x :: Valid(t, x) && (Called(At(t, x), "n2o") || Called(At(t, x), "bg_engineIcon1")) ==> x == p
    ensures First(Renamed(t), p, "n2o")
  {
    hide Called, Renamed;
    RenamedCalled(t, p);
    forall x | Valid(Renamed(t), x) && Before(x, p)
      ensures !Called(At(Renamed(t), x), "n2o")
    {
      RenamedValid(t, x);
      RenamedCalled(t, x);
      BeforeItself(p);
    }
  }

  lemma TemplateFirst(t: BmlNode, a: Path)
    requires Valid(t, a) && Called(At(t, a), "bg_engineIcon2")
    requires forall x :: Valid(t, x) && (Called(At(t, x), "n2o_always") || Called(At(t, x), "bg_engineIcon2")) ==>
                           x == a
    ensures First(Renamed(t), a, "n2o_always")
  {
    hide Called, Renamed;
    RenamedCalled(t, a);
    forall x | Valid(Renamed(t), x) && Before(x, a)
      ensures !Called(At(Renamed(t), x), "n2o_always")
    {
      RenamedValid(t, x);
      RenamedCalled(t, x);
      BeforeItself(a);
    }
  }

  lemma OneLanding(r: BmlNode, p: Path, q: Path, q': Path)
    requires Lands(r, p, q) && Lands(r, p, q')
    ensures q == q'
  {
    hide First;
    if c :| First(r, c, "instCharger") { FirstValid(r, c, "instCharger"); assert q == Place(r, c, p); }
  }

  lemma FinalName(r: BmlNode, p: Path)
    requires First(r, p, "n2o")
    ensures Valid(r, p) && Final(r, p, "name") == Attribute(At(r, p), "name")
  {
    hide Final, RowsValue, GaugeAt;
    GaugeNotN2o(r, p);
    FinalValue(r, p, "name");
    NameStays(r, p);
  }

  lemma IconNamed(r: BmlNode, a: Path, icon: BmlNode)
    requires Valid(r, a) && IconOf(r, a, icon)
    ensures Attribute(icon, "name") == Some("on")
  {
    hide Attribute;
    NameItself();
  }

  lemma EndsNamed(r: BmlNode, p: Path, m: BmlNode)
    requires Valid(r, p) && Ends(r, p, m) && First(r, p, "n2o")
    ensures Attribute(m, "name") == Attribute(At(r, p), "name")
  {
    hide Attribute, Final, First;
    FinalName(r, p);
  }

  /**
   The modern pair of engine icons: where it is the only source of the two old names, the first icon ends with a child
   to switch on that shows what the second one shows.
   */
  lemma EngineIcons(t: BmlNode, p: Path, a: Path) returns (q: Path)
    requires Valid(t, p) && Called(At(t, p), "bg_engineIcon1")
    requires Valid(t, a) && Called(At(t, a), "bg_engineIcon2")
    requires forall x :: Valid(t, x) && (Called(At(t, x), "n2o") || Called(At(t, x), "bg_engineIcon1")) ==> x == p
    requires forall x :: Valid(t, x) && (Called(At(t, x), "n2o_always") || Called(At(t, x), "bg_engineIcon2")) ==>
                           x == a
    requires forall k :: 0 <= k < |At(t, p).children| ==> !Called(At(t, p).children[k], "on")
    requires Stays(Renamed(t), p)
    ensures Lands(Renamed(t), p, q) && Valid(Migrated(t), q) && Attribute(At(Migrated(t), q), "name") == Some("n2o")
    ensures var ds := At(Migrated(t), q).children;
            && |ds| == |At(t, p).children| + 1
            && Valid(Renamed(t), a) && IconOf(Renamed(t), a, ds[|ds| - 1])
            && Attribute(ds[|ds| - 1], "name") == Some("on")
  {
    hide Renamed, Migrated, Stays, Lands, Called, IconOf, Ends, SameText;
    var r := Renamed(t);
    RenamedAt(t, p);
    RenamedCalled(t, p);
    RenamedCalled(t, a);
    IconFirst(t, p);
    TemplateFirst(t, a);
    forall k | 0 <= k < |At(r, p).children|
      ensures !Called(At(r, p).children[k], "on")
    {
      PutKid(r, p, k, r);
      PutKid(t, p, k, t);
      RenamedCalled(t, Kid(p, k));
    }
    assert Activates(r, p, a);
    q := MigratedIcon(t, p);
    hide First;
    var q' := MigratedAt(t, p);
    OneLanding(r, p, q, q');
    EndsNamed(r, p, At(Migrated(t), q));
    var ds := At(Migrated(t), q).children;
    IconNamed(r, a, ds[|ds| - 1]);
  }
}
