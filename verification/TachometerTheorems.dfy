/** The main results about the tachometer migration: its fixed points, and what the client finds in a migrated tree. */
module TachometerTheorems {
  import opened Text
  import opened BmlTree
  import opened Tachometer
  import TachometerProof
  import opened TachometerFixpoint
  import opened TachometerFrame

  // ----------------------------------------------------------- obsolete names

  lemma ReplacementIsFinal(name: string)
    requires Replacement(name).Some?
    ensures Replacement(Replacement(name).value) == None
  {
    var r := Replacement(name).value;
    assert |Lower("xungen_bg1")| == 10 && Lower("xungen_bg1")[0] == 'x';
    assert |Lower("xungen_bg2")| == 10 && Lower("xungen_bg2")[0] == 'x';
    assert |Lower("bg_engineIcon1")| == |Lower("bg_engineIcon2")| == 14;
    assert |Lower("xunLegacyRoad1")| == |Lower("xunLegacyRoad2")| == |Lower("xunLegacyRoad3")| == 14;
    assert Lower(r)[0] == LowerChar(r[0]) && |Lower(r)| == |r|;
  }

  lemma NotObsolete(n: BmlNode, name: string)
    requires Attribute(n, "name") == Some(name) && Replacement(name) == None
    ensures !Obsolete(n)
  {
  }

  lemma {:induction false} RenamedFinal(t: BmlNode)
    ensures !AnyObsolete(Renamed(t))
    ensures Renamed(t) == t <==> !AnyObsolete(t)
  {
    var u := Renamed(t);
    forall k | 0 <= k < |t.children|
      ensures !AnyObsolete(u.children[k])
      ensures u.children[k] == t.children[k] <==> !AnyObsolete(t.children[k])
    {
      RenamedFinal(t.children[k]);
    }
    if Obsolete(t) {
      var name := Attribute(t, "name").value;
      var r := Replacement(name).value;
      assert SameText("name", "name");
      AssignLookup(t.attributes, "name", r, "name");
      ReplacementIsFinal(name);
      NotObsolete(u, r);
    } else {
      assert u.attributes == t.attributes;
    }
  }

  lemma {:induction false} PutObsolete(t: BmlNode, p: Path, n: BmlNode)
    requires Valid(t, p) && !AnyObsolete(t)
    ensures !AnyObsolete(At(t, p))
    ensures !AnyObsolete(n) ==> !AnyObsolete(Put(t, p, n))
  {
    if p.Down? {
      var u := Put(t, p, n);
      PutObsolete(t.children[p.k], p.rest, n);
      assert Obsolete(u) == Obsolete(t);
    }
  }

  lemma SameNameObsolete(n: BmlNode, m: BmlNode)
    requires Attribute(n, "name") == Attribute(m, "name") && !AnyObsolete(n)
    requires forall k :: 0 <= k < |m.children| ==> !AnyObsolete(m.children[k])
    ensures !AnyObsolete(m)
  {
  }

  lemma ShortNameFinal(name: string)
    requires |name| == 2 || |name| == 16
    ensures Replacement(name) == None
  {
  }

  lemma PushKeepsName(n: BmlNode, icon: BmlNode)
    ensures Attribute(Push(n, icon), "name") == Attribute(n, "name")
  {
  }

  lemma StepObsolete(t: BmlNode, l: Label)
    requires !AnyObsolete(t)
    ensures !AnyObsolete(Step(t, l))
  {
    hide Obsolete, ActiveIcon, NameIs, Tweaks, Meets, Attribute;
    var at := LookupPath(t, l);
    if at.Some? {
      var n := At(t, at.value);
      PutObsolete(t, at.value, n);
      if l == N2o {
        var template := FindPath(t, N2oAlways);
        if template.Some? && !HasOn(n) {
          var icon := ActiveIcon(At(t, template.value));
          TachometerProof.ActiveIconName(At(t, template.value));
          TachometerProof.ActiveIconIsLeaf(At(t, template.value));
          ShortNameFinal("on");
          NotObsolete(icon, "on");
          PushKeepsName(n, icon);
          SameNameObsolete(n, Push(n, icon));
          PutObsolete(t, at.value, Push(n, icon));
        }
      } else {
        var m := ApplyTweaks(n, Tweaks(l));
        TachometerProof.Dressed(n, l);
        SameNameObsolete(n, m);
        PutObsolete(t, at.value, m);
      }
    }
  }

  lemma {:induction false} StepsObsolete(t: BmlNode, ls: seq<Label>)
    requires !AnyObsolete(t)
    ensures !AnyObsolete(Steps(t, ls))
    decreases ls
  {
    if ls != [] {
      StepObsolete(t, ls[0]);
      StepsObsolete(Step(t, ls[0]), ls[1..]);
    }
  }

  lemma RootedName(t: BmlNode)
    ensures Attribute(Rooted(t), "name") == Attribute(t, "name")
    ensures Attribute(Rooted(t), ROOT_KEY) == Some("1000")
  {
    assert |Lower("name")| == 4 && |Lower(ROOT_KEY)| == 18;
    AssignLookup(t.attributes, ROOT_KEY, "1000", "name");
    AssignLookup(t.attributes, ROOT_KEY, "1000", ROOT_KEY);
  }

  lemma TrimObsolete(t: BmlNode)
    requires !AnyObsolete(t)
    ensures !AnyObsolete(Trim(t))
  {
    var c := FindPath(t, InstCharger);
    if c.Some? {
      var n := At(t, c.value);
      PutObsolete(t, c.value, n);
      forall k | 0 <= k < |Trimmed(n).children|
        ensures !AnyObsolete(Trimmed(n).children[k])
      {
        assert Trimmed(n).children[k] in Keep(n.children);
      }
      SameNameObsolete(n, Trimmed(n));
      PutObsolete(t, c.value, Trimmed(n));
    }
  }

  lemma GaugeObsolete(t: BmlNode)
    requires !AnyObsolete(t)
    ensures !AnyObsolete(Gauge(t))
  {
    var c := FindPath(t, InstCharger);
    if c.Some? {
      var n := At(t, c.value);
      PutObsolete(t, c.value, n);
      var i := GaugeIndex(n.children);
      if i < |n.children| {
        DressGaugeFacts(n.children[i]);
        ShortNameFinal(GAUGE);
        NotObsolete(DressGauge(n.children[i]), GAUGE);
      }
      SameNameObsolete(n, Gauged(n));
      PutObsolete(t, c.value, Gauged(n));
    }
  }

  lemma MigratedNames(t: BmlNode)
    ensures !AnyObsolete(Migrated(t))
  {
    var r := Renamed(t);
    var b := Rooted(r);
    RenamedFinal(t);
    RootedName(r);
    SameNameObsolete(r, b);
    StepsObsolete(b, ORDER);
    TrimObsolete(Steps(b, ORDER));
    GaugeObsolete(Trim(Steps(b, ORDER)));
  }

  // ------------------------------------------------------------- the root key

  lemma StepRoot(t: BmlNode, l: Label)
    ensures Attribute(Step(t, l), ROOT_KEY) == Attribute(t, ROOT_KEY)
  {
    var at := LookupPath(t, l);
    if at.Some? && l != N2o { TachometerProof.Dressed(At(t, at.value), l); }
  }

  lemma {:induction false} StepsRoot(t: BmlNode, ls: seq<Label>)
    ensures Attribute(Steps(t, ls), ROOT_KEY) == Attribute(t, ROOT_KEY)
    decreases ls
  {
    if ls != [] {
      StepRoot(t, ls[0]);
      StepsRoot(Step(t, ls[0]), ls[1..]);
    }
  }

  lemma MigratedRoot(t: BmlNode)
    ensures Attribute(Migrated(t), ROOT_KEY) == Some("1000")
  {
    RootedName(Renamed(t));
    StepsRoot(Rooted(Renamed(t)), ORDER);
  }

  // ------------------------------------------------------------ fixed points

  lemma StepSettled(t: BmlNode, l: Label)
    requires RowOk(t, l)
    ensures Step(t, l) == t
  {
    var at := LookupPath(t, l);
    if at.Some? {
      PutAt(t, at.value, At(t, at.value));
      if l != N2o { TachometerProof.Dressed(At(t, at.value), l); }
    }
  }

  lemma {:induction false} StepsSettled(t: BmlNode, ls: seq<Label>)
    requires forall l :: l in ls ==> RowOk(t, l)
    ensures Steps(t, ls) == t
    decreases ls
  {
    if ls != [] {
      StepSettled(t, ls[0]);
      StepsSettled(t, ls[1..]);
    }
  }

  lemma {:induction false} KeepAll(cs: seq<BmlNode>)
    requires forall k :: 0 <= k < |cs| ==> !Slice(cs[k])
    ensures Keep(cs) == cs
  {
    if cs != [] { KeepAll(cs[1..]); }
  }

  lemma GaugedSettled(n: BmlNode)
    requires ChargerNodeOk(n)
    ensures Trimmed(n) == n && Gauged(n) == n
  {
    KeepAll(n.children);
    var i := GaugeIndex(n.children);
    if i < |n.children| { DressGaugeFacts(n.children[i]); }
  }

  lemma ChargerSettled(t: BmlNode)
    requires ChargerOk(t)
    ensures Trim(t) == t && Gauge(t) == t
  {
    var c := FindPath(t, InstCharger);
    if c.Some? {
      GaugedSettled(At(t, c.value));
      PutAt(t, c.value, At(t, c.value));
    }
  }

  lemma SettledStays(t: BmlNode)
    requires Settled(t)
    ensures Migrated(t) == t
  {
    RenamedFinal(t);
    AssignSame(t.attributes, ROOT_KEY, "1000");
    StepsSettled(t, ORDER);
    ChargerSettled(t);
  }

  lemma {:induction false} NoSliceNoLoss(t: BmlNode, c: Path, q: Path)
    requires Valid(t, c) && Valid(t, q)
    requires SliceFree(At(t, c))
    ensures !InSlice(t, c, q)
    decreases c
  {
    if q.Down? {
      if c.Here? {
        assert At(t, c) == t;
      } else if c.k == q.k {
        NoSliceNoLoss(t.children[c.k], c.rest, q.rest);
      }
    }
  }

  lemma SettledChargerLosesNothing(t: BmlNode, l: Label)
    requires ChargerOk(t)
    ensures !Lost(t, l)
  {
    var c, parent, q := FindPath(t, InstCharger), FindPath(t, ExceedFeatures), LookupPath(t, l);
    if c.Some? && parent.Some? { NoSliceNoLoss(t, c.value, parent.value); }
    if c.Some? && q.Some? { NoSliceNoLoss(t, c.value, q.value); }
  }

  /** The input condition: no looked-up node is lost to the cut, or its successor is already in order. */
  predicate NoHarmfulLoss(t: BmlNode) {
    forall l :: l in ORDER ==> Lost(Renamed(t), l) ==> RowOk(Trim(Renamed(t)), l)
  }

  lemma MigratedSettled(t: BmlNode)
    ensures Settled(Migrated(t)) <==> NoHarmfulLoss(t)
  {
    MigratedNames(t);
    MigratedRoot(t);
    MigratedCharger(t);
    forall l | l in ORDER
      ensures RowOk(Migrated(t), l) <==> (Lost(Renamed(t), l) ==> RowOk(Trim(Renamed(t)), l))
    {
      OrderFacts(l);
      MigratedRow(t, l);
    }
  }

  /** A tree is a fixed point of the migration exactly when every step finds it in order. */
  lemma FixedPoints(t: BmlNode)
    ensures Migrated(t) == t <==> Settled(t)
  {
    if Settled(t) {
      SettledStays(t);
    } else if Migrated(t) == t {
      MigratedNames(t);
      RenamedFinal(t);
      MigratedCharger(t);
      forall l | l in ORDER
        ensures !Lost(t, l)
      {
        SettledChargerLosesNothing(t, l);
      }
      MigratedSettled(t);
    }
  }

  /** Migrating twice changes nothing more, exactly when the input loses no looked-up node harmfully. */
  lemma Idempotent(t: BmlNode)
    ensures Migrated(Migrated(t)) == Migrated(t) <==> NoHarmfulLoss(t)
  {
    FixedPoints(Migrated(t));
    MigratedSettled(t);
  }

  ghost predicate Quiet(n: BmlNode) {
    forall k :: 0 <= k < |n.children| && Slice(n.children[k]) ==>
      forall l: Label :: Part(l) ==> FindPath(n.children[k], l) == None
  }

  lemma QuietLosesNothing(r: BmlNode, l: Label)
    requires Part(l)
    requires var c := FindPath(r, InstCharger); c.Some? ==> Quiet(At(r, c.value))
    ensures !Lost(r, l)
  {
    hide NameIs, Slice;
    var c, parent, q := FindPath(r, InstCharger), FindPath(r, ExceedFeatures), LookupPath(r, l);
    if c.Some? && parent.Some? && InSlice(r, c.value, parent.value) {
      InSliceHolds(r, c.value, parent.value, ExceedFeatures);
    }
    if c.Some? && q.Some? && InSlice(r, c.value, q.value) {
      InSliceHolds(r, c.value, q.value, l);
    }
  }

  /** Removed slices that carry no looked-up name cannot disturb a second pass. */
  lemma QuietSlicesSuffice(t: BmlNode)
    requires var c := FindPath(Renamed(t), InstCharger); c.Some? ==> Quiet(At(Renamed(t), c.value))
    ensures Migrated(Migrated(t)) == Migrated(t)
  {
    forall l | l in ORDER
      ensures !Lost(Renamed(t), l)
    {
      OrderFacts(l);
      QuietLosesNothing(Renamed(t), l);
    }
    Idempotent(t);
  }

  lemma {:induction false} InSliceHolds(t: BmlNode, c: Path, q: Path, l: Label)
    requires Valid(t, c) && Valid(t, q) && InSlice(t, c, q) && NameIs(At(t, q), l)
    ensures exists k :: 0 <= k < |At(t, c).children| && Slice(At(t, c).children[k])
                     && FindPath(At(t, c).children[k], l).Some?
    decreases c
  {
    if c.Here? {
      FindSome(t.children[q.k], q.rest, l);
      assert At(t, c) == t;
    } else {
      InSliceHolds(t.children[c.k], c.rest, q.rest, l);
      assert At(t, c) == At(t.children[c.k], c.rest);
    }
  }

  // ------------------------------------------------- what the client relies on

  ghost predicate Shows(t: BmlNode, l: Label, key: string, value: Option<string>) {
    var q := LookupPath(t, l);
    q.Some? ==> Attribute(At(t, q.value), key) == value
  }

  /** The node is a window, however it was tagged before. */
  ghost predicate Windowed(t: BmlNode, l: Label) {
    var q := LookupPath(t, l);
    q.Some? ==> SameText(At(t, q.value).name, "Window")
  }

  lemma RowWindowed(t: BmlNode, l: Label)
    requires RowOk(t, l) && (l == InstAccel || l == InstCharger)
    ensures Windowed(t, l)
  {
    assert RetagWindow in Tweaks(l);
  }

  lemma RowShows(t: BmlNode, l: Label, tweak: Tweak)
    requires RowOk(t, l) && l != N2o && tweak in Tweaks(l) && !tweak.RetagWindow?
    ensures Shows(t, l, tweak.key, if tweak.Set? then Some(tweak.text) else None)
  {
  }

  /** The first node with the name, if there is one, has this attribute. */
  ghost predicate Reads(u: BmlNode, text: string, key: string, value: Option<string>) {
    forall p :: First(u, p, text) ==> Attribute(At(u, p), key) == value
  }

  /** So has the first node with the name below the first `exceedFeatures`. */
  ghost predicate OverlayReads(u: BmlNode, text: string, key: string, value: Option<string>) {
    forall p :: FirstOverlay(u, p, text) ==> Valid(u, p) && Attribute(At(u, p), key) == value
  }

  lemma RowReads(u: BmlNode, l: Label, tweak: Tweak)
    requires RowOk(u, l) && l != N2o && !Overlay(l) && tweak in Tweaks(l) && !tweak.RetagWindow?
    ensures Reads(u, Spelling(l), tweak.key, if tweak.Set? then Some(tweak.text) else None)
  {
    hide First, Attribute, FindPath;
    RowShows(u, l, tweak);
    forall p | First(u, p, Spelling(l))
      ensures LookupPath(u, l) == Some(p)
    {
      FindsFirst(u, l, p);
    }
  }

  lemma OverlayRowReads(u: BmlNode, l: Label)
    requires RowOk(u, l) && Overlay(l)
    ensures OverlayReads(u, Spelling(l), "visible", Some("false"))
  {
    hide FirstOverlay, Attribute, FindPath;
    assert Set("visible", "false") in Tweaks(l);
    RowShows(u, l, Set("visible", "false"));
    forall p | FirstOverlay(u, p, Spelling(l))
      ensures LookupPath(u, l) == Some(p)
    {
      LooksUpOverlay(u, p, l);
    }
  }

  ghost predicate GaugesRead(u: BmlNode) {
    && Reads(u, "exceedFeatures", "visible", Some("true"))
    && OverlayReads(u, "idling", "visible", Some("false"))
    && OverlayReads(u, "usable", "visible", Some("false"))
    && OverlayReads(u, "playFull", "visible", Some("false"))
    && Reads(u, "instAccel", "leftTopTex", Some("0 512"))
    && Reads(u, "instAccel", "texture", None)
    && Reads(u, "instAccel", "visible", Some("true"))
    && Reads(u, "instAccelGauge", "visible", Some("true"))
    && Reads(u, "instAccelBar", "visible", Some("true"))
  }

  ghost predicate PanelsRead(u: BmlNode) {
    && Reads(u, "charger", "visible", Some("false"))
    && Reads(u, "charger2", "visible", Some("false"))
    && Reads(u, "kmh2", "visible", Some("false"))
    && Reads(u, "kmh3", "visible", Some("false"))
    && Reads(u, "chargerFeatures", "leftTopWH", Some("0 0 396 74"))
    && Reads(u, "instCharger", "leftTopWH", None)
    && Reads(u, "instCharger", "visible", Some("true"))
  }

  ghost predicate WindowsMade(u: BmlNode) {
    forall p :: First(u, p, "instAccel") || First(u, p, "instCharger") ==> SameText(At(u, p).name, "Window")
  }

  ghost predicate IconReady(u: BmlNode) {
    forall p, a :: First(u, p, "n2o") && First(u, a, "n2o_always") ==>
                     exists k :: 0 <= k < |At(u, p).children| && Called(At(u, p).children[k], "on")
  }

  lemma SettledGauges(u: BmlNode)
    requires forall l :: l in ORDER ==> RowOk(u, l)
    ensures GaugesRead(u)
  {
    hide RowOk, Reads, OverlayReads;
    SettledRow(u, ExceedFeatures);
    RowReads(u, ExceedFeatures, Set("visible", "true"));
    SettledRow(u, Idling);
    OverlayRowReads(u, Idling);
    SettledRow(u, Usable);
    OverlayRowReads(u, Usable);
    SettledRow(u, PlayFull);
    OverlayRowReads(u, PlayFull);
    SettledRow(u, InstAccel);
    RowReads(u, InstAccel, Set("leftTopTex", "0 512"));
    RowReads(u, InstAccel, Remove("texture"));
    RowReads(u, InstAccel, Set("visible", "true"));
    SettledRow(u, InstAccelGauge);
    RowReads(u, InstAccelGauge, Set("visible", "true"));
    SettledRow(u, InstAccelBar);
    RowReads(u, InstAccelBar, Set("visible", "true"));
  }

  lemma SettledPanels(u: BmlNode)
    requires forall l :: l in ORDER ==> RowOk(u, l)
    ensures PanelsRead(u)
  {
    hide RowOk, Reads;
    SettledRow(u, Charger);
    RowReads(u, Charger, Set("visible", "false"));
    SettledRow(u, Charger2);
    RowReads(u, Charger2, Set("visible", "false"));
    SettledRow(u, Kmh2);
    RowReads(u, Kmh2, Set("visible", "false"));
    SettledRow(u, Kmh3);
    RowReads(u, Kmh3, Set("visible", "false"));
    SettledRow(u, ChargerFeatures);
    RowReads(u, ChargerFeatures, Set("leftTopWH", "0 0 396 74"));
    SettledRow(u, InstCharger);
    RowReads(u, InstCharger, Remove("leftTopWH"));
    RowReads(u, InstCharger, Set("visible", "true"));
  }

  lemma SettledRow(u: BmlNode, l: Label)
    requires (forall x :: x in ORDER ==> RowOk(u, x)) && Part(l)
    ensures RowOk(u, l)
  {
    OrderFacts(l);
  }

  lemma SettledWindows(u: BmlNode)
    requires forall l :: l in ORDER ==> RowOk(u, l)
    ensures WindowsMade(u)
  {
    hide RowOk, First, FirstOverlay, Tweaks;
    SettledRow(u, InstAccel);
    SettledRow(u, InstCharger);
    RowWindowed(u, InstAccel);
    RowWindowed(u, InstCharger);
    forall p | First(u, p, "instAccel") || First(u, p, "instCharger")
      ensures Valid(u, p) && SameText(At(u, p).name, "Window")
    {
      LooksUpMeans(u, p);
    }
  }

  lemma SettledIcon(u: BmlNode)
    requires RowOk(u, N2o)
    ensures IconReady(u)
  {
    hide First, FindPath, Called;
    forall p, a | First(u, p, "n2o") && First(u, a, "n2o_always")
      ensures Valid(u, p) && HasOn(At(u, p))
    {
      SpelledIcons();
      FindsFirst(u, N2o, p);
      FindsFirst(u, N2oAlways, a);
    }
  }

  /** Without a harmful loss the migrated tree is in the state the controller expects, node by node. */
  lemma ClientContract(t: BmlNode)
    requires NoHarmfulLoss(t)
    ensures Attribute(Migrated(t), "instAccelFullLenth") == Some("1000")
    ensures GaugesRead(Migrated(t)) && PanelsRead(Migrated(t))
    ensures WindowsMade(Migrated(t)) && IconReady(Migrated(t))
  {
    hide Migrated, RowOk, GaugesRead, PanelsRead, WindowsMade, IconReady;
    MigratedSettled(t);
    SettledGauges(Migrated(t));
    SettledPanels(Migrated(t));
    SettledWindows(Migrated(t));
    SettledRow(Migrated(t), N2o);
    SettledIcon(Migrated(t));
  }

  /** The charger of every migrated tree shows no synthetic slice, and its gauge is named and lit. */
  lemma ChargerContract(t: BmlNode, c: Path, k: nat)
    requires First(Migrated(t), c, "instCharger") && k < |At(Migrated(t), c).children|
    ensures var cs := At(Migrated(t), c).children;
            && !Called(cs[k], "blinkRoad1") && !Called(cs[k], "blinkRoad2") && !Called(cs[k], "blinkRoad3")
            && (GaugeNamed(cs[k]) && (forall j :: 0 <= j < k ==> !GaugeNamed(cs[j])) ==>
                  Attribute(cs[k], "name") == Some("instChargerGauge") && Attribute(cs[k], "visible") == Some("true"))
  {
    hide Migrated, First, FindPath, Called;
    MigratedCharger(t);
    var u := Migrated(t);
    assert FindPath(u, InstCharger) == Some(c) by {
      FindsFirst(u, InstCharger, c);
      assert Spelling(InstCharger) == "instCharger";
    }
    var cs := At(u, c).children;
    SliceSynthetic(cs[k]);
    if GaugeNamed(cs[k]) && forall j :: 0 <= j < k ==> !GaugeNamed(cs[j]) { GaugeIndexAfter(cs, k); }
  }

  // ------------------------------------------------------- a harmful loss

  function Named(l: Label, children: seq<BmlNode>): BmlNode {
    BmlNode("Panel", "", [("name", Spelling(l))], children)
  }

  lemma NamedFacts(l: Label, children: seq<BmlNode>)
    ensures forall x: Label :: NameIs(Named(l, children), x) <==> x == l
    ensures Attribute(Named(l, children), "visible") == None
  {
    var n := Named(l, children);
    assert |Lower("name")| == 4 && |Lower("visible")| == 7;
    assert Attribute(n, "name") == Some(Spelling(l));
    forall x: Label
      ensures NameIs(n, x) <==> x == l
    {
      if NameIs(n, x) { LabelsDistinct(Spelling(l), x, l); }
    }
  }

  lemma SpellingFinal(l: Label)
    requires l == Charger || l == InstCharger || l == ChargerFeatures || l == BlinkRoad1
    ensures Replacement(Spelling(l)) == None
  {
    SpellingSignature(l);
    assert |Lower("xungen_bg1")| == |Lower("xungen_bg2")| == 10;
    assert Lower("xungen_bg1")[0] == Lower("xungen_bg2")[0] == 'x' && Lower("blinkRoad1")[0] == 'b';
    assert |Lower("bg_engineIcon1")| == |Lower("bg_engineIcon2")| == 14;
    assert |Lower("xunLegacyRoad1")| == |Lower("xunLegacyRoad2")| == |Lower("xunLegacyRoad3")| == 14;
  }

  ghost predicate NamedAs(n: BmlNode, l: Label) {
    forall x: Label :: NameIs(n, x) <==> x == l
  }

  ghost predicate Shadowed(t: BmlNode, charger: BmlNode, slice: BmlNode, panel: BmlNode) {
    && NamedAs(t, ChargerFeatures) && t.children == [charger, panel]
    && NamedAs(charger, InstCharger) && charger.children == [slice]
    && NamedAs(slice, BlinkRoad1) && slice.children == [panel]
    && NamedAs(panel, Charger) && panel.children == [] && Attribute(panel, "visible") == None
  }

  lemma FindFirst(n: BmlNode, own: Label, l: Label)
    requires NamedAs(n, own) && l != own && n.children != [] && FindPath(n.children[0], l).Some?
    ensures FindPath(n, l) == Some(Down(0, FindPath(n.children[0], l).value))
  {
  }

  lemma FindSelf(n: BmlNode, l: Label)
    requires NamedAs(n, l)
    ensures FindPath(n, l) == Some(Here)
  {
  }

  lemma ShadowedLost(t: BmlNode, charger: BmlNode, slice: BmlNode, panel: BmlNode)
    requires Shadowed(t, charger, slice, panel)
    ensures FindPath(t, InstCharger) == Some(Down(0, Here)) && Lost(t, Charger)
  {
    FindSelf(panel, Charger);
    FindFirst(slice, BlinkRoad1, Charger);
    FindFirst(charger, InstCharger, Charger);
    FindFirst(t, ChargerFeatures, Charger);
    FindSelf(charger, InstCharger);
    FindFirst(t, ChargerFeatures, InstCharger);
    assert NameIs(slice, BlinkRoad1);
    assert InSlice(charger, Here, Down(0, Down(0, Here)));
  }

  lemma TrimFirst(t: BmlNode)
    requires t.children != [] && FindPath(t, InstCharger) == Some(Down(0, Here))
    ensures Trim(t) == t.(children := t.children[0 := Trimmed(t.children[0])])
  {
    var c, n := Down(0, Here), t.children[0];
    assert At(n, Here) == n && At(t, c) == n;
    assert Put(n, Here, Trimmed(n)) == Trimmed(n);
    assert Trim(t) == TrimAt(t, c) == Put(t, c, Trimmed(n));
  }

  lemma ShadowedTrim(t: BmlNode, charger: BmlNode, slice: BmlNode, panel: BmlNode)
    requires Shadowed(t, charger, slice, panel)
    ensures Trim(t) == t.(children := [charger.(children := []), panel])
  {
    hide Trim;
    ShadowedLost(t, charger, slice, panel);
    TrimFirst(t);
    LoneSlice(slice);
  }

  lemma ShadowedNext(t: BmlNode, charger: BmlNode, slice: BmlNode, panel: BmlNode)
    requires Shadowed(t, charger, slice, panel)
    ensures !RowOk(Trim(t), Charger)
  {
    hide Attribute, FindIn, Trim;
    ShadowedTrim(t, charger, slice, panel);
    var u, bare := Trim(t), charger.(children := []);
    TachometerProof.TopMeets(t, u, Charger);
    TachometerProof.TopMeets(charger, bare, Charger);
    FindNone(bare, Charger);
    FindSelf(panel, Charger);
    FindBelow(u, Charger, 1);
    Unlit(u, Down(1, Here), Charger);
  }

  lemma LoneSlice(slice: BmlNode)
    requires NamedAs(slice, BlinkRoad1)
    ensures Slice(slice) && Keep([slice]) == []
  {
  }

  lemma Unlit(u: BmlNode, q: Path, l: Label)
    requires l == Charger && FindPath(u, l) == Some(q) && Attribute(At(u, q), "visible") == None
    ensures !RowOk(u, l)
  {
    assert Set("visible", "false") in Tweaks(l);
    assert !Holds(At(u, q), Set("visible", "false"));
  }

  lemma NamedFinal(l: Label, children: seq<BmlNode>)
    requires l == Charger || l == InstCharger || l == ChargerFeatures || l == BlinkRoad1
    requires forall k :: 0 <= k < |children| ==> !AnyObsolete(children[k])
    ensures !AnyObsolete(Named(l, children))
  {
    SpellingFinal(l);
    assert Attribute(Named(l, children), "name") == Some(Spelling(l));
    NotObsolete(Named(l, children), Spelling(l));
  }

  /**
   The first `charger` sits inside a removed slice, so the second one is only reached by a second pass:
   on this tree the migration is not idempotent.
   */
  lemma SecondPassCanChange() returns (t: BmlNode, charger: BmlNode, slice: BmlNode, panel: BmlNode)
    ensures Shadowed(t, charger, slice, panel) && Lost(Renamed(t), Charger) && !NoHarmfulLoss(t)
    ensures Migrated(Migrated(t)) != Migrated(t)
  {
    hide Migrated, RowOk, Lost, Trim, Renamed, AnyObsolete;
    t, charger, slice, panel := MakeShadowed();
    RenamedFinal(t);
    ShadowedLost(t, charger, slice, panel);
    ShadowedNext(t, charger, slice, panel);
    OrderFacts(Charger);
    Idempotent(t);
  }

  lemma MakeShadowed() returns (t: BmlNode, charger: BmlNode, slice: BmlNode, panel: BmlNode)
    ensures Shadowed(t, charger, slice, panel) && !AnyObsolete(t)
  {
    hide NameIs, AnyObsolete, Attribute;
    panel := Named(Charger, []);
    slice := Named(BlinkRoad1, [panel]);
    charger := Named(InstCharger, [slice]);
    t := Named(ChargerFeatures, [charger, panel]);
    NamedFacts(Charger, []);
    NamedFacts(BlinkRoad1, [panel]);
    NamedFacts(InstCharger, [slice]);
    NamedFacts(ChargerFeatures, [charger, panel]);
    NamedFinal(Charger, []);
    NamedFinal(BlinkRoad1, [panel]);
    NamedFinal(InstCharger, [slice]);
    NamedFinal(ChargerFeatures, [charger, panel]);
  }
}
