/**
 Migration of an imported XUN tachometer tree, as an ordered list of edits on the first
 node (in preorder) that carries each looked-up name.
 */
module Tachometer {
  import opened Text
  import opened BmlTree

  // ------------------------------------------------------------------ names

  /** Every node name the migration looks up, tests for, or creates. */
  datatype Label =
    | ExceedFeatures | Idling | Usable | PlayFull
    | InstAccel | InstAccelGauge | InstAccelBar
    | Charger | Charger2 | Kmh2 | Kmh3
    | N2o | N2oAlways | On
    | ChargerFeatures | InstCharger
    | BlinkRoad1 | BlinkRoad2 | BlinkRoad3

  function Spelling(l: Label): string {
    match l
    case ExceedFeatures => "exceedFeatures"
    case Idling => "idling"
    case Usable => "usable"
    case PlayFull => "playFull"
    case InstAccel => "instAccel"
    case InstAccelGauge => "instAccelGauge"
    case InstAccelBar => "instAccelBar"
    case Charger => "charger"
    case Charger2 => "charger2"
    case Kmh2 => "kmh2"
    case Kmh3 => "kmh3"
    case N2o => "n2o"
    case N2oAlways => "n2o_always"
    case On => "on"
    case ChargerFeatures => "chargerFeatures"
    case InstCharger => "instCharger"
    case BlinkRoad1 => "blinkRoad1"
    case BlinkRoad2 => "blinkRoad2"
    case BlinkRoad3 => "blinkRoad3"
  }

  const GAUGE := "instChargerGauge"
  const XUN_GAUGE := "xunInstChargerGauge"

  function LabelSignature(l: Label): (nat, char, char) {
    match l
    case ExceedFeatures => (14, 'e', 's')
    case Idling => (6, 'i', 'g')
    case Usable => (6, 'u', 'e')
    case PlayFull => (8, 'p', 'l')
    case InstAccel => (9, 'i', 'l')
    case InstAccelGauge => (14, 'i', 'e')
    case InstAccelBar => (12, 'i', 'r')
    case Charger => (7, 'c', 'r')
    case Charger2 => (8, 'c', '2')
    case Kmh2 => (4, 'k', '2')
    case Kmh3 => (4, 'k', '3')
    case N2o => (3, 'n', 'o')
    case N2oAlways => (10, 'n', 's')
    case On => (2, 'o', 'n')
    case ChargerFeatures => (15, 'c', 's')
    case InstCharger => (11, 'i', 'r')
    case BlinkRoad1 => (10, 'b', '1')
    case BlinkRoad2 => (10, 'b', '2')
    case BlinkRoad3 => (10, 'b', '3')
  }

  lemma SpellingSignature(l: Label)
    ensures Signature(Spelling(l)) == LabelSignature(l)
  {
  }

  lemma SignatureTells(a: Label, b: Label)
    ensures LabelSignature(a) == LabelSignature(b) ==> a == b
  {
  }

  /** No node can carry two of the names at once. */
  lemma LabelsDistinct(s: string, a: Label, b: Label)
    requires SameText(s, Spelling(a)) && SameText(s, Spelling(b))
    ensures a == b
  {
    hide Spelling, Signature, LabelSignature, SameText;
    SignatureTells(a, b);
    SameTextSignature(s, Spelling(a));
    SameTextSignature(s, Spelling(b));
    SpellingSignature(a);
    SpellingSignature(b);
  }

  /** The node carries the name, in any case. */
  predicate Called(n: BmlNode, text: string) {
    var name := Attribute(n, "name");
    name.Some? && SameText(name.value, text)
  }

  predicate NameIs(n: BmlNode, l: Label) {
    Called(n, Spelling(l))
  }

  predicate Slice(n: BmlNode) {
    NameIs(n, BlinkRoad1) || NameIs(n, BlinkRoad2) || NameIs(n, BlinkRoad3)
  }

  predicate IsGauge(n: BmlNode) {
    Called(n, GAUGE) || Called(n, XUN_GAUGE)
  }

  // ---------------------------------------------------------------- lookups

  /** Preorder position of the first node that carries the name. */
  function FindPath(t: BmlNode, l: Label): (r: Option<Path>)
    ensures r.Some? ==> Valid(t, r.value) && NameIs(At(t, r.value), l)
    decreases t
  {
    if NameIs(t, l) then Some(Here) else FindIn(t.children, l)
  }

  function FindIn(cs: seq<BmlNode>, l: Label): (r: Option<Path>)
    ensures r.Some? ==>
              && r.value.Down? && r.value.k < |cs|
              && Valid(cs[r.value.k], r.value.rest)
              && NameIs(At(cs[r.value.k], r.value.rest), l)
    decreases cs
  {
    if cs == [] then None
    else
      var head := FindPath(cs[0], l);
      if head.Some? then Some(Down(0, head.value))
      else
        var later := FindIn(cs[1..], l);
        if later.None? then None else Some(Down(later.value.k + 1, later.value.rest))
  }

  /** The search stops at the first child that holds the name. */
  lemma {:induction false} FindInFirst(cs: seq<BmlNode>, l: Label)
    ensures var r := FindIn(cs, l);
            if r.None? then forall k :: 0 <= k < |cs| ==> FindPath(cs[k], l) == None
            else
              && FindPath(cs[r.value.k], l) == Some(r.value.rest)
              && forall k :: 0 <= k < r.value.k ==> FindPath(cs[k], l) == None
  {
    hide NameIs;
    if cs != [] {
      var head, later := FindPath(cs[0], l), FindIn(cs[1..], l);
      FindInFirst(cs[1..], l);
      if head.None? && later.Some? {
        var r := FindIn(cs, l);
        assert r == Some(Down(later.value.k + 1, later.value.rest));
        assert cs[r.value.k] == cs[1..][later.value.k];
        forall k | 0 <= k < r.value.k
          ensures FindPath(cs[k], l) == None
        {
          if k > 0 { assert cs[k] == cs[1..][k - 1]; }
        }
      }
    }
  }

  /** `idling`, `usable` and `playFull` are looked up below the first `exceedFeatures` only. */
  predicate Overlay(l: Label) {
    l == Idling || l == Usable || l == PlayFull
  }

  function LookupPath(t: BmlNode, l: Label): (r: Option<Path>)
    ensures r.Some? ==> Valid(t, r.value) && NameIs(At(t, r.value), l)
  {
    if Overlay(l) then
      var parent := FindPath(t, ExceedFeatures);
      if parent.None? then None
      else
        var below := FindPath(At(t, parent.value), l);
        if below.None? then None
        else
          ValidAppend(t, parent.value, below.value);
          Some(Append(parent.value, below.value))
    else FindPath(t, l)
  }

  // ----------------------------------------------------------------- edits

  datatype Tweak = Set(key: string, text: string) | Remove(key: string) | RetagWindow

  function Tweaks(l: Label): seq<Tweak> {
    match l
    case ExceedFeatures => [Set("visible", "true")]
    case Idling => [Set("visible", "false")]
    case Usable => [Set("visible", "false")]
    case PlayFull => [Set("visible", "false")]
    case InstAccel => [RetagWindow, Set("leftTopTex", "0 512"), Remove("texture"), Set("visible", "true")]
    case InstAccelGauge => [Set("visible", "true")]
    case InstAccelBar => [Set("visible", "true")]
    case Charger => [Set("visible", "false")]
    case Charger2 => [Set("visible", "false")]
    case Kmh2 => [Set("visible", "false")]
    case Kmh3 => [Set("visible", "false")]
    case ChargerFeatures => [Set("leftTopWH", "0 0 396 74")]
    case InstCharger => [RetagWindow, Remove("leftTopWH"), Set("visible", "true")]
    case _ => []
  }

  predicate Holds(n: BmlNode, tweak: Tweak) {
    match tweak
    case Set(key, text) => Attribute(n, key) == Some(text)
    case Remove(key) => Attribute(n, key) == None
    case RetagWindow => SameText(n.name, "Window")
  }

  function ApplyTweak(n: BmlNode, tweak: Tweak): BmlNode {
    match tweak
    case Set(key, text) => SetAttribute(n, key, text)
    case Remove(key) => RemoveAttribute(n, key)
    case RetagWindow => if SameText(n.name, "Window") then n else n.(name := "Window")
  }

  function ApplyTweaks(n: BmlNode, tweaks: seq<Tweak>): BmlNode
    decreases tweaks
  {
    if tweaks == [] then n else ApplyTweaks(ApplyTweak(n, tweaks[0]), tweaks[1..])
  }

  predicate HasOn(n: BmlNode) {
    exists k :: 0 <= k < |n.children| && NameIs(n.children[k], On)
  }

  /** What the controller needs of the node that carries the name. */
  predicate Meets(n: BmlNode, l: Label) {
    if l == N2o then HasOn(n) else forall tweak :: tweak in Tweaks(l) ==> Holds(n, tweak)
  }

  function ActiveIcon(template: BmlNode): BmlNode {
    var n := SetAttribute(template, "name", "on");
    var n := SetAttribute(n, "leftTopTex", "0 0");
    var n := SetAttribute(n, "visible", "false");
    var n := RemoveAttribute(n, "windowSize");
    var n := RemoveAttribute(n, "adjust");
    var n := RemoveAttribute(n, "align");
    n.(children := [])
  }

  function Push(n: BmlNode, child: BmlNode): BmlNode {
    n.(children := n.children + [child])
  }

  /** One lookup and its edits. */
  function Step(t: BmlNode, l: Label): BmlNode {
    var at := LookupPath(t, l);
    if at.None? then t
    else if l == N2o then
      var template := FindPath(t, N2oAlways);
      if template.None? || HasOn(At(t, at.value)) then t
      else Put(t, at.value, Push(At(t, at.value), ActiveIcon(At(t, template.value))))
    else Put(t, at.value, ApplyTweaks(At(t, at.value), Tweaks(l)))
  }

  function Steps(t: BmlNode, ls: seq<Label>): BmlNode
    decreases ls
  {
    if ls == [] then t else Steps(Step(t, ls[0]), ls[1..])
  }

  const ORDER: seq<Label> := [
    ExceedFeatures, Idling, Usable, PlayFull, InstAccel, InstAccelGauge, InstAccelBar,
    Charger, Charger2, Kmh2, Kmh3, N2o, ChargerFeatures, InstCharger]

  predicate RowOk(t: BmlNode, l: Label) {
    var at := LookupPath(t, l);
    at.Some? ==> Meets(At(t, at.value), l) || (l == N2o && FindPath(t, N2oAlways).None?)
  }

  // --------------------------------------------------- the charger's children

  function Keep(cs: seq<BmlNode>): (r: seq<BmlNode>)
    ensures forall n :: n in r ==> !Slice(n) && n in cs
    ensures |r| <= |cs|
  {
    if cs == [] then []
    else if Slice(cs[0]) then Keep(cs[1..])
    else [cs[0]] + Keep(cs[1..])
  }

  function Trimmed(n: BmlNode): BmlNode {
    n.(children := Keep(n.children))
  }

  function TrimAt(t: BmlNode, c: Path): BmlNode
    requires Valid(t, c)
  {
    Put(t, c, Trimmed(At(t, c)))
  }

  function Trim(t: BmlNode): BmlNode {
    var c := FindPath(t, InstCharger);
    if c.None? then t else TrimAt(t, c.value)
  }

  function GaugeIndex(cs: seq<BmlNode>): (i: nat)
    ensures i <= |cs|
    ensures i < |cs| ==> IsGauge(cs[i])
    ensures forall j :: 0 <= j < i ==> !IsGauge(cs[j])
  {
    if cs == [] || IsGauge(cs[0]) then 0 else 1 + GaugeIndex(cs[1..])
  }

  function DressGauge(n: BmlNode): BmlNode {
    SetAttribute(SetAttribute(n, "name", GAUGE), "visible", "true")
  }

  function Gauged(n: BmlNode): BmlNode {
    var i := GaugeIndex(n.children);
    if i == |n.children| then n else n.(children := n.children[i := DressGauge(n.children[i])])
  }

  function Gauge(t: BmlNode): BmlNode {
    var c := FindPath(t, InstCharger);
    if c.None? then t else Put(t, c.value, Gauged(At(t, c.value)))
  }

  predicate SliceFree(n: BmlNode) {
    forall k :: 0 <= k < |n.children| ==> !Slice(n.children[k])
  }

  predicate ChargerNodeOk(n: BmlNode) {
    && SliceFree(n)
    && var i := GaugeIndex(n.children);
       i < |n.children| ==>
         && Attribute(n.children[i], "name") == Some(GAUGE)
         && Attribute(n.children[i], "visible") == Some("true")
  }

  predicate ChargerOk(t: BmlNode) {
    var c := FindPath(t, InstCharger);
    c.Some? ==> ChargerNodeOk(At(t, c.value))
  }

  // ---------------------------------------------------------------- renames

  function Replacement(name: string): Option<string> {
    if SameText(name, "xungen_bg1") then Some("v1gen_bg1")
    else if SameText(name, "xungen_bg2") then Some("v1gen_bg2")
    else if SameText(name, "bg_engineIcon1") then Some("n2o")
    else if SameText(name, "bg_engineIcon2") then Some("n2o_always")
    else if SameText(name, "xunLegacyRoad1") then Some("blinkRoad1")
    else if SameText(name, "xunLegacyRoad2") then Some("blinkRoad2")
    else if SameText(name, "xunLegacyRoad3") then Some("blinkRoad3")
    else None
  }

  predicate Obsolete(n: BmlNode) {
    var name := Attribute(n, "name");
    name.Some? && Replacement(name.value).Some?
  }

  function RenameTop(n: BmlNode): BmlNode {
    if Obsolete(n) then SetAttribute(n, "name", Replacement(Attribute(n, "name").value).value) else n
  }

  function Renamed(t: BmlNode): BmlNode {
    RenameTop(t).(children := RenamedAll(t.children))
  }

  function RenamedAll(cs: seq<BmlNode>): (r: seq<BmlNode>)
    ensures |r| == |cs| && forall k :: 0 <= k < |cs| ==> r[k] == Renamed(cs[k])
  {
    if cs == [] then [] else [Renamed(cs[0])] + RenamedAll(cs[1..])
  }

  predicate AnyObsolete(t: BmlNode) {
    Obsolete(t) || exists k :: 0 <= k < |t.children| && AnyObsolete(t.children[k])
  }

  // -------------------------------------------------------------- the whole

  const ROOT_KEY := "instAccelFullLenth"

  function Rooted(t: BmlNode): BmlNode {
    SetAttribute(t, ROOT_KEY, "1000")
  }

  function Migrated(t: BmlNode): BmlNode {
    Gauge(Trim(Steps(Rooted(Renamed(t)), ORDER)))
  }

  /** A tree on which every step of the migration finds nothing to do. */
  predicate Settled(t: BmlNode) {
    && !AnyObsolete(t)
    && Attribute(t, ROOT_KEY) == Some("1000")
    && (forall l :: l in ORDER ==> RowOk(t, l))
    && ChargerOk(t)
  }

  /** The node at `q` lies in a slice that is cut from the charger at `c`. */
  predicate InSlice(t: BmlNode, c: Path, q: Path)
    requires Valid(t, c) && Valid(t, q)
  {
    q.Down? &&
    if c.Here? then Slice(t.children[q.k])
    else c.k == q.k && InSlice(t.children[c.k], c.rest, q.rest)
  }

  /** The node the row looks up, or the parent it is looked up in, is cut away together with a slice. */
  predicate Lost(t: BmlNode, l: Label) {
    var c := FindPath(t, InstCharger);
    var parent := FindPath(t, ExceedFeatures);
    var q := LookupPath(t, l);
    && c.Some?
    && ((Overlay(l) && parent.Some? && InSlice(t, c.value, parent.value))
        || (q.Some? && InSlice(t, c.value, q.value)))
  }
}
