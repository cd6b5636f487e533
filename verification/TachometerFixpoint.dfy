/** Which trees the migration leaves alone, and exactly when its own output is one of them. */
module TachometerFixpoint {
  import opened Text
  import opened BmlTree
  import opened Tachometer
  import opened TachometerProof

  // ---------------------------------------------------- cutting the slices

  predicate SliceLabel(x: Label) {
    x == BlinkRoad1 || x == BlinkRoad2 || x == BlinkRoad3
  }

  lemma {:induction false} KeepAppend(cs: seq<BmlNode>, ds: seq<BmlNode>)
    ensures Keep(cs + ds) == Keep(cs) + Keep(ds)
  {
    if cs == [] {
      assert cs + ds == ds;
    } else {
      assert (cs + ds)[1..] == cs[1..] + ds;
      KeepAppend(cs[1..], ds);
    }
  }

  /** A kept child comes after nothing but children it already came after. */
  lemma KeepSlot(cs: seq<BmlNode>, k: nat) returns (j: nat)
    requires k < |cs| && !Slice(cs[k])
    ensures j < |Keep(cs)| && Keep(cs)[j] == cs[k]
    ensures forall i :: 0 <= i < j ==> Keep(cs)[i] in cs[..k]
  {
    assert cs == cs[..k] + cs[k..];
    KeepAppend(cs[..k], cs[k..]);
    j := |Keep(cs[..k])|;
    forall i | 0 <= i < j
      ensures Keep(cs)[i] in cs[..k]
    {
      assert Keep(cs)[i] == Keep(cs[..k])[i];
    }
  }

  lemma FindHere(t: BmlNode, x: Label)
    requires NameIs(t, x)
    ensures FindPath(t, x) == Some(Here)
  {
  }

  lemma FindNone(t: BmlNode, x: Label)
    requires !NameIs(t, x) && forall k :: 0 <= k < |t.children| ==> FindPath(t.children[k], x) == None
    ensures FindPath(t, x) == None
  {
    hide NameIs;
    FindInFirst(t.children, x);
  }

  lemma FindNoneBelow(t: BmlNode, x: Label)
    requires FindPath(t, x) == None
    ensures !NameIs(t, x) && forall k :: 0 <= k < |t.children| ==> FindPath(t.children[k], x) == None
  {
    hide NameIs;
    FindInFirst(t.children, x);
  }

  lemma FindBelow(t: BmlNode, x: Label, k: nat)
    requires !NameIs(t, x) && k < |t.children| && FindPath(t.children[k], x).Some?
    requires forall i :: 0 <= i < k ==> FindPath(t.children[i], x) == None
    ensures FindPath(t, x) == Some(Down(k, FindPath(t.children[k], x).value))
  {
    hide NameIs;
    FindInFirst(t.children, x);
  }

  lemma FoundBelow(t: BmlNode, x: Label)
    requires !NameIs(t, x) && FindPath(t, x).Some?
    ensures var q := FindPath(t, x).value;
            && q.Down? && q.k < |t.children|
            && FindPath(t.children[q.k], x) == Some(q.rest)
            && forall i :: 0 <= i < q.k ==> FindPath(t.children[i], x) == None
  {
    hide NameIs;
    FindInFirst(t.children, x);
  }

  lemma {:induction false} TrimNone(t: BmlNode, c: Path, x: Label)
    requires Valid(t, c) && FindPath(t, x) == None
    ensures FindPath(TrimAt(t, c), x) == None
    decreases c
  {
    hide NameIs;
    var u := TrimAt(t, c);
    TopMeets(t, u, x);
    FindNoneBelow(t, x);
    forall k | 0 <= k < |u.children|
      ensures FindPath(u.children[k], x) == None
    {
      if c.Here? {
        assert u.children[k] in Keep(t.children);
      } else if k == c.k {
        TrimNone(t.children[k], c.rest, x);
      } else {
        assert u.children[k] == t.children[k];
      }
    }
    FindNone(u, x);
  }

  /** What is left of `c` below `q`, when `q` is at or above it. */
  function Beyond(q: Path, c: Path): (r: Option<Path>)
    ensures r.Some? ==> c == Append(q, r.value)
  {
    if q.Here? then Some(c)
    else if c.Down? && c.k == q.k then Beyond(q.rest, c.rest)
    else None
  }

  /** The node found at `q` before the trim at `c`, and at `q'` after it. */
  ghost predicate Survives(t: BmlNode, c: Path, q: Path, q': Path)
    requires Valid(t, c) && Valid(t, q)
  {
    var u, r := TrimAt(t, c), Beyond(q, c);
    Valid(u, q') &&
    if r.Some? then q' == q && Valid(At(t, q), r.value) && At(u, q') == TrimAt(At(t, q), r.value)
    else At(u, q') == At(t, q)
  }

  /** A node that is not cut away is still the first with its name; only its subtree may be trimmed. */
  lemma {:induction false} TrimFind(t: BmlNode, c: Path, x: Label) returns (q': Path)
    requires Valid(t, c) && FindPath(t, x).Some?
    requires !InSlice(t, c, FindPath(t, x).value)
    ensures FindPath(TrimAt(t, c), x) == Some(q')
    ensures Survives(t, c, FindPath(t, x).value, q')
    decreases c
  {
    hide NameIs, Slice, FindPath, FindIn;
    var u, q := TrimAt(t, c), FindPath(t, x).value;
    TopMeets(t, u, x);
    if NameIs(t, x) {
      FindHere(t, x);
      FindHere(u, x);
      q' := Here;
    } else if c.Here? {
      q' := TrimFindChild(t, x);
    } else {
      FoundBelow(t, x);
      if c.k == q.k {
        var below := TrimFind(t.children[q.k], c.rest, x);
        TrimFindInside(t, c, x, below);
        q' := Down(q.k, below);
      } else {
        TrimFindBeside(t, c, x);
        q' := q;
      }
    }
  }

  lemma TrimFindInside(t: BmlNode, c: Path, x: Label, below: Path)
    requires Valid(t, c) && c.Down? && !NameIs(t, x) && FindPath(t, x).Some?
    requires var q := FindPath(t, x).value;
             && q.Down? && c.k == q.k < |t.children|
             && Valid(t.children[c.k], c.rest) && Valid(t.children[c.k], q.rest)
             && FindPath(TrimAt(t.children[c.k], c.rest), x) == Some(below)
             && Survives(t.children[c.k], c.rest, q.rest, below)
             && forall k :: 0 <= k < c.k ==> FindPath(t.children[k], x) == None
    ensures FindPath(TrimAt(t, c), x) == Some(Down(c.k, below))
    ensures Survives(t, c, FindPath(t, x).value, Down(c.k, below))
  {
    hide NameIs, Slice, FindPath, FindIn;
    var u := TrimAt(t, c);
    TopMeets(t, u, x);
    FindBelow(u, x, c.k);
  }

  lemma TrimFindBeside(t: BmlNode, c: Path, x: Label)
    requires Valid(t, c) && c.Down? && !NameIs(t, x) && FindPath(t, x).Some?
    requires FindPath(t, x).value.Down? && c.k != FindPath(t, x).value.k
    ensures FindPath(TrimAt(t, c), x) == FindPath(t, x)
    ensures Survives(t, c, FindPath(t, x).value, FindPath(t, x).value)
  {
    hide NameIs, FindPath, FindIn;
    var u, q := TrimAt(t, c), FindPath(t, x).value;
    FoundBelow(t, x);
    TopMeets(t, u, x);
    if c.k < q.k { TrimNone(t.children[c.k], c.rest, x); }
    FindBelow(u, x, q.k);
  }

  lemma TrimFindChild(t: BmlNode, x: Label) returns (q': Path)
    requires !NameIs(t, x) && FindPath(t, x).Some?
    requires !InSlice(t, Here, FindPath(t, x).value)
    ensures FindPath(TrimAt(t, Here), x) == Some(q')
    ensures Survives(t, Here, FindPath(t, x).value, q')
  {
    hide NameIs;
    var u, q := TrimAt(t, Here), FindPath(t, x).value;
    TopMeets(t, u, x);
    FoundBelow(t, x);
    var j := KeepSlot(t.children, q.k);
    forall i | 0 <= i < j
      ensures FindPath(u.children[i], x) == None
    {
      assert u.children[i] in t.children[..q.k];
    }
    FindBelow(u, x, j);
    q' := Down(j, q.rest);
  }

  lemma KeepUpdate(cs: seq<BmlNode>, k: nat, n: BmlNode)
    requires k < |cs| && Slice(cs[k]) && Slice(n)
    ensures Keep(cs[k := n]) == Keep(cs)
    decreases k
  {
    hide NameIs;
    if k == 0 {
      assert cs[k := n][1..] == cs[1..];
    } else {
      KeepUpdate(cs[1..], k - 1, n);
      assert cs[k := n][1..] == cs[1..][k - 1 := n];
    }
  }

  /** An edit inside a slice disappears with the slice. */
  lemma {:induction false} TrimPutInSlice(t: BmlNode, c: Path, q: Path, n: BmlNode)
    requires Valid(t, c) && Valid(t, q) && InSlice(t, c, q) && SameLabels(At(t, q), n)
    ensures Valid(Put(t, q, n), c) && TrimAt(Put(t, q, n), c) == TrimAt(t, c)
    decreases c
  {
    if c.Here? {
      PutLabels(t.children[q.k], q.rest, n);
      KeepUpdate(t.children, q.k, Put(t.children[q.k], q.rest, n));
    } else {
      TrimPutInSlice(t.children[c.k], c.rest, q.rest, n);
    }
  }

  lemma {:induction false} InSliceAppend(t: BmlNode, c: Path, p: Path, r: Path)
    requires Valid(t, c) && Valid(t, p) && Valid(t, Append(p, r))
    requires InSlice(t, c, p)
    ensures InSlice(t, c, Append(p, r))
    decreases c
  {
    if c.Down? { InSliceAppend(t.children[c.k], c.rest, p.rest, r); }
  }

  lemma {:induction false} NotInOwnSlice(t: BmlNode, c: Path)
    requires Valid(t, c)
    ensures !InSlice(t, c, c) && Beyond(c, c) == Some(Here)
    decreases c
  {
    if c.Down? { NotInOwnSlice(t.children[c.k], c.rest); }
  }

  // -------------------------------------------- a row that survives the cut

  lemma TrimMeets(n: BmlNode, r: Path, l: Label)
    requires Valid(n, r) && (r.Here? ==> l != N2o)
    ensures Meets(TrimAt(n, r), l) == Meets(n, l)
  {
    TopMeets(At(n, r), Trimmed(At(n, r)), l);
    if r.Down? { PutMeets(n, r, Trimmed(At(n, r)), l); }
  }

  lemma AppendHere(q: Path)
    ensures Append(q, Here) == q
  {
  }

  lemma FoundMeets(t: BmlNode, c: Path, l: Label) returns (q': Path)
    requires Valid(t, c) && NameIs(At(t, c), InstCharger) && FindPath(t, l).Some?
    requires !InSlice(t, c, FindPath(t, l).value)
    ensures FindPath(TrimAt(t, c), l) == Some(q')
    ensures Meets(At(TrimAt(t, c), q'), l) == Meets(At(t, FindPath(t, l).value), l)
  {
    q' := TrimFind(t, c, l);
    var q := FindPath(t, l).value;
    var r := Beyond(q, c);
    if r.Some? {
      if r.value.Here? {
        AppendHere(q);
        if l == N2o { NotBoth(At(t, c), l, InstCharger); }
      }
      TrimMeets(At(t, q), r.value, l);
    }
  }

  /** A row in order stays in order when the charger loses its slices, unless its node is lost. */
  lemma TrimKeepsRow(t: BmlNode, l: Label)
    requires RowOk(t, l) && !Lost(t, l)
    ensures RowOk(Trim(t), l)
  {
    hide NameIs, Meets, Slice;
    var at := FindPath(t, InstCharger);
    if at.Some? {
      var c := at.value;
      if FindPath(t, N2oAlways) == None { TrimNone(t, c, N2oAlways); }
      if Overlay(l) {
        OverlayKeepsRow(t, c, l);
      } else if FindPath(t, l).Some? {
        var q := FoundMeets(t, c, l);
      } else {
        TrimNone(t, c, l);
      }
    }
  }

  lemma OverlayRow(t: BmlNode, p: Path, l: Label)
    requires Overlay(l) && FindPath(t, ExceedFeatures) == Some(p)
    ensures RowOk(t, l) <==> var q := FindPath(At(t, p), l); (q.Some? ==> Meets(At(At(t, p), q.value), l))
  {
    hide NameIs, Meets;
    var q := FindPath(At(t, p), l);
    if q.Some? { ValidAppend(t, p, q.value); }
  }

  lemma OverlayKeepsRow(t: BmlNode, c: Path, l: Label)
    requires Overlay(l) && FindPath(t, InstCharger) == Some(c) && RowOk(t, l) && !Lost(t, l)
    ensures RowOk(TrimAt(t, c), l)
  {
    hide NameIs, Meets, Slice;
    var parent := FindPath(t, ExceedFeatures);
    if parent.None? {
      TrimNone(t, c, ExceedFeatures);
    } else {
      var p := parent.value;
      var p' := TrimFind(t, c, ExceedFeatures);
      OverlayRow(t, p, l);
      OverlayRow(TrimAt(t, c), p', l);
      var below := FindPath(At(t, p), l);
      if below.Some? { ValidAppend(t, p, below.value); }
      var r := Beyond(p, c);
      if r.Some? { OverlayInside(t, p, r.value, l); }
    }
  }

  lemma OverlayInside(t: BmlNode, p: Path, r: Path, l: Label)
    requires Valid(t, p) && Valid(At(t, p), r) && Valid(t, Append(p, r)) && NameIs(At(t, Append(p, r)), InstCharger)
    requires var q := FindPath(At(t, p), l);
             q.Some? ==> Meets(At(At(t, p), q.value), l)
                         && Valid(t, Append(p, q.value)) && !InSlice(t, Append(p, r), Append(p, q.value))
    ensures var q := FindPath(TrimAt(At(t, p), r), l);
            q.Some? ==> Meets(At(TrimAt(At(t, p), r), q.value), l)
  {
    var n := At(t, p);
    ValidAppend(t, p, r);
    var below := FindPath(n, l);
    if below.None? {
      TrimNone(n, r, l);
    } else {
      if InSlice(n, r, below.value) { InSlicePrepend(t, p, r, below.value); }
      var q := FoundMeets(n, r, l);
    }
  }

  lemma {:induction false} InSlicePrepend(t: BmlNode, p: Path, r: Path, q: Path)
    requires Valid(t, p) && Valid(At(t, p), r) && Valid(At(t, p), q)
    requires Valid(t, Append(p, r)) && Valid(t, Append(p, q))
    requires InSlice(At(t, p), r, q)
    ensures InSlice(t, Append(p, r), Append(p, q))
    decreases p
  {
    if p.Down? { InSlicePrepend(t.children[p.k], p.rest, r, q); }
  }

  // ----------------------------------------------------- a row's own step

  predicate Part(l: Label) {
    l != On && l != N2oAlways && !SliceLabel(l)
  }

  function Another(l: Label): Label {
    if l == Kmh2 then Kmh3 else Kmh2
  }

  lemma StepPuts(t: BmlNode, l: Label)
    requires LookupPath(t, l).Some?
    ensures var q := LookupPath(t, l).value;
            exists n :: Step(t, l) == Put(t, q, n) && SameLabels(At(t, q), n)
                     && (Meets(n, l) || (l == N2o && FindPath(t, N2oAlways).None?))
  {
    var q := LookupPath(t, l).value;
    var n := At(t, q);
    if l == N2o {
      var template := FindPath(t, N2oAlways);
      PutAt(t, q, n);
      if template.Some? && !HasOn(n) {
        var icon := ActiveIcon(At(t, template.value));
        ActiveIconIsLeaf(At(t, template.value));
        var m := Push(n, icon);
        TopMeets(n, m, l);
        assert m.children[|n.children|] == icon;
        assert HasOn(m);
        assert Step(t, l) == Put(t, q, m);
      } else {
        assert Step(t, l) == Put(t, q, n);
      }
    } else {
      Dressed(n, l);
      assert Step(t, l) == Put(t, q, ApplyTweaks(n, Tweaks(l)));
    }
  }

  lemma StepLookups(t: BmlNode, l: Label, x: Label)
    requires x != On
    ensures FindPath(Step(t, l), x) == FindPath(t, x)
    ensures LookupPath(Step(t, l), x) == LookupPath(t, x)
    ensures Lost(Step(t, l), x) == Lost(t, x)
  {
    var o := Another(l);
    StepAlike(t, l, o);
    AlikeFind(t, Step(t, l), o, x);
    AlikeLookup(t, Step(t, l), o, x);
    AlikeLost(t, Step(t, l), o, x);
  }

  /** After its own step a row is in order. */
  lemma StepOwn(t: BmlNode, l: Label)
    requires Part(l)
    ensures RowOk(Step(t, l), l)
  {
    StepLookups(t, l, l);
    StepLookups(t, l, N2oAlways);
    var at := LookupPath(t, l);
    if at.Some? {
      StepPuts(t, l);
      var n :| Step(t, l) == Put(t, at.value, n) && SameLabels(At(t, at.value), n)
               && (Meets(n, l) || (l == N2o && FindPath(t, N2oAlways).None?));
      PutAt(t, at.value, n);
    }
  }

  lemma LostPath(t: BmlNode, l: Label)
    requires Lost(t, l) && LookupPath(t, l).Some?
    ensures InSlice(t, FindPath(t, InstCharger).value, LookupPath(t, l).value)
  {
    var c := FindPath(t, InstCharger).value;
    var parent := FindPath(t, ExceedFeatures);
    if Overlay(l) && InSlice(t, c, parent.value) {
      var below := FindPath(At(t, parent.value), l).value;
      ValidAppend(t, parent.value, below);
      InSliceAppend(t, c, parent.value, below);
    }
  }

  /** The step of a lost row leaves no trace after the cut. */
  lemma StepLost(t: BmlNode, l: Label)
    requires Part(l) && Lost(t, l)
    ensures Trim(Step(t, l)) == Trim(t)
  {
    var at := LookupPath(t, l);
    if at.Some? {
      var c := FindPath(t, InstCharger).value;
      StepLookups(t, l, InstCharger);
      LostPath(t, l);
      StepPuts(t, l);
      var n :| Step(t, l) == Put(t, at.value, n) && SameLabels(At(t, at.value), n)
               && (Meets(n, l) || (l == N2o && FindPath(t, N2oAlways).None?));
      TrimPutInSlice(t, c, at.value, n);
    }
  }

  lemma StepOther(t: BmlNode, x: Label, l: Label)
    requires x != l && Part(l)
    ensures RowOk(Step(t, x), l) == RowOk(t, l)
    ensures RowOk(Trim(Step(t, x)), l) == RowOk(Trim(t), l)
    ensures Lost(Step(t, x), l) == Lost(t, l)
  {
    var u := Step(t, x);
    StepAlike(t, x, l);
    AlikeRow(t, u, l);
    AlikeLost(t, u, l, l);
    TrimAlike(t, u, l);
    AlikeRow(Trim(t), Trim(u), l);
  }

  lemma {:induction false} StepsOther(t: BmlNode, ls: seq<Label>, l: Label)
    requires l !in ls && Part(l)
    ensures RowOk(Steps(t, ls), l) == RowOk(t, l)
    ensures RowOk(Trim(Steps(t, ls)), l) == RowOk(Trim(t), l)
    ensures Lost(Steps(t, ls), l) == Lost(t, l)
    decreases ls
  {
    if ls != [] {
      StepOther(t, ls[0], l);
      StepsOther(Step(t, ls[0]), ls[1..], l);
    }
  }

  predicate Distinct(ls: seq<Label>) {
    forall i, j :: 0 <= i < j < |ls| ==> ls[i] != ls[j]
  }

  /** A row that is run is in order after the cut, unless its node was lost and the next one is not in order. */
  lemma {:induction false} RowAfterCut(t: BmlNode, ls: seq<Label>, l: Label)
    requires l in ls && Distinct(ls) && Part(l)
    ensures RowOk(Trim(Steps(t, ls)), l) <==> (Lost(t, l) ==> RowOk(Trim(t), l))
    decreases ls
  {
    if ls[0] == l {
      var u := Step(t, l);
      StepsOther(u, ls[1..], l);
      if Lost(t, l) {
        StepLost(t, l);
      } else {
        StepOwn(t, l);
        StepLookups(t, l, l);
        TrimKeepsRow(u, l);
      }
    } else {
      StepOther(t, ls[0], l);
      RowAfterCut(Step(t, ls[0]), ls[1..], l);
    }
  }

  // -------------------------------------------------------------- the gauge

  lemma GaugeHasNoLabel(name: string, x: Label)
    requires SameText(name, GAUGE) || SameText(name, XUN_GAUGE)
    ensures !SameText(name, Spelling(x))
  {
  }

  lemma DressGaugeFacts(n: BmlNode)
    ensures var m := DressGauge(n);
            && Attribute(m, "name") == Some(GAUGE) && Attribute(m, "visible") == Some("true")
            && m.children == n.children
            && (Attribute(n, "name") == Some(GAUGE) && Attribute(n, "visible") == Some("true") ==> m == n)
  {
    assert |Lower("name")| == 4 && |Lower("visible")| == 7;
    var a := Assign(n.attributes, "name", GAUGE);
    AssignLookup(n.attributes, "name", GAUGE, "name");
    AssignLookup(n.attributes, "name", GAUGE, "visible");
    AssignLookup(a, "visible", "true", "name");
    AssignLookup(a, "visible", "true", "visible");
    AssignSame(n.attributes, "name", GAUGE);
    AssignSame(a, "visible", "true");
  }

  lemma DressGaugeAlike(n: BmlNode, l: Label)
    requires IsGauge(n)
    ensures Alike(n, DressGauge(n), l)
  {
    var m := DressGauge(n);
    DressGaugeFacts(n);
    assert SameText(GAUGE, GAUGE);
    forall x: Label
      ensures !NameIs(n, x) && !NameIs(m, x)
    {
      GaugeHasNoLabel(Attribute(n, "name").value, x);
      GaugeHasNoLabel(GAUGE, x);
    }
    SameChildrenAlike(n, m, l);
  }

  lemma GaugedAlike(n: BmlNode, l: Label)
    requires NameIs(n, InstCharger)
    ensures Alike(n, Gauged(n), l)
  {
    var m := Gauged(n);
    TopMeets(n, m, l);
    if NameIs(n, l) { NotBoth(n, l, InstCharger); }
    forall k | 0 <= k < |n.children|
      ensures Alike(n.children[k], m.children[k], l)
    {
      AlikeRefl(n.children[k], l);
      if k == GaugeIndex(n.children) { DressGaugeAlike(n.children[k], l); }
    }
  }

  lemma GaugeAlike(t: BmlNode, l: Label)
    ensures Alike(t, Gauge(t), l)
  {
    AlikeRefl(t, l);
    var c := FindPath(t, InstCharger);
    if c.Some? {
      GaugedAlike(At(t, c.value), l);
      PutAlike(t, c.value, Gauged(At(t, c.value)), l);
    }
  }

  // -------------------------------------------------- the migrated tree

  function Rank(l: Label): nat {
    match l
    case ExceedFeatures => 0
    case Idling => 1
    case Usable => 2
    case PlayFull => 3
    case InstAccel => 4
    case InstAccelGauge => 5
    case InstAccelBar => 6
    case Charger => 7
    case Charger2 => 8
    case Kmh2 => 9
    case Kmh3 => 10
    case N2o => 11
    case ChargerFeatures => 12
    case InstCharger => 13
    case _ => 14
  }

  lemma OrderRank(i: nat)
    requires i < |ORDER|
    ensures Rank(ORDER[i]) == i
  {
  }

  lemma OrderFacts(l: Label)
    ensures Distinct(ORDER)
    ensures l in ORDER <==> Part(l)
  {
    forall i | 0 <= i < |ORDER|
      ensures Rank(ORDER[i]) == i
    {
      OrderRank(i);
    }
    assert Part(l) <==> Rank(l) < 14;
    if Part(l) {
      var m := ORDER[Rank(l)];
      assert Rank(m) == Rank(l);
    }
  }

  /** Every row of the migrated tree is in order exactly when no harmful loss happens in the input. */
  lemma MigratedRow(t: BmlNode, l: Label)
    requires Part(l)
    ensures RowOk(Migrated(t), l) <==> (Lost(Renamed(t), l) ==> RowOk(Trim(Renamed(t)), l))
  {
    var r := Renamed(t);
    var b := Rooted(r);
    var d := Steps(b, ORDER);
    OrderFacts(l);
    RowAfterCut(b, ORDER, l);
    RootedAlike(r, l);
    AlikeLost(r, b, l, l);
    TrimAlike(r, b, l);
    AlikeRow(Trim(r), Trim(b), l);
    GaugeAlike(Trim(d), l);
    AlikeRow(Trim(d), Gauge(Trim(d)), l);
  }

  lemma TrimFindsCharger(t: BmlNode)
    requires FindPath(t, InstCharger).Some?
    ensures FindPath(Trim(t), InstCharger) == FindPath(t, InstCharger)
    ensures var c := FindPath(t, InstCharger).value; At(Trim(t), c) == Trimmed(At(t, c))
  {
    var c := FindPath(t, InstCharger).value;
    NotInOwnSlice(t, c);
    var c' := TrimFind(t, c, InstCharger);
  }

  lemma GaugeIndexAfter(cs: seq<BmlNode>, i: nat)
    requires i < |cs| && IsGauge(cs[i]) && forall j :: 0 <= j < i ==> !IsGauge(cs[j])
    ensures GaugeIndex(cs) == i
  {
  }

  lemma GaugedOk(n: BmlNode)
    requires forall k :: 0 <= k < |n.children| ==> !Slice(n.children[k])
    ensures ChargerNodeOk(Gauged(n))
  {
    var m, i := Gauged(n), GaugeIndex(n.children);
    forall k | 0 <= k < |m.children|
      ensures !Slice(m.children[k])
    {
      if k == i { DressGaugeAlike(n.children[k], Kmh2); AlikeHere(n.children[k], m.children[k], Kmh2); }
    }
    if i < |n.children| {
      DressGaugeFacts(n.children[i]);
      assert SameText(GAUGE, GAUGE);
      GaugeIndexAfter(m.children, i);
    }
  }

  lemma MigratedCharger(t: BmlNode)
    ensures ChargerOk(Migrated(t))
  {
    var d := Steps(Rooted(Renamed(t)), ORDER);
    var e := Trim(d);
    GaugeAlike(e, Kmh2);
    AlikeFind(e, Gauge(e), Kmh2, InstCharger);
    var at := FindPath(d, InstCharger);
    if at.Some? {
      var c := at.value;
      TrimFindsCharger(d);
      PutAt(e, c, Gauged(At(e, c)));
      forall k | 0 <= k < |At(e, c).children|
        ensures !Slice(At(e, c).children[k])
      {
        assert At(e, c).children[k] in Keep(At(d, c).children);
      }
      GaugedOk(At(e, c));
    }
  }
}
