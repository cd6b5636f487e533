/** What the selector merge inserts for a theme, and where: the source's row, behind or before its nearest neighbour. */
module SelectorRows {
  import opened Text
  import opened BmlTree
  import opened AssetIndex
  import opened SelectorMerge

  /** The first row with this id. */
  ghost predicate FirstWith(rows: Rows, folded: string, k: nat) {
    && k < |rows| && IdFolds(rows[k], folded)
    && forall j :: 0 <= j < k ==> !IdFolds(rows[j], folded)
  }

  predicate IdFolds(row: BmlNode, folded: string) {
    Attribute(row, "id").Some? && FoldPath(Attribute(row, "id").value) == folded
  }

  ghost predicate NoneWith(rows: Rows, folded: string) {
    forall j :: 0 <= j < |rows| ==> !IdFolds(rows[j], folded)
  }

  lemma {:induction false} FoldedIndexFinds(rows: Rows, folded: string)
    ensures var k := FoldedIndex(rows, folded);
            if k < |rows| then FirstWith(rows, folded, k) else NoneWith(rows, folded)
  {
    hide FoldPath;
    if rows != [] && !IdFolds(rows[0], folded) {
      FoldedIndexFinds(rows[1..], folded);
      assert forall j :: 0 <= j < |rows[1..]| ==> rows[1..][j] == rows[j + 1];
      forall j | 0 <= j < FoldedIndex(rows, folded)
        ensures !IdFolds(rows[j], folded)
      {
        if j > 0 { assert rows[j] == rows[1..][j - 1]; }
      }
    }
  }

  lemma FirstWithOnce(rows: Rows, folded: string, k: nat, l: nat)
    requires FirstWith(rows, folded, k) && FirstWith(rows, folded, l)
    ensures k == l
  {
    hide IdFolds;
  }

  // ------------------------------------------------------------- the new row

  /** The key is one that a new row sets itself. */
  predicate SetKey(t: Theme, key: string) {
    SameText(key, "id") || (SameText(t.original, "fengshen") && (SameText(key, "stringKey") || SameText(key, "icon")))
  }

  /** A theme row under the id of its slot, with the value, the children and the other attributes of its model. */
  ghost predicate RowLike(t: Theme, row: BmlNode, model: BmlNode) {
    && row.name == "theme" && row.value == model.value && row.children == model.children
    && Attribute(row, "id") == Some(if SameText(t.original, "fengshen") then "17" else t.original)
    && (SameText(t.original, "fengshen") ==>
          Attribute(row, "stringKey") == Some("themeFengshen") && Attribute(row, "icon") == Some("fengshen"))
    && forall key :: !SetKey(t, key) ==> Attribute(row, key) == Attribute(model, key)
  }

  lemma KeysApart()
    ensures !SameText("id", "stringKey") && !SameText("id", "icon") && !SameText("stringKey", "icon")
  {
    if SameText("id", "stringKey") { SameTextSignature("id", "stringKey"); }
    if SameText("id", "icon") { SameTextSignature("id", "icon"); }
    if SameText("stringKey", "icon") { SameTextSignature("stringKey", "icon"); }
  }

  lemma RowFrom(t: Theme, base: BmlNode)
    ensures var named := SetAttribute(base.(name := "theme"), "id", RegistrationId(t.original));
            var aliased := SetAttribute(SetAttribute(named, "stringKey", STRING_KEY), "icon", ICON);
            RowLike(t, if HasAlias(t.original) then aliased else named, base)
  {
    hide SameText, Assign, Lookup;
    var id := RegistrationId(t.original);
    var named := SetAttribute(base.(name := "theme"), "id", id);
    var keyed := SetAttribute(named, "stringKey", STRING_KEY);
    var iconed := SetAttribute(keyed, "icon", ICON);
    KeysApart();
    Itself("id");
    Itself("stringKey");
    Itself("icon");
    forall key
      ensures Attribute(named, key) == if SameText(key, "id") then Some(id) else Attribute(base, key)
      ensures Attribute(keyed, key) == if SameText(key, "stringKey") then Some(STRING_KEY) else Attribute(named, key)
      ensures Attribute(iconed, key) == if SameText(key, "icon") then Some(ICON) else Attribute(keyed, key)
    {
      AssignLookup(base.attributes, "id", id, key);
      AssignLookup(named.attributes, "stringKey", STRING_KEY, key);
      AssignLookup(keyed.attributes, "icon", ICON, key);
    }
    Symmetric("id", "stringKey");
    Symmetric("id", "icon");
    Symmetric("stringKey", "icon");
  }

  lemma Itself(key: string)
    ensures SameText(key, key)
  {
  }

  lemma Symmetric(a: string, b: string)
    ensures SameText(a, b) == SameText(b, a)
  {
  }

  /** The new row is the first source row of the theme made a row of its slot, or, without one, a bare row. */
  lemma NewRowExactly(source: Rows, t: Theme)
    ensures forall k: nat :: FirstWith(source, t.key, k) ==> RowLike(t, NewRow(source, t), source[k])
    ensures NoneWith(source, t.key) ==>
              exists bare: BmlNode ::
                && RowLike(t, NewRow(source, t), bare)
                && bare.value == "" && bare.children == [] && bare.attributes == [("id", t.original)]
  {
    hide RowLike, SetAttribute, IdFolds, HasAlias, FoldedIndex;
    FoldedIndexFinds(source, t.key);
    var i := FoldedIndex(source, t.key);
    var base := if i < |source| then source[i] else BmlNode("theme", "", [("id", t.original)], []);
    RowFrom(t, base);
    forall k: nat | FirstWith(source, t.key, k)
      ensures k == i < |source|
    {
      if i < |source| { FirstWithOnce(source, t.key, k, i); }
    }
  }

  // -------------------------------------------------------------- its place

  /** The first target row with the id of a source row. */
  ghost predicate Anchor(candidate: BmlNode, rows: Rows, at: nat) {
    Attribute(candidate, "id").Some? && FirstWith(rows, FoldPath(Attribute(candidate, "id").value), at)
  }

  ghost predicate Anchored(candidate: BmlNode, rows: Rows) {
    exists at: nat :: Anchor(candidate, rows, at)
  }

  lemma RowOfExactly(rows: Rows, candidate: BmlNode)
    ensures RowOf(rows, candidate).Some? <==> Anchored(candidate, rows)
    ensures forall at: nat :: Anchor(candidate, rows, at) <==> RowOf(rows, candidate) == Some(at)
  {
    hide IdFolds, FoldPath;
    if Attribute(candidate, "id").Some? {
      var folded := FoldPath(Attribute(candidate, "id").value);
      FoldedIndexFinds(rows, folded);
      var i := FoldedIndex(rows, folded);
      forall at: nat | FirstWith(rows, folded, at)
        ensures at == i < |rows|
      {
        if i < |rows| { FirstWithOnce(rows, folded, at, i); }
      }
      if i < |rows| { assert Anchor(candidate, rows, i); }
    }
  }

  lemma {:induction false} NextAnchorAt(later: Rows, rows: Rows, j: nat, at: nat)
    requires j < |later| && Anchor(later[j], rows, at) && forall i :: 0 <= i < j ==> !Anchored(later[i], rows)
    ensures NextAnchor(later, rows) == Some(at)
  {
    hide Anchor, Anchored, RowOf;
    RowOfExactly(rows, later[0]);
    if j > 0 {
      assert !Anchored(later[0], rows);
      NextAnchorAt(later[1..], rows, j - 1, at);
    }
  }

  lemma {:induction false} PreviousAnchorAt(earlier: Rows, rows: Rows, j: nat, at: nat)
    requires j < |earlier| && Anchor(earlier[j], rows, at)
    requires forall i :: j < i < |earlier| ==> !Anchored(earlier[i], rows)
    ensures PreviousAnchor(earlier, rows) == Some(at + 1)
    decreases |earlier|
  {
    hide Anchor, Anchored, RowOf;
    var last := |earlier| - 1;
    RowOfExactly(rows, earlier[last]);
    if j < last {
      assert !Anchored(earlier[last], rows);
      PreviousAnchorAt(earlier[..last], rows, j, at);
    }
  }

  /** No source row between these positions, the theme's own aside, is one that the target has. */
  ghost predicate NoneBetween(source: Rows, rows: Rows, i: nat, from: int, to: int) {
    forall l :: 0 <= l < |source| && from < l < to && l != i ==> !Anchored(source[l], rows)
  }

  /**
   The place of the row of `source[i]`: at the nearest later source neighbour that the target has, otherwise behind the
   nearest earlier one, otherwise at the end.
   */
  ghost predicate PlaceFor(source: Rows, rows: Rows, i: nat, k: nat)
    requires i < |source|
  {
    && (forall j, at: nat :: i < j < |source| && Anchor(source[j], rows, at) && NoneBetween(source, rows, i, i, j) ==>
                               k == at)
    && (forall j, at: nat :: 0 <= j < i && Anchor(source[j], rows, at) && NoneBetween(source, rows, i, j, |source|) ==>
                               k == at + 1)
    && (NoneBetween(source, rows, i, -1, |source|) ==> k == |rows|)
  }

  lemma InsertionExactly(source: Rows, rows: Rows, t: Theme)
    ensures forall i: nat :: FirstWith(source, t.key, i) ==> PlaceFor(source, rows, i, Insertion(source, rows, t))
    ensures NoneWith(source, t.key) ==> Insertion(source, rows, t) == |rows|
  {
    hide IdFolds, Anchor, Anchored, NextAnchor, PreviousAnchor;
    FoldedIndexFinds(source, t.key);
    var i := FoldedIndex(source, t.key);
    if i < |source| {
      InsertionAt(source, rows, t, i);
      forall l: nat | FirstWith(source, t.key, l)
        ensures l == i
      {
        FirstWithOnce(source, t.key, l, i);
      }
    }
  }

  lemma InsertionAt(source: Rows, rows: Rows, t: Theme, i: nat)
    requires i == FoldedIndex(source, t.key) < |source|
    ensures PlaceFor(source, rows, i, Insertion(source, rows, t))
  {
    hide Anchor, Anchored, NextAnchor, PreviousAnchor, FoldedIndex;
    var k, later, earlier := Insertion(source, rows, t), source[i + 1..], source[..i];
    forall j, at: nat | i < j < |source| && Anchor(source[j], rows, at) && NoneBetween(source, rows, i, i, j)
      ensures k == at
    {
      forall l | 0 <= l < j - i - 1
        ensures !Anchored(later[l], rows)
      {
        assert later[l] == source[i + 1 + l];
      }
      assert later[j - i - 1] == source[j];
      NextAnchorAt(later, rows, j - i - 1, at);
    }
    forall j, at: nat | 0 <= j < i && Anchor(source[j], rows, at) && NoneBetween(source, rows, i, j, |source|)
      ensures k == at + 1
    {
      NoneLater(source, rows, i, j);
      assert earlier[j] == source[j];
      PreviousAnchorAt(earlier, rows, j, at);
    }
    if NoneBetween(source, rows, i, -1, |source|) {
      NoneLater(source, rows, i, -1);
      EarlierNone(earlier, rows);
    }
  }

  lemma NoneLater(source: Rows, rows: Rows, i: nat, j: int)
    requires j < i < |source| && NoneBetween(source, rows, i, j, |source|)
    ensures NextAnchor(source[i + 1..], rows) == None
  {
    hide Anchored, NextAnchor;
    LaterNone(source[i + 1..], rows);
  }

  lemma {:induction false} LaterNone(later: Rows, rows: Rows)
    requires forall j :: 0 <= j < |later| ==> !Anchored(later[j], rows)
    ensures NextAnchor(later, rows) == None
  {
    hide Anchored, RowOf;
    if later != [] {
      RowOfExactly(rows, later[0]);
      LaterNone(later[1..], rows);
    }
  }

  lemma {:induction false} EarlierNone(earlier: Rows, rows: Rows)
    requires forall j :: 0 <= j < |earlier| ==> !Anchored(earlier[j], rows)
    ensures PreviousAnchor(earlier, rows) == None
    decreases |earlier|
  {
    hide Anchored, RowOf;
    if earlier != [] {
      RowOfExactly(rows, earlier[|earlier| - 1]);
      EarlierNone(earlier[..|earlier| - 1], rows);
    }
  }

  // ------------------------------------------------------------- in the result

  /**
   Outside the slots of the aliased theme every slot ends as it was, when it had a row, and otherwise with one new row
   for the theme that asks for it.
   */
  lemma {:induction false} MergedSlot(source: Rows, rows: Rows, themes: seq<Theme>, slot: string)
    requires slot !in ALIAS_SLOTS || !AsksAlias(themes)
    ensures Pick(Merge(source, rows, themes), slot)
         == if Pick(rows, slot) != [] then Pick(rows, slot) else OwnRow(source, themes, slot)
    decreases themes
  {
    hide Has, HasAlias, Pick, Insert, NewRow, OwnRow, Drop;
    if themes == [] {
      NobodyAsks(source, themes, slot);
    } else {
      var t, rest := themes[0], themes[1..];
      assert forall j :: 0 <= j < |rest| ==> rest[j] == themes[j + 1];
      MergedSlot(source, Step(source, rows, t), rest, slot);
      if HasAlias(t.original) {
        var cleared := Drop(rows, ALIAS_SLOTS);
        PickDrop(rows, ALIAS_SLOTS, slot);
        assert SlotOf(t) == NATIVE_ID by { assert Lower(NATIVE_ID) == NATIVE_ID; }
        assert NATIVE_ID in ALIAS_SLOTS;
        InsertPick(source, cleared, t, slot);
        OwnRowTail(source, themes, slot);
      } else {
        HasPick(rows, t.original);
        InsertPick(source, rows, t, slot);
        if Lower(t.original) == slot { OwnRowHead(source, themes, slot); } else { OwnRowTail(source, themes, slot); }
      }
    }
  }

  /** A requested theme that the catalog lacked ends with one row, which is like the first source row of that theme. */
  lemma InsertedRow(source: Rows, rows: Rows, themes: seq<Theme>, i: nat, k: nat)
    requires Requested(themes) && i < |themes| && FirstWith(source, themes[i].key, k)
    requires if HasAlias(themes[i].original) then true
             else !Has(rows, themes[i].original) || (AsksAlias(themes) && Lower(themes[i].original) == "xyy")
    ensures var t := themes[i];
            var slot := if HasAlias(t.original) then "17" else Lower(t.original);
            exists row :: Pick(Merge(source, rows, themes), slot) == [row] && RowLike(t, row, source[k])
  {
    hide Merge, Requested, RowLike, NewRow, FirstWith, Pick;
    var t := themes[i];
    NewRowExactly(source, t);
    if HasAlias(t.original) {
      AliasPicks(source, rows, themes);
      OnlyAlias(themes, i);
    } else {
      var slot := Lower(t.original);
      OwnThemeIs(themes, i);
      HasPick(rows, t.original);
      if AsksAlias(themes) && slot in ALIAS_SLOTS {
        OrdinarySlot(themes, i);
        AliasPicks(source, rows, themes);
      } else {
        MergedSlot(source, rows, themes, slot);
      }
    }
  }

  lemma OrdinarySlot(themes: seq<Theme>, i: nat)
    requires Requested(themes) && i < |themes| && !HasAlias(themes[i].original)
    ensures Lower(themes[i].original) in ALIAS_SLOTS ==> Lower(themes[i].original) == NATIVE_CODE
  {
    hide IsNative, FoldPath, HasAlias;
    assert themes[i..][0] == themes[i];
    RequestedFrom(themes, i);
    OrdinaryTheme(themes[i..]);
  }

  lemma {:induction false} OnlyAlias(themes: seq<Theme>, i: nat)
    requires Requested(themes) && i < |themes| && HasAlias(themes[i].original)
    ensures AliasTheme(themes) == Some(themes[i])
    decreases themes
  {
    hide HasAlias, Requested;
    if i == 0 {
    } else {
      if HasAlias(themes[0].original) { AfterAlias(themes); }
      RequestedTail(themes);
      assert themes[1..][i - 1] == themes[i];
      OnlyAlias(themes[1..], i - 1);
    }
  }

  /** Requested themes differ in their keys, so one of them asks for a slot under its own name. */
  lemma {:induction false} OwnThemeIs(themes: seq<Theme>, i: nat)
    requires Requested(themes) && i < |themes| && !HasAlias(themes[i].original)
    ensures OwnTheme(themes, Lower(themes[i].original)) == Some(themes[i])
    decreases themes
  {
    hide HasAlias, Requested;
    if i > 0 {
      RequestedTail(themes);
      assert themes[1..][i - 1] == themes[i];
      OwnThemeIs(themes[1..], i - 1);
      if !HasAlias(themes[0].original) && Lower(themes[0].original) == Lower(themes[i].original) {
        SameSlotSameKey(themes, i);
      }
    }
  }

  lemma SameSlotSameKey(themes: seq<Theme>, i: nat)
    requires Requested(themes) && 0 < i < |themes| && !HasAlias(themes[0].original) && !HasAlias(themes[i].original)
    ensures Lower(themes[0].original) != Lower(themes[i].original)
  {
    hide IsNative, HasAlias;
    var a, b := themes[0], themes[i];
    if Lower(a.original) == Lower(b.original) {
      NativeFold(a.original);
      NativeFold(b.original);
      assert LexLess(a.key, b.key);
      LexIrreflexive(a.key);
    }
  }

  lemma NativeFold(theme: string)
    requires IsNative(theme) || HasAlias(theme)
    ensures FoldPath(theme) == Lower(theme)
  {
    if IsNative(theme) {
      var i :| 0 <= i < |NATIVE_THEMES| && SameText(NATIVE_THEMES[i], theme);
      NativePlain(i);
    }
    assert forall k :: 0 <= k < |theme| ==> LowerChar(theme[k]) != '/' && LowerChar(theme[k]) != '\\';
    PlainFold(theme);
  }

  lemma NativePlain(i: nat)
    requires i < |NATIVE_THEMES|
    ensures forall k :: 0 <= k < |NATIVE_THEMES[i]| ==> 'F' <= NATIVE_THEMES[i][k] && NATIVE_THEMES[i][k] != '\\'
  {
    if i < 17 { EarlyPlain(i); } else { LatePlain(i); }
  }

  lemma EarlyPlain(i: nat)
    requires i < 17
    ensures forall k :: 0 <= k < |NATIVE_THEMES[i]| ==> 'a' <= NATIVE_THEMES[i][k]
  {
  }

  lemma LatePlain(i: nat)
    requires 17 <= i < |NATIVE_THEMES|
    ensures forall k :: 0 <= k < |NATIVE_THEMES[i]| ==> 'a' <= NATIVE_THEMES[i][k] || NATIVE_THEMES[i][k] == 'F'
  {
  }

  const FIRST_NATIVES: set<string> := {
    "steam", "forest", "desert", "village", "ice", "tomb", "mine", "northeu", "factory", "pirate", "fairy"}

  const MIDDLE_NATIVES: set<string> := {
    "moonhill", "gold", "china", "castle", "nymph", "mechanic", "xyy", "wkc", "brodi", "park", "beach"}

  const LAST_NATIVES: set<string> := {
    "jurassic", "world", "nemo", "sword", "god", "abyss", "camelot", "olympos", "korea", "mabi", "maple"}

  const NATIVES: set<string> := FIRST_NATIVES + MIDDLE_NATIVES + {"transformer"} + LAST_NATIVES

  /** The native themes, in any case; of the others only the aliased one may be asked for. */
  lemma NativeExactly(theme: string)
    ensures IsNative(theme) <==> Lower(theme) in NATIVES
    ensures HasAlias(theme) <==> Lower(theme) == "fengshen"
  {
    hide Lower, NATIVES;
    AliasLow();
    if IsNative(theme) {
      var i :| 0 <= i < |NATIVE_THEMES| && SameText(NATIVE_THEMES[i], theme);
      NativeListed(i);
    }
    if Lower(theme) in NATIVES { ListedNative(Lower(theme)); }
  }

  lemma AliasLow()
    ensures Lower(ALIASED) == "fengshen"
  {
  }

  lemma EarlyLow(i: nat)
    requires i < 22
    ensures Lower(NATIVE_THEMES[i]) == NATIVE_THEMES[i]
  {
  }

  lemma LateLow(i: nat)
    requires 22 < i < |NATIVE_THEMES|
    ensures Lower(NATIVE_THEMES[i]) == NATIVE_THEMES[i]
  {
  }

  lemma TransformerLow()
    ensures 22 < |NATIVE_THEMES| && Lower(NATIVE_THEMES[22]) == "transformer"
  {
  }

  lemma NativeListed(i: nat)
    requires i < |NATIVE_THEMES|
    ensures Lower(NATIVE_THEMES[i]) in NATIVES
  {
    hide Lower;
    if i < 22 { EarlyLow(i); } else if i == 22 { TransformerLow(); } else { LateLow(i); }
  }

  lemma ListedNative(folded: string)
    requires folded in NATIVES
    ensures exists i :: 0 <= i < |NATIVE_THEMES| && Lower(NATIVE_THEMES[i]) == folded
  {
    hide Lower, NATIVE_THEMES, FIRST_NATIVES, MIDDLE_NATIVES, LAST_NATIVES;
    var i: nat;
    if folded in FIRST_NATIVES {
      i := FirstListed(folded);
    } else if folded in MIDDLE_NATIVES {
      i := MiddleListed(folded);
    } else if folded in LAST_NATIVES {
      i := LastListed(folded);
    } else {
      TransformerLow();
      i := 22;
    }
  }

  lemma FirstListed(folded: string) returns (i: nat)
    requires folded in FIRST_NATIVES
    ensures i < |NATIVE_THEMES| && Lower(NATIVE_THEMES[i]) == folded
  {
    hide Lower;
    var t := NATIVE_THEMES;
    assert t[0] == "steam" && t[1] == "forest" && t[2] == "desert" && t[3] == "village";
    assert t[4] == "ice" && t[5] == "tomb" && t[6] == "mine" && t[7] == "northeu";
    assert t[8] == "factory" && t[9] == "pirate" && t[10] == "fairy";
    i :| 0 <= i < 11 && t[i] == folded;
    EarlyLow(i);
  }

  lemma MiddleListed(folded: string) returns (i: nat)
    requires folded in MIDDLE_NATIVES
    ensures i < |NATIVE_THEMES| && Lower(NATIVE_THEMES[i]) == folded
  {
    hide Lower;
    var t := NATIVE_THEMES;
    assert t[11] == "moonhill" && t[12] == "gold" && t[13] == "china" && t[14] == "castle";
    assert t[15] == "nymph" && t[16] == "mechanic" && t[17] == "xyy" && t[18] == "wkc";
    assert t[19] == "brodi" && t[20] == "park" && t[21] == "beach";
    i :| 11 <= i < 22 && t[i] == folded;
    EarlyLow(i);
  }

  lemma LastListed(folded: string) returns (i: nat)
    requires folded in LAST_NATIVES
    ensures i < |NATIVE_THEMES| && Lower(NATIVE_THEMES[i]) == folded
  {
    hide Lower;
    var t := NATIVE_THEMES;
    assert t[23] == "jurassic" && t[24] == "world" && t[25] == "nemo" && t[26] == "sword";
    assert t[27] == "god" && t[28] == "abyss" && t[29] == "camelot" && t[30] == "olympos";
    assert t[31] == "korea" && t[32] == "mabi" && t[33] == "maple";
    i :| 23 <= i < 34 && t[i] == folded;
    LateLow(i);
  }

  /** The check behind the installation: the first tab order has a row with the theme's id, in any case. */
  lemma SelectorHasExactly(root: BmlNode, theme: string)
    ensures SelectorHas(root, theme) <==>
              var id := if Lower(theme) == "fengshen" then "17" else theme;
              exists i :: && 0 <= i < |root.children| && SameText(root.children[i].name, "themeTabOrder")
                          && (forall j :: 0 <= j < i ==> !SameText(root.children[j].name, "themeTabOrder"))
                          && exists r :: r in root.children[i].children && Attribute(r, "id").Some?
                                         && SameText(Attribute(r, "id").value, id)
  {
    hide Lower;
    AliasLow();
  }

  /** Outside the rows of its tab order the catalog is as it was. */
  lemma MergedElsewhere(source: Option<BmlNode>, target: BmlNode, themes: seq<Theme>)
    ensures var merged := Merged(source, target, themes);
            if SameText(target.name, "config")
               && exists i :: 0 <= i < |target.children| && SameText(target.children[i].name, "themeTabOrder") then
              && merged.Some?
              && merged.value.name == target.name && merged.value.value == target.value
              && merged.value.attributes == target.attributes && |merged.value.children| == |target.children|
              && exists i :: && 0 <= i < |target.children| && SameText(target.children[i].name, "themeTabOrder")
                             && (forall j :: 0 <= j < i ==> !SameText(target.children[j].name, "themeTabOrder"))
                             && (forall j :: 0 <= j < |target.children| && j != i ==>
                                               merged.value.children[j] == target.children[j])
                             && merged.value.children[i].name == target.children[i].name
                             && merged.value.children[i].value == target.children[i].value
                             && merged.value.children[i].attributes == target.children[i].attributes
            else merged.None?
  {
    hide Merge, SameText, SourceOrder;
    var i := ChildNamed(target.children, ORDER);
    if i < |target.children| { assert SameText(target.children[i].name, "themeTabOrder"); }
  }
}
