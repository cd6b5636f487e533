/** Merging imported themes into the client's track selector, one row of `themeTabOrder` per theme. */
module SelectorMerge {
  import opened Text
  import opened BmlTree
  import opened AssetIndex

  type Rows = seq<BmlNode>

  /** A requested theme under its folded key. */
  datatype Theme = Theme(key: string, original: string)

  const ALIASED := "fengshen"
  const NATIVE_CODE := "xyy"
  const NATIVE_ID := "17"
  const STRING_KEY := "themeFengshen"
  const ICON := "fengshen"
  const NATIVE_THEMES: seq<string> := [
    "steam", "forest", "desert", "village", "ice", "tomb", "mine", "northeu", "factory", "pirate", "fairy",
    "moonhill", "gold", "china", "castle", "nymph", "mechanic", "xyy", "wkc", "brodi", "park", "beach",
    "transFormer", "jurassic", "world", "nemo", "sword", "god", "abyss", "camelot", "olympos", "korea", "mabi", "maple"]

  predicate IsNative(theme: string) {
    exists i :: 0 <= i < |NATIVE_THEMES| && SameText(NATIVE_THEMES[i], theme)
  }

  predicate HasAlias(theme: string) {
    SameText(theme, ALIASED)
  }

  function RegistrationId(theme: string): string {
    if HasAlias(theme) then NATIVE_ID else theme
  }

  /** The themes a bundle may ask for: keys strictly ascending, every theme native or with a slot of its own. */
  predicate Requested(themes: seq<Theme>) {
    && (forall i :: 0 <= i < |themes| ==> themes[i].key == FoldPath(themes[i].original))
    && (forall i :: 0 <= i < |themes| ==> IsNative(themes[i].original) || HasAlias(themes[i].original))
    && (forall i, j :: 0 <= i < j < |themes| ==> LexLess(themes[i].key, themes[j].key))
  }

  // --------------------------------------------------------------- rows

  function Id(row: BmlNode): Option<string> {
    Attribute(row, "id")
  }

  /** The row's id without regard to case; a row without an id gives nothing. */
  function Slot(row: BmlNode): Option<string> {
    if Id(row).None? then None else Some(Lower(Id(row).value))
  }

  predicate Has(rows: Rows, id: string) {
    exists i :: 0 <= i < |rows| && Slot(rows[i]) == Some(Lower(id))
  }

  /** The rows outside a set of slots, in their order. */
  function Drop(rows: Rows, slots: set<string>): Rows {
    if rows == [] then []
    else if Slot(rows[0]).Some? && Slot(rows[0]).value in slots then Drop(rows[1..], slots)
    else [rows[0]] + Drop(rows[1..], slots)
  }

  /** How many rows hold a slot. */
  function Rowcount(rows: Rows, slot: string): nat {
    if rows == [] then 0 else (if Slot(rows[0]) == Some(slot) then 1 else 0) + Rowcount(rows[1..], slot)
  }

  /** The rows that hold a slot, in their order. */
  function Pick(rows: Rows, slot: string): Rows {
    if rows == [] then [] else (if Slot(rows[0]) == Some(slot) then [rows[0]] else []) + Pick(rows[1..], slot)
  }

  /** Position of the first row that holds a slot, or the number of rows. */
  function SlotIndex(rows: Rows, slot: string): nat {
    if rows == [] || Slot(rows[0]) == Some(slot) then 0 else 1 + SlotIndex(rows[1..], slot)
  }

  function PutIn(rows: Rows, k: nat, row: BmlNode): Rows
    requires k <= |rows|
  {
    rows[..k] + [row] + rows[k..]
  }

  const ALIAS_SLOTS: set<string> := {ALIASED, NATIVE_CODE, NATIVE_ID}

  /** First row whose folded id is this one, or the number of rows. */
  function FoldedIndex(rows: Rows, folded: string): (i: nat)
    ensures i <= |rows|
  {
    if rows == [] then 0
    else if Id(rows[0]).Some? && FoldPath(Id(rows[0]).value) == folded then 0
    else 1 + FoldedIndex(rows[1..], folded)
  }

  function RowOf(rows: Rows, candidate: BmlNode): Option<nat> {
    if Id(candidate).None? then None
    else
      var i := FoldedIndex(rows, FoldPath(Id(candidate).value));
      if i < |rows| then Some(i) else None
  }

  /** The place of the nearest later source row that the target has too. */
  function NextAnchor(later: Rows, rows: Rows): Option<nat> {
    if later == [] then None
    else if RowOf(rows, later[0]).Some? then RowOf(rows, later[0])
    else NextAnchor(later[1..], rows)
  }

  /** The place behind the nearest earlier source row that the target has too. */
  function PreviousAnchor(earlier: Rows, rows: Rows): Option<nat> {
    if earlier == [] then None
    else
      var last := RowOf(rows, earlier[|earlier| - 1]);
      if last.Some? then Some(last.value + 1) else PreviousAnchor(earlier[..|earlier| - 1], rows)
  }

  lemma {:induction false} AnchorsFit(part: Rows, rows: Rows)
    ensures NextAnchor(part, rows).Some? ==> NextAnchor(part, rows).value <= |rows|
    ensures PreviousAnchor(part, rows).Some? ==> PreviousAnchor(part, rows).value <= |rows|
    decreases |part|
  {
    if part != [] {
      AnchorsFit(part[1..], rows);
      AnchorsFit(part[..|part| - 1], rows);
    }
  }

  function Insertion(source: Rows, rows: Rows, t: Theme): (k: nat)
    ensures k <= |rows|
  {
    var i := FoldedIndex(source, t.key);
    if i == |source| then |rows|
    else
      AnchorsFit(source[i + 1..], rows);
      AnchorsFit(source[..i], rows);
      var next := NextAnchor(source[i + 1..], rows);
      var previous := PreviousAnchor(source[..i], rows);
      if next.Some? then next.value else if previous.Some? then previous.value else |rows|
  }

  function NewRow(source: Rows, t: Theme): BmlNode {
    var i := FoldedIndex(source, t.key);
    var base := if i < |source| then source[i] else BmlNode("theme", "", [("id", t.original)], []);
    var named := SetAttribute(base.(name := "theme"), "id", RegistrationId(t.original));
    if HasAlias(t.original) then SetAttribute(SetAttribute(named, "stringKey", STRING_KEY), "icon", ICON) else named
  }

  function Insert(source: Rows, rows: Rows, t: Theme): Rows {
    PutIn(rows, Insertion(source, rows, t), NewRow(source, t))
  }

  /** One requested theme. */
  function Step(source: Rows, rows: Rows, t: Theme): Rows {
    if HasAlias(t.original) then Insert(source, Drop(rows, ALIAS_SLOTS), t)
    else if Has(rows, t.original) then rows
    else Insert(source, rows, t)
  }

  function Merge(source: Rows, rows: Rows, themes: seq<Theme>): Rows
    decreases themes
  {
    if themes == [] then rows else Merge(source, Step(source, rows, themes[0]), themes[1..])
  }

  // ------------------------------------------------------------ small facts

  lemma NewRowSlot(source: Rows, t: Theme)
    ensures Id(NewRow(source, t)) == Some(RegistrationId(t.original))
  {
    hide FoldedIndex, RegistrationId;
    var i := FoldedIndex(source, t.key);
    var base := if i < |source| then source[i] else BmlNode("theme", "", [("id", t.original)], []);
    var id := RegistrationId(t.original);
    AssignLookup(base.attributes, "id", id, "id");
    var named := SetAttribute(base.(name := "theme"), "id", id);
    AssignLookup(named.attributes, "stringKey", STRING_KEY, "id");
    AssignLookup(SetAttribute(named, "stringKey", STRING_KEY).attributes, "icon", ICON, "id");
    if SameText("id", "stringKey") { SameTextSignature("id", "stringKey"); }
    if SameText("id", "icon") { SameTextSignature("id", "icon"); }
  }

  lemma {:induction false} DropAppend(a: Rows, b: Rows, slots: set<string>)
    ensures Drop(a + b, slots) == Drop(a, slots) + Drop(b, slots)
  {
    hide Slot;
    if a == [] {
      assert a + b == b;
    } else {
      assert (a + b)[1..] == a[1..] + b;
      DropAppend(a[1..], b, slots);
    }
  }

  lemma {:induction false} DropDrop(rows: Rows, few: set<string>, many: set<string>)
    requires few <= many
    ensures Drop(Drop(rows, few), many) == Drop(rows, many)
  {
    hide Slot;
    if rows != [] {
      DropDrop(rows[1..], few, many);
      assert ([rows[0]] + Drop(rows[1..], few))[1..] == Drop(rows[1..], few);
    }
  }

  lemma {:induction false} CountAppend(a: Rows, b: Rows, slot: string)
    ensures Rowcount(a + b, slot) == Rowcount(a, slot) + Rowcount(b, slot)
  {
    hide Slot;
    if a == [] {
      assert a + b == b;
    } else {
      assert (a + b)[1..] == a[1..] + b;
      CountAppend(a[1..], b, slot);
    }
  }

  lemma {:induction false} CountDrop(rows: Rows, slots: set<string>, slot: string)
    ensures Rowcount(Drop(rows, slots), slot) == if slot in slots then 0 else Rowcount(rows, slot)
  {
    hide Slot;
    if rows != [] {
      CountDrop(rows[1..], slots, slot);
      assert ([rows[0]] + Drop(rows[1..], slots))[1..] == Drop(rows[1..], slots);
    }
  }

  lemma {:induction false} HasCount(rows: Rows, id: string)
    ensures Has(rows, id) <==> Rowcount(rows, Lower(id)) > 0
  {
    hide Slot;
    if rows != [] {
      HasCount(rows[1..], id);
      if Has(rows[1..], id) {
        var i :| 0 <= i < |rows| - 1 && Slot(rows[1..][i]) == Some(Lower(id));
        assert Slot(rows[i + 1]) == Some(Lower(id));
      }
      if Has(rows, id) && Slot(rows[0]) != Some(Lower(id)) {
        var i :| 0 <= i < |rows| && Slot(rows[i]) == Some(Lower(id));
        assert Slot(rows[1..][i - 1]) == Some(Lower(id));
      }
    }
  }

  /** The slot a theme is registered under. */
  function SlotOf(t: Theme): string {
    Lower(RegistrationId(t.original))
  }

  lemma InsertFacts(source: Rows, rows: Rows, t: Theme, slots: set<string>, slot: string)
    ensures Rowcount(Insert(source, rows, t), slot) == Rowcount(rows, slot) + if slot == SlotOf(t) then 1 else 0
    ensures SlotOf(t) in slots ==> Drop(Insert(source, rows, t), slots) == Drop(rows, slots)
  {
    hide Slot, NewRow, Insertion, RegistrationId, Id;
    var k, row := Insertion(source, rows, t), NewRow(source, t);
    NewRowSlot(source, t);
    SlotIs(row, RegistrationId(t.original));
    CountAppend(rows[..k] + [row], rows[k..], slot);
    CountAppend(rows[..k], [row], slot);
    CountAppend(rows[..k], rows[k..], slot);
    assert Rowcount([row], slot) == if slot == SlotOf(t) then 1 else 0 by { assert [row][1..] == []; }
    DropAppend(rows[..k] + [row], rows[k..], slots);
    DropAppend(rows[..k], [row], slots);
    DropAppend(rows[..k], rows[k..], slots);
    assert rows[..k] + rows[k..] == rows;
    if SlotOf(t) in slots { assert Drop([row], slots) == [] by { assert [row][1..] == []; } }
  }

  /** What one theme does to the number of rows of a slot. */
  lemma StepCount(source: Rows, rows: Rows, t: Theme, slot: string)
    ensures Rowcount(Step(source, rows, t), slot)
         == if HasAlias(t.original) && slot == NATIVE_ID then 1
            else if HasAlias(t.original) && slot in ALIAS_SLOTS then 0
            else if HasAlias(t.original) then Rowcount(rows, slot)
            else if Has(rows, t.original) then Rowcount(rows, slot)
            else Rowcount(rows, slot) + if slot == Lower(t.original) then 1 else 0
  {
    hide Insert, Slot, Has, HasAlias;
    InsertFacts(source, rows, t, {}, slot);
    InsertFacts(source, Drop(rows, ALIAS_SLOTS), t, {}, slot);
    CountDrop(rows, ALIAS_SLOTS, slot);
    assert Lower(NATIVE_ID) == NATIVE_ID;
    assert NATIVE_ID in ALIAS_SLOTS;
  }

  // -------------------------------------------------- themes and their slots

  lemma PlainFold(theme: string)
    requires '/' !in theme && '\\' !in theme
    ensures FoldPath(theme) == Lower(theme)
  {
  }

  lemma AliasKey(t: Theme)
    requires t.key == FoldPath(t.original)
    ensures HasAlias(t.original) ==> t.key == ALIASED
    ensures Lower(t.original) == ALIASED ==> HasAlias(t.original)
    ensures SameText(t.original, NATIVE_CODE) ==> t.key == NATIVE_CODE
  {
  }

  lemma NativesAreNoNumber(theme: string)
    requires IsNative(theme)
    ensures |theme| > 2
  {
  }

  /** A theme before the aliased one is not in a slot that the aliased one clears. */
  lemma BeforeAlias(themes: seq<Theme>, i: nat, j: nat)
    requires Requested(themes) && i < j < |themes| && HasAlias(themes[j].original)
    ensures !HasAlias(themes[i].original) && Lower(themes[i].original) !in ALIAS_SLOTS
  {
    hide IsNative, FoldPath, HasAlias;
    var a, b := themes[i], themes[j];
    AliasKey(a);
    AliasKey(b);
    assert LexLess(a.key, b.key);
    assert !HasAlias(a.original) by { LexIrreflexive(ALIASED); }
    assert !LexLess(NATIVE_CODE, ALIASED);
    assert IsNative(a.original);
    NativesAreNoNumber(a.original);
    assert |Lower(a.original)| == |a.original|;
    assert Lower(ALIASED) == ALIASED && Lower(NATIVE_CODE) == NATIVE_CODE;
  }

  lemma RequestedTail(themes: seq<Theme>)
    requires Requested(themes) && themes != []
    ensures Requested(themes[1..])
  {
  }

  // ----------------------------------------------------------------- theorems

  /** A slot that has a row keeps one through the themes to come, unless the aliased theme clears it. */
  lemma {:induction false} SlotStays(source: Rows, rows: Rows, themes: seq<Theme>, id: string)
    requires Has(rows, id)
    requires Lower(id) == NATIVE_ID
             || forall j :: 0 <= j < |themes| && HasAlias(themes[j].original) ==> Lower(id) !in ALIAS_SLOTS
    ensures Has(Merge(source, rows, themes), id)
    decreases themes
  {
    hide Step, Has, HasAlias, Rowcount;
    if themes != [] {
      StepCount(source, rows, themes[0], Lower(id));
      HasCount(rows, id);
      HasCount(Step(source, rows, themes[0]), id);
      assert forall j :: 0 <= j < |themes[1..]| ==> themes[1..][j] == themes[j + 1];
      SlotStays(source, Step(source, rows, themes[0]), themes[1..], id);
    }
  }

  /** Every requested theme has a row under its registration id afterwards. */
  lemma {:induction false} EveryThemeRegistered(source: Rows, rows: Rows, themes: seq<Theme>, i: nat)
    requires Requested(themes) && i < |themes|
    ensures Has(Merge(source, rows, themes), RegistrationId(themes[i].original))
    decreases themes
  {
    hide Step, Has, HasAlias, Rowcount, Requested;
    var next := Step(source, rows, themes[0]);
    if i > 0 {
      RequestedTail(themes);
      EveryThemeRegistered(source, next, themes[1..], i - 1);
    } else {
      var id := RegistrationId(themes[0].original);
      StepCount(source, rows, themes[0], Lower(id));
      HasCount(next, id);
      HasCount(rows, id);
      assert Lower(NATIVE_ID) == NATIVE_ID;
      forall j | 0 <= j < |themes[1..]| && HasAlias(themes[1..][j].original)
        ensures Lower(id) == NATIVE_ID || Lower(id) !in ALIAS_SLOTS
      {
        BeforeAlias(themes, 0, j + 1);
      }
      SlotStays(source, next, themes[1..], id);
    }
  }

  /** The slots in which the merge puts a row of its own. */
  predicate Touches(rows: Rows, themes: seq<Theme>, slots: set<string>) {
    forall i :: 0 <= i < |themes| ==>
      if HasAlias(themes[i].original) then ALIAS_SLOTS <= slots
      else Has(rows, themes[i].original) || Lower(themes[i].original) in slots
  }

  lemma TouchesNext(source: Rows, rows: Rows, themes: seq<Theme>, slots: set<string>)
    requires themes != [] && Touches(rows, themes, slots)
    ensures Touches(Step(source, rows, themes[0]), themes[1..], slots)
  {
    hide Step, Has, HasAlias, Rowcount;
    var next := Step(source, rows, themes[0]);
    forall i | 0 <= i < |themes[1..]|
      ensures if HasAlias(themes[1..][i].original) then ALIAS_SLOTS <= slots
              else Has(next, themes[1..][i].original) || Lower(themes[1..][i].original) in slots
    {
      var t := themes[1..][i];
      assert t == themes[i + 1];
      StepCount(source, rows, themes[0], Lower(t.original));
      HasCount(rows, t.original);
      HasCount(next, t.original);
    }
  }

  lemma StepDrop(source: Rows, rows: Rows, t: Theme, slots: set<string>)
    requires Touches(rows, [t], slots)
    ensures Drop(Step(source, rows, t), slots) == Drop(rows, slots)
  {
    hide Insert, Has, HasAlias;
    assert [t][0] == t;
    assert Lower(NATIVE_ID) == NATIVE_ID;
    if HasAlias(t.original) {
      InsertFacts(source, Drop(rows, ALIAS_SLOTS), t, slots, "");
      DropDrop(rows, ALIAS_SLOTS, slots);
      assert NATIVE_ID in ALIAS_SLOTS;
    } else {
      InsertFacts(source, rows, t, slots, "");
    }
  }

  /**
   Apart from the slots it has to fill, the merge neither adds, removes nor reorders rows: what remains outside
   these slots is the same sequence as before.
   */
  lemma {:induction false} OtherRowsKept(source: Rows, rows: Rows, themes: seq<Theme>, slots: set<string>)
    requires Touches(rows, themes, slots)
    ensures Drop(Merge(source, rows, themes), slots) == Drop(rows, slots)
    decreases themes
  {
    hide Step, Touches;
    if themes != [] {
      TouchesNext(source, rows, themes, slots);
      TouchesFirst(rows, themes, slots);
      StepDrop(source, rows, themes[0], slots);
      OtherRowsKept(source, Step(source, rows, themes[0]), themes[1..], slots);
    }
  }

  lemma TouchesFirst(rows: Rows, themes: seq<Theme>, slots: set<string>)
    requires themes != [] && Touches(rows, themes, slots)
    ensures Touches(rows, [themes[0]], slots)
  {
  }

  predicate Asks(themes: seq<Theme>, slot: string) {
    exists i :: 0 <= i < |themes| && !HasAlias(themes[i].original) && Lower(themes[i].original) == slot
  }

  predicate AsksAlias(themes: seq<Theme>) {
    exists i :: 0 <= i < |themes| && HasAlias(themes[i].original)
  }

  /** The requested theme that is registered under its own name in this slot, if there is one. */
  function OwnTheme(themes: seq<Theme>, slot: string): Option<Theme> {
    if themes == [] then None
    else if !HasAlias(themes[0].original) && Lower(themes[0].original) == slot then Some(themes[0])
    else OwnTheme(themes[1..], slot)
  }

  function AliasTheme(themes: seq<Theme>): Option<Theme> {
    if themes == [] then None
    else if HasAlias(themes[0].original) then Some(themes[0])
    else AliasTheme(themes[1..])
  }

  lemma {:induction false} AskedThemes(themes: seq<Theme>, slot: string)
    ensures AliasTheme(themes).Some? <==> AsksAlias(themes)
    ensures OwnTheme(themes, slot).Some? <==> Asks(themes, slot)
    ensures AliasTheme(themes).Some? ==>
              AliasTheme(themes).value in themes && HasAlias(AliasTheme(themes).value.original)
    ensures OwnTheme(themes, slot).Some? ==>
              var t := OwnTheme(themes, slot).value;
              t in themes && !HasAlias(t.original) && Lower(t.original) == slot
  {
    hide HasAlias, Lower;
    if themes != [] {
      var rest := themes[1..];
      AskedThemes(rest, slot);
      assert themes == [themes[0]] + rest;
      assert forall i {:trigger rest[i]} :: 0 <= i < |rest| ==> rest[i] == themes[i + 1];
      if AsksAlias(themes) && !HasAlias(themes[0].original) {
        var i :| 0 <= i < |themes| && HasAlias(themes[i].original);
        assert rest[i - 1] == themes[i];
      }
      if Asks(themes, slot) && !(!HasAlias(themes[0].original) && Lower(themes[0].original) == slot) {
        var i :| 0 <= i < |themes| && !HasAlias(themes[i].original) && Lower(themes[i].original) == slot;
        assert rest[i - 1] == themes[i];
      }
    }
  }

  /** The row of a slot after a merge that found none: that of the theme which asks for it. */
  function OwnRow(source: Rows, themes: seq<Theme>, slot: string): Rows {
    var t := OwnTheme(themes, slot);
    if t.None? then [] else [NewRow(source, t.value)]
  }

  lemma {:induction false} PickAppend(a: Rows, b: Rows, slot: string)
    ensures Pick(a + b, slot) == Pick(a, slot) + Pick(b, slot)
  {
    if a == [] {
      assert a + b == b;
    } else {
      hide Pick;
      var rest := a[1..];
      assert a == [a[0]] + rest && a + b == [a[0]] + (rest + b);
      PickAppend(rest, b, slot);
      PickFirst(a[0], rest, slot);
      PickFirst(a[0], rest + b, slot);
      RowsAssociate(Pick([a[0]], slot), Pick(rest, slot), Pick(b, slot));
    }
  }

  lemma PickFirst(row: BmlNode, rest: Rows, slot: string)
    ensures Pick([row] + rest, slot) == Pick([row], slot) + Pick(rest, slot)
  {
    hide Slot;
    assert ([row] + rest)[1..] == rest && [row][1..] == [];
  }

  lemma RowsAssociate(a: Rows, b: Rows, c: Rows)
    ensures (a + b) + c == a + (b + c)
  {
  }

  lemma {:induction false} PickCount(rows: Rows, slot: string)
    ensures |Pick(rows, slot)| == Rowcount(rows, slot)
  {
    if rows != [] { PickCount(rows[1..], slot); }
  }

  lemma {:induction false} PickDrop(rows: Rows, slots: set<string>, slot: string)
    ensures Pick(Drop(rows, slots), slot) == if slot in slots then [] else Pick(rows, slot)
  {
    hide Slot;
    if rows != [] {
      PickDrop(rows[1..], slots, slot);
      assert ([rows[0]] + Drop(rows[1..], slots))[1..] == Drop(rows[1..], slots);
    }
  }

  lemma PickPut(rows: Rows, k: nat, row: BmlNode, slot: string)
    requires k <= |rows| && Slot(row).Some?
    ensures Slot(row) != Some(slot) ==> Pick(PutIn(rows, k, row), slot) == Pick(rows, slot)
    ensures Slot(row) == Some(slot) && Pick(rows, slot) == [] ==> Pick(PutIn(rows, k, row), slot) == [row]
  {
    hide Slot, Pick;
    PickAppend(rows[..k] + [row], rows[k..], slot);
    PickAppend(rows[..k], [row], slot);
    PickAppend(rows[..k], rows[k..], slot);
    assert rows[..k] + rows[k..] == rows;
    PickOne(row, slot);
    if Slot(row) != Some(slot) { assert Pick(rows[..k], slot) + [] == Pick(rows[..k], slot); }
  }

  lemma PickOne(row: BmlNode, slot: string)
    ensures Pick([row], slot) == if Slot(row) == Some(slot) then [row] else []
  {
    assert [row][1..] == [];
  }

  lemma InsertPick(source: Rows, rows: Rows, t: Theme, slot: string)
    ensures slot != SlotOf(t) ==> Pick(Insert(source, rows, t), slot) == Pick(rows, slot)
    ensures slot == SlotOf(t) && Pick(rows, slot) == [] ==> Pick(Insert(source, rows, t), slot) == [NewRow(source, t)]
  {
    hide Slot, NewRow, Insertion, RegistrationId, Id, PutIn, Pick;
    NewRowSlot(source, t);
    SlotIs(NewRow(source, t), RegistrationId(t.original));
    PickPut(rows, Insertion(source, rows, t), NewRow(source, t), slot);
  }

  lemma OwnRowTail(source: Rows, themes: seq<Theme>, slot: string)
    requires themes != [] && (HasAlias(themes[0].original) || Lower(themes[0].original) != slot)
    ensures OwnRow(source, themes, slot) == OwnRow(source, themes[1..], slot)
  {
  }

  /** The rows that a merge with the aliased theme leaves in the three slots it clears. */
  lemma {:induction false} AliasPicks(source: Rows, rows: Rows, themes: seq<Theme>)
    requires Requested(themes) && AsksAlias(themes)
    ensures var m := Merge(source, rows, themes);
            && AliasTheme(themes).Some?
            && Pick(m, NATIVE_ID) == [NewRow(source, AliasTheme(themes).value)]
            && Pick(m, ALIASED) == []
            && Pick(m, NATIVE_CODE) == OwnRow(source, themes, NATIVE_CODE)
    decreases themes
  {
    hide Has, HasAlias, Pick, Requested, Insert, NewRow, Drop, OwnRow;
    var t := themes[0];
    if HasAlias(t.original) {
      var cleared := Drop(rows, ALIAS_SLOTS);
      assert SlotOf(t) == NATIVE_ID by { assert Lower(NATIVE_ID) == NATIVE_ID; }
      assert NATIVE_ID in ALIAS_SLOTS && ALIASED in ALIAS_SLOTS && NATIVE_CODE in ALIAS_SLOTS;
      forall slot | slot in ALIAS_SLOTS
        ensures Pick(Insert(source, cleared, t), slot) == if slot == NATIVE_ID then [NewRow(source, t)] else []
      {
        PickDrop(rows, ALIAS_SLOTS, slot);
        InsertPick(source, cleared, t, slot);
      }
      AfterAlias(themes);
      PicksSettle(source, Insert(source, cleared, t), themes[1..]);
      OwnRowTail(source, themes, NATIVE_CODE);
    } else {
      var j :| 0 <= j < |themes| && HasAlias(themes[j].original);
      BeforeAlias(themes, 0, j);
      assert themes[1..][j - 1] == themes[j];
      RequestedTail(themes);
      AliasPicks(source, Step(source, rows, t), themes[1..]);
      OwnRowTail(source, themes, NATIVE_CODE);
    }
  }

  lemma AliasCounts(source: Rows, rows: Rows, themes: seq<Theme>)
    requires Requested(themes) && AsksAlias(themes)
    ensures Rowcount(Merge(source, rows, themes), NATIVE_ID) == 1
    ensures Rowcount(Merge(source, rows, themes), ALIASED) == 0
    ensures Rowcount(Merge(source, rows, themes), NATIVE_CODE) == if Asks(themes, NATIVE_CODE) then 1 else 0
  {
    hide Merge, Requested, Pick, Rowcount;
    var m := Merge(source, rows, themes);
    AliasPicks(source, rows, themes);
    AskedThemes(themes, NATIVE_CODE);
    PickCount(m, NATIVE_ID);
    PickCount(m, ALIASED);
    PickCount(m, NATIVE_CODE);
  }

  /** Only one requested theme can be the aliased one. */
  lemma AfterAlias(themes: seq<Theme>)
    requires Requested(themes) && themes != [] && HasAlias(themes[0].original)
    ensures Requested(themes[1..]) && !AsksAlias(themes[1..])
  {
    hide IsNative, FoldPath;
    RequestedTail(themes);
    if AsksAlias(themes[1..]) {
      var j :| 0 <= j < |themes[1..]| && HasAlias(themes[1..][j].original);
      var a, b := themes[0], themes[j + 1];
      assert b == themes[1..][j];
      assert LexLess(a.key, b.key);
      AliasKey(a);
      AliasKey(b);
      LexIrreflexive(ALIASED);
    }
  }

  /** Without the aliased theme nothing else enters its slots; the borrowed code gets a row when it is asked for. */
  lemma {:induction false} PicksSettle(source: Rows, rows: Rows, themes: seq<Theme>)
    requires Requested(themes) && !AsksAlias(themes)
    ensures var m := Merge(source, rows, themes);
            && Pick(m, NATIVE_ID) == Pick(rows, NATIVE_ID)
            && Pick(m, ALIASED) == Pick(rows, ALIASED)
            && Pick(m, NATIVE_CODE)
            == if Pick(rows, NATIVE_CODE) == [] then OwnRow(source, themes, NATIVE_CODE) else Pick(rows, NATIVE_CODE)
    decreases themes
  {
    hide Has, HasAlias, Pick, Requested, Insert, NewRow, OwnRow;
    if themes == [] {
      assert OwnRow(source, themes, NATIVE_CODE) == [] by { NobodyAsks(source, themes, NATIVE_CODE); }
    } else {
      var t := themes[0];
      assert !HasAlias(t.original);
      RequestedTail(themes);
      assert forall j :: 0 <= j < |themes[1..]| ==> themes[1..][j] == themes[j + 1];
      OrdinaryTheme(themes);
      HasPick(rows, t.original);
      InsertPick(source, rows, t, NATIVE_ID);
      InsertPick(source, rows, t, ALIASED);
      InsertPick(source, rows, t, NATIVE_CODE);
      PicksSettle(source, Step(source, rows, t), themes[1..]);
      if Lower(t.original) != NATIVE_CODE {
        OwnRowTail(source, themes, NATIVE_CODE);
      } else {
        OwnRowHead(source, themes, NATIVE_CODE);
      }
    }
  }

  lemma NobodyAsks(source: Rows, themes: seq<Theme>, slot: string)
    requires themes == []
    ensures OwnRow(source, themes, slot) == []
  {
  }

  lemma OwnRowHead(source: Rows, themes: seq<Theme>, slot: string)
    requires themes != [] && !HasAlias(themes[0].original) && Lower(themes[0].original) == slot
    ensures OwnRow(source, themes, slot) == [NewRow(source, themes[0])]
  {
  }

  lemma HasPick(rows: Rows, id: string)
    ensures Has(rows, id) <==> Pick(rows, Lower(id)) != []
  {
    hide Has, Pick, Rowcount;
    HasCount(rows, id);
    PickCount(rows, Lower(id));
  }

  lemma OrdinaryTheme(themes: seq<Theme>)
    requires Requested(themes) && themes != [] && !HasAlias(themes[0].original)
    ensures Lower(themes[0].original) != NATIVE_ID && Lower(themes[0].original) != ALIASED
  {
    hide IsNative, FoldPath;
    var theme := themes[0].original;
    assert IsNative(theme) || HasAlias(theme);
    NativesAreNoNumber(theme);
    assert |Lower(theme)| == |theme|;
    assert Lower(ALIASED) == ALIASED;
  }

  /** With the aliased theme requested, its slot ends with exactly one row and its old spellings with none. */
  lemma OneAliasRow(source: Rows, rows: Rows, themes: seq<Theme>)
    requires Requested(themes) && AsksAlias(themes) && !Asks(themes, NATIVE_CODE)
    ensures var after := Merge(source, rows, themes);
            Rowcount(after, NATIVE_ID) == 1 && Rowcount(after, NATIVE_CODE) == 0 && Rowcount(after, ALIASED) == 0
  {
    AliasCounts(source, rows, themes);
  }

  // --------------------------------------------------------------- idempotence

  lemma {:induction false} AllThere(source: Rows, rows: Rows, themes: seq<Theme>)
    requires forall i :: 0 <= i < |themes| ==> !HasAlias(themes[i].original) && Has(rows, themes[i].original)
    ensures Merge(source, rows, themes) == rows
    decreases themes
  {
    hide Has, HasAlias, Insert;
    if themes != [] {
      assert forall i :: 0 <= i < |themes[1..]| ==> themes[1..][i] == themes[i + 1];
      AllThere(source, rows, themes[1..]);
    }
  }

  /** What a merge makes of rows that lack no theme: the aliased row is placed anew, and the borrowed code's row. */
  function Replaced(source: Rows, rows: Rows, themes: seq<Theme>): Rows
    requires AliasTheme(themes).Some?
  {
    var placed := Insert(source, Drop(rows, ALIAS_SLOTS), AliasTheme(themes).value);
    var borrowed := OwnTheme(themes, NATIVE_CODE);
    if borrowed.None? then placed else Insert(source, placed, borrowed.value)
  }

  lemma {:induction false} OnlyBorrowed(source: Rows, rows: Rows, themes: seq<Theme>)
    requires Requested(themes) && !AsksAlias(themes)
    requires forall t :: t in themes ==> Has(rows, t.original) || Lower(t.original) == NATIVE_CODE
    requires Pick(rows, NATIVE_CODE) == []
    ensures Merge(source, rows, themes)
         == match OwnTheme(themes, NATIVE_CODE)
            case None => rows
            case Some(borrowed) => Insert(source, rows, borrowed)
    decreases themes
  {
    hide Has, HasAlias, Pick, Requested, Insert, Rowcount;
    if themes != [] {
      var t, rest := themes[0], themes[1..];
      assert !HasAlias(t.original);
      assert themes == [t] + rest;
      assert forall j :: 0 <= j < |rest| ==> rest[j] == themes[j + 1];
      RequestedTail(themes);
      HasPick(rows, t.original);
      if Lower(t.original) != NATIVE_CODE {
        OnlyBorrowed(source, rows, rest);
      } else {
        var next := Insert(source, rows, t);
        forall i | 0 <= i < |rest|
          ensures !HasAlias(rest[i].original) && Has(next, rest[i].original)
        {
          assert rest[i] in themes;
          StepCount(source, rows, t, Lower(rest[i].original));
          HasCount(rows, rest[i].original);
          HasCount(next, rest[i].original);
        }
        AllThere(source, next, rest);
      }
    }
  }

  /** A merge of rows that have every other theme already depends only on the rows outside the cleared slots. */
  lemma {:induction false} MergeReplaces(source: Rows, rows: Rows, themes: seq<Theme>)
    requires Requested(themes) && AsksAlias(themes) && Touches(rows, themes, ALIAS_SLOTS)
    ensures AliasTheme(themes).Some? && Merge(source, rows, themes) == Replaced(source, rows, themes)
    decreases themes
  {
    hide Has, HasAlias, Insert, Requested, Rowcount, Drop, Pick;
    var t, rest := themes[0], themes[1..];
    if HasAlias(t.original) {
      var cleared := Drop(rows, ALIAS_SLOTS);
      var placed := Insert(source, cleared, t);
      AfterAlias(themes);
      assert SlotOf(t) == NATIVE_ID by { assert Lower(NATIVE_ID) == NATIVE_ID; }
      assert NATIVE_CODE in ALIAS_SLOTS;
      PickDrop(rows, ALIAS_SLOTS, NATIVE_CODE);
      InsertPick(source, cleared, t, NATIVE_CODE);
      forall u | u in rest
        ensures Has(placed, u.original) || Lower(u.original) == NATIVE_CODE
      {
        var i :| 0 <= i < |rest| && rest[i] == u;
        LaterTheme(source, rows, themes, i + 1);
      }
      OnlyBorrowed(source, placed, rest);
    } else {
      var j :| 0 <= j < |themes| && HasAlias(themes[j].original);
      BeforeAlias(themes, 0, j);
      assert rest[j - 1] == themes[j];
      assert Has(rows, t.original);
      RequestedTail(themes);
      TouchesNext(source, rows, themes, ALIAS_SLOTS);
      MergeReplaces(source, rows, rest);
    }
  }

  /** A theme behind the aliased one keeps its row when the aliased one is placed, unless it is the borrowed code. */
  lemma LaterTheme(source: Rows, rows: Rows, themes: seq<Theme>, i: nat)
    requires Requested(themes) && 0 < i < |themes| && HasAlias(themes[0].original) && Touches(rows, themes, ALIAS_SLOTS)
    ensures Has(Step(source, rows, themes[0]), themes[i].original) || Lower(themes[i].original) == NATIVE_CODE
  {
    hide Has, HasAlias, Insert, Rowcount, Step, IsNative, FoldPath;
    var u := themes[i];
    AfterAlias(themes);
    assert themes[1..][i - 1] == u;
    assert !HasAlias(u.original);
    OrdinaryTheme(themes[i..]) by { assert themes[i..][0] == u; RequestedFrom(themes, i); }
    StepCount(source, rows, themes[0], Lower(u.original));
    HasCount(rows, u.original);
    HasCount(Step(source, rows, themes[0]), u.original);
  }

  lemma RequestedFrom(themes: seq<Theme>, i: nat)
    requires Requested(themes) && i <= |themes|
    ensures Requested(themes[i..])
  {
    hide IsNative, HasAlias, FoldPath;
  }

  lemma MergedTouches(source: Rows, rows: Rows, themes: seq<Theme>)
    requires Requested(themes)
    ensures Touches(Merge(source, rows, themes), themes, ALIAS_SLOTS)
  {
    hide Has, Merge, Requested;
    forall i | 0 <= i < |themes| && !HasAlias(themes[i].original)
      ensures Has(Merge(source, rows, themes), themes[i].original)
    {
      EveryThemeRegistered(source, rows, themes, i);
    }
  }

  /**
   The aliased row stands where it would be inserted into the rows outside its slots, and the borrowed code's row,
   when it is asked for, where it would be inserted into the rows without it.
   */
  predicate InPlace(source: Rows, m: Rows, themes: seq<Theme>)
    requires AliasTheme(themes).Some?
  {
    var rest, unborrowed := Drop(m, ALIAS_SLOTS), Drop(m, {NATIVE_CODE});
    && SlotIndex(unborrowed, NATIVE_ID) == Insertion(source, rest, AliasTheme(themes).value)
    && var borrowed := OwnTheme(themes, NATIVE_CODE);
       borrowed.Some? ==> SlotIndex(m, NATIVE_CODE) == Insertion(source, unborrowed, borrowed.value)
  }

  /** A row put in where no other row holds its slot is found at its place, and dropping its slot undoes it. */
  lemma PutUndone(rows: Rows, k: nat, row: BmlNode, slot: string)
    requires k <= |rows| && Slot(row) == Some(slot) && Pick(rows, slot) == []
    ensures SlotIndex(PutIn(rows, k, row), slot) == k
    ensures Drop(PutIn(rows, k, row), {slot}) == rows
  {
    hide Slot, Drop, Pick, SlotIndex;
    PickAppend(rows[..k], rows[k..], slot);
    assert rows[..k] + rows[k..] == rows;
    FirstBehind(rows[..k], [row] + rows[k..], slot);
    assert PutIn(rows, k, row) == rows[..k] + ([row] + rows[k..]);
    DropsMiddle(rows[..k], row, rows[k..], slot);
  }

  lemma DropsMiddle(front: Rows, row: BmlNode, back: Rows, slot: string)
    requires Slot(row) == Some(slot) && Pick(front, slot) == [] && Pick(back, slot) == []
    ensures Drop(front + ([row] + back), {slot}) == front + back
  {
    hide Slot, Pick;
    DropAppend(front, [row] + back, {slot});
    DropAppend([row], back, {slot});
    assert Drop([row], {slot}) == [] by { assert [row][1..] == []; }
    DropNone(front, slot);
    DropNone(back, slot);
  }

  lemma {:induction false} DropNone(rows: Rows, slot: string)
    requires Pick(rows, slot) == []
    ensures Drop(rows, {slot}) == rows
  {
    hide Slot;
    if rows != [] { DropNone(rows[1..], slot); }
  }

  lemma {:induction false} FirstBehind(a: Rows, b: Rows, slot: string)
    requires Pick(a, slot) == [] && b != [] && Slot(b[0]) == Some(slot)
    ensures SlotIndex(a + b, slot) == |a|
  {
    hide Slot;
    if a == [] {
      assert a + b == b;
    } else {
      assert (a + b)[1..] == a[1..] + b;
      FirstBehind(a[1..], b, slot);
    }
  }

  /** Rows with a single holder of a slot are the others with that holder put in at its place. */
  lemma {:induction false} PutRedone(m: Rows, row: BmlNode, slot: string)
    requires Pick(m, slot) == [row]
    ensures Slot(row) == Some(slot)
    ensures SlotIndex(m, slot) <= |Drop(m, {slot})| && m == PutIn(Drop(m, {slot}), SlotIndex(m, slot), row)
  {
    hide Slot;
    if Slot(m[0]) == Some(slot) {
      assert Pick(m, slot)[0] == m[0] && |Pick(m[1..], slot)| == 0;
      DropNone(m[1..], slot);
      assert m == [m[0]] + m[1..];
    } else {
      PutRedone(m[1..], row, slot);
      var rest, k := Drop(m[1..], {slot}), SlotIndex(m[1..], slot);
      assert ([m[0]] + rest)[..k + 1] == [m[0]] + rest[..k];
      assert ([m[0]] + rest)[k + 1..] == rest[k..];
      assert m == [m[0]] + m[1..];
    }
  }

  /** So a row with a slot of its own stands at a place exactly when putting it in there gives the same rows. */
  lemma PutExactly(m: Rows, k: nat, row: BmlNode, slot: string)
    requires Pick(m, slot) == [row] && k <= |Drop(m, {slot})|
    ensures PutIn(Drop(m, {slot}), k, row) == m <==> SlotIndex(m, slot) == k
  {
    hide Pick, Drop, PutIn, SlotIndex, Slot;
    PutRedone(m, row, slot);
    PickDrop(m, {slot}, slot);
    PutUndone(Drop(m, {slot}), k, row, slot);
  }

  lemma DropBoth(m: Rows)
    requires Pick(m, ALIASED) == []
    ensures Drop(m, ALIAS_SLOTS) == Drop(Drop(m, {NATIVE_CODE}), {NATIVE_ID})
  {
    hide Drop, Pick;
    DropNone(m, ALIASED);
    var two := {NATIVE_CODE, NATIVE_ID};
    DropTwo(m, {NATIVE_CODE}, {NATIVE_ID});
    DropTwo(m, {ALIASED}, two);
    assert {ALIASED} + two == ALIAS_SLOTS;
    assert {NATIVE_CODE} + {NATIVE_ID} == two;
  }

  lemma {:induction false} DropTwo(rows: Rows, a: set<string>, b: set<string>)
    ensures Drop(Drop(rows, a), b) == Drop(rows, a + b)
  {
    hide Slot;
    if rows != [] {
      DropTwo(rows[1..], a, b);
      assert ([rows[0]] + Drop(rows[1..], a))[1..] == Drop(rows[1..], a);
    }
  }

  /** Placing the aliased rows anew changes nothing exactly when they stand in place. */
  lemma ReplacedInPlace(source: Rows, m: Rows, themes: seq<Theme>)
    requires AliasTheme(themes).Some?
    requires Pick(m, NATIVE_ID) == [NewRow(source, AliasTheme(themes).value)] && Pick(m, ALIASED) == []
    requires Pick(m, NATIVE_CODE) == OwnRow(source, themes, NATIVE_CODE)
    ensures Replaced(source, m, themes) == m <==> InPlace(source, m, themes)
  {
    hide Pick, Drop, PutIn, SlotIndex, Slot, NewRow, Insertion, AliasTheme, OwnTheme;
    var alias, borrowed := AliasTheme(themes).value, OwnTheme(themes, NATIVE_CODE);
    var unborrowed := Drop(m, {NATIVE_CODE});
    DropBoth(m);
    PickDrop(m, {NATIVE_CODE}, NATIVE_ID);
    var k := Insertion(source, Drop(m, ALIAS_SLOTS), alias);
    PutExactly(unborrowed, k, NewRow(source, alias), NATIVE_ID);
    var placed := Insert(source, Drop(m, ALIAS_SLOTS), alias);
    if borrowed.None? {
      DropNone(m, NATIVE_CODE);
    } else {
      var row, j := NewRow(source, borrowed.value), Insertion(source, placed, borrowed.value);
      PutRedone(m, row, NATIVE_CODE);
      PickDrop(m, ALIAS_SLOTS, NATIVE_CODE);
      assert NATIVE_CODE in ALIAS_SLOTS;
      PickPut(Drop(m, ALIAS_SLOTS), k, NewRow(source, alias), NATIVE_CODE) by {
        PutRedone(m, NewRow(source, alias), NATIVE_ID);
      }
      assert Pick(placed, NATIVE_CODE) == [] by { PutRedone(m, NewRow(source, alias), NATIVE_ID); }
      PutUndone(placed, j, row, NATIVE_CODE);
      if placed == unborrowed { PutExactly(m, j, row, NATIVE_CODE); }
    }
  }

  /**
   Every requested theme has its row; if the aliased theme is asked for, its slots hold exactly the rows it would get,
   and these stand where they would be inserted.
   */
  predicate Settled(source: Rows, rows: Rows, themes: seq<Theme>)
    requires AsksAlias(themes) ==> AliasTheme(themes).Some?
  {
    if !AsksAlias(themes) then Touches(rows, themes, {})
    else
      && Touches(rows, themes, ALIAS_SLOTS)
      && Pick(rows, NATIVE_ID) == [NewRow(source, AliasTheme(themes).value)]
      && Pick(rows, ALIASED) == []
      && Pick(rows, NATIVE_CODE) == OwnRow(source, themes, NATIVE_CODE)
      && InPlace(source, rows, themes)
  }

  /** A merge leaves a catalog as it is exactly when the catalog is settled, whatever catalog it is. */
  lemma FixedExactly(source: Rows, rows: Rows, themes: seq<Theme>)
    requires Requested(themes)
    ensures AsksAlias(themes) ==> AliasTheme(themes).Some?
    ensures Merge(source, rows, themes) == rows <==> Settled(source, rows, themes)
  {
    hide Merge, Requested, Touches, Replaced, InPlace, AsksAlias, Has, HasAlias, OwnRow, NewRow, Pick;
    AskedThemes(themes, NATIVE_CODE);
    if AsksAlias(themes) {
      AliasPicks(source, rows, themes);
      MergedTouches(source, rows, themes);
      if Touches(rows, themes, ALIAS_SLOTS) { MergeReplaces(source, rows, themes); }
      if Merge(source, rows, themes) == rows || Settled(source, rows, themes) {
        ReplacedInPlace(source, rows, themes);
      }
    } else {
      MergedThere(source, rows, themes);
      if Touches(rows, themes, {}) { MergeTouched(source, rows, themes); }
    }
  }

  lemma Unaliased(themes: seq<Theme>, i: nat)
    requires !AsksAlias(themes) && i < |themes|
    ensures !HasAlias(themes[i].original)
  {
  }

  lemma MergedThere(source: Rows, rows: Rows, themes: seq<Theme>)
    requires Requested(themes) && !AsksAlias(themes)
    ensures Touches(Merge(source, rows, themes), themes, {})
  {
    hide Merge, Requested, Has, HasAlias;
    forall i | 0 <= i < |themes|
      ensures !HasAlias(themes[i].original) && Has(Merge(source, rows, themes), themes[i].original)
    {
      EveryThemeRegistered(source, rows, themes, i);
      assert !HasAlias(themes[i].original) by { Unaliased(themes, i); }
    }
  }

  lemma MergeTouched(source: Rows, rows: Rows, themes: seq<Theme>)
    requires !AsksAlias(themes) && Touches(rows, themes, {})
    ensures Merge(source, rows, themes) == rows
  {
    hide Merge, Has, HasAlias;
    forall i | 0 <= i < |themes|
      ensures !HasAlias(themes[i].original) && Has(rows, themes[i].original)
    {
      Unaliased(themes, i);
    }
    AllThere(source, rows, themes);
  }

  /**
   Exactly when a second merge of a merged catalog is quiet: always without the aliased theme, and with it when its
   row, and the borrowed code's, stand where an insertion puts them.
   */
  lemma QuietExactly(source: Rows, rows: Rows, themes: seq<Theme>)
    requires Requested(themes)
    ensures AsksAlias(themes) ==> AliasTheme(themes).Some?
    ensures var m := Merge(source, rows, themes);
            Merge(source, m, themes) == m <==> (AsksAlias(themes) ==> InPlace(source, m, themes))
  {
    hide Merge, Requested, Touches, InPlace, AsksAlias, OwnRow, NewRow, Pick;
    FixedExactly(source, Merge(source, rows, themes), themes);
    if AsksAlias(themes) {
      AliasPicks(source, rows, themes);
      MergedTouches(source, rows, themes);
    } else {
      MergedThere(source, rows, themes);
    }
  }

  /** Without the aliased theme, merging again changes nothing. */
  lemma IdempotentWithoutAlias(source: Rows, rows: Rows, themes: seq<Theme>)
    requires Requested(themes) && !AsksAlias(themes)
    ensures Merge(source, Merge(source, rows, themes), themes) == Merge(source, rows, themes)
  {
    hide Merge, Requested;
    QuietExactly(source, rows, themes);
  }

  /** Every theme that is processed after the aliased one has a row already, the borrowed code aside. */
  predicate LaterThere(rows: Rows, themes: seq<Theme>) {
    forall t :: t in themes && !HasAlias(t.original) && LexLess(ALIASED, t.key)
      ==> Has(rows, t.original) || Lower(t.original) in ALIAS_SLOTS
  }

  lemma {:induction false} PlacedAtOnce(source: Rows, rows: Rows, themes: seq<Theme>)
    requires Requested(themes) && AsksAlias(themes) && LaterThere(rows, themes)
    ensures var m := Merge(source, rows, themes);
            AliasTheme(themes).Some? && m == Replaced(source, m, themes)
    decreases themes
  {
    hide Has, HasAlias, Insert, Requested, Rowcount, Drop, Touches, LexLess;
    var t, rest := themes[0], themes[1..];
    assert themes == [t] + rest;
    if HasAlias(t.original) {
      LaterTouches(rows, themes);
      MergeReplaces(source, rows, themes);
      OtherRowsKept(source, rows, themes, ALIAS_SLOTS);
    } else {
      var j :| 0 <= j < |themes| && HasAlias(themes[j].original);
      BeforeAlias(themes, 0, j);
      assert rest[j - 1] == themes[j];
      RequestedTail(themes);
      var next := Step(source, rows, t);
      forall u | u in rest && !HasAlias(u.original) && LexLess(ALIASED, u.key)
        ensures Has(next, u.original) || Lower(u.original) in ALIAS_SLOTS
      {
        assert u in themes;
        StepCount(source, rows, t, Lower(u.original));
        HasCount(rows, u.original);
        HasCount(next, u.original);
      }
      PlacedAtOnce(source, next, rest);
    }
  }

  lemma LaterTouches(rows: Rows, themes: seq<Theme>)
    requires Requested(themes) && themes != [] && HasAlias(themes[0].original) && LaterThere(rows, themes)
    ensures Touches(rows, themes, ALIAS_SLOTS)
  {
    hide Has, IsNative, FoldPath, LexLess;
    AliasKey(themes[0]);
    AfterAlias(themes);
    forall i | 0 <= i < |themes| && !HasAlias(themes[i].original)
      ensures Has(rows, themes[i].original) || Lower(themes[i].original) in ALIAS_SLOTS
    {
      assert LexLess(themes[0].key, themes[i].key);
      assert themes[i] in themes;
    }
  }

  /** With the aliased theme, merging again changes nothing when every theme processed after it had a row. */
  lemma IdempotentWithAlias(source: Rows, rows: Rows, themes: seq<Theme>)
    requires Requested(themes) && AsksAlias(themes) && LaterThere(rows, themes)
    ensures AliasTheme(themes).Some?
    ensures var m := Merge(source, rows, themes); InPlace(source, m, themes) && Merge(source, m, themes) == m
  {
    hide Merge, Requested, Touches, Replaced, InPlace, AsksAlias, LaterThere;
    hide Pick, OwnRow, NewRow, AliasTheme, OwnTheme;
    var m := Merge(source, rows, themes);
    AliasPicks(source, rows, themes);
    PlacedAtOnce(source, rows, themes);
    ReplacedInPlace(source, m, themes);
    QuietExactly(source, rows, themes);
  }

  // --------------------------------------------- when merging again does change

  function Plain(id: string): BmlNode {
    BmlNode("theme", "", [("id", id)], [])
  }

  lemma PlainId(id: string)
    ensures Id(Plain(id)) == Some(id)
  {
  }

  lemma FirstHit(rows: Rows, folded: string, id: string)
    requires rows != [] && Id(rows[0]) == Some(id)
    ensures FoldedIndex(rows, folded) == if FoldPath(id) == folded then 0 else 1 + FoldedIndex(rows[1..], folded)
  {
  }

  lemma Words()
    ensures FoldPath("forest") == "forest" && FoldPath("ice") == "ice"
    ensures FoldPath("fengshen") == "fengshen" && FoldPath("17") == "17"
    ensures Lower("forest") == "forest" && Lower("ice") == "ice" && Lower("17") == "17"
    ensures HasAlias("fengshen") && !HasAlias("forest")
    ensures RegistrationId("forest") == "forest" && RegistrationId("fengshen") == "17"
  {
    PlainFold("forest");
    PlainFold("ice");
    PlainFold("fengshen");
    PlainFold("17");
    assert Lower("forest") == "forest" && Lower("ice") == "ice";
    assert Lower("17") == "17" && Lower("fengshen") == "fengshen";
  }

  /** The aliased row goes before the first later neighbour that the target has. */
  lemma AliasBeforeIce(front: Rows, ice: BmlNode)
    requires Id(ice) == Some("ice")
    requires front == [] || (|front| == 1 && Id(front[0]) == Some("forest"))
    ensures var source := [Plain("forest"), Plain("fengshen"), ice];
            Insertion(source, front + [ice], Theme("fengshen", "fengshen")) == |front|
  {
    hide Id, FoldPath, FoldedIndex, RegistrationId, HasAlias, Lower;
    Words();
    PlainId("forest");
    PlainId("fengshen");
    var source, rows := [Plain("forest"), Plain("fengshen"), ice], front + [ice];
    FirstHit(source, "fengshen", "forest");
    FirstHit(source[1..], "fengshen", "fengshen");
    assert source[2..] == [ice];
    FirstHit(rows[|front|..], "ice", "ice");
    if front != [] { FirstHit(rows, "ice", "forest"); } else { assert rows[0..] == rows; }
    assert RowOf(rows, ice) == Some(|front|);
  }

  lemma ForestBehindAlias(alias: BmlNode, ice: BmlNode)
    requires Id(ice) == Some("ice") && Id(alias) == Some("17")
    ensures Insertion([Plain("forest"), Plain("fengshen"), ice], [alias, ice], Theme("forest", "forest")) == 1
  {
    hide Id, FoldPath, FoldedIndex, RegistrationId, HasAlias, Lower;
    Words();
    PlainId("forest");
    PlainId("fengshen");
    var source, rows := [Plain("forest"), Plain("fengshen"), ice], [alias, ice];
    FirstHit(source, "forest", "forest");
    var later := source[1..];
    FirstHit(rows, "fengshen", "17");
    FirstHit(rows[1..], "fengshen", "ice");
    FirstHit(rows, "ice", "17");
    FirstHit(rows[1..], "ice", "ice");
    NoFoldedIndex(rows[1..][1..], "fengshen");
    assert RowOf(rows, Plain("fengshen")) == None;
    assert RowOf(rows, ice) == Some(1);
    assert later[0] == Plain("fengshen") && later[1..] == [ice];
    assert NextAnchor([ice], rows) == Some(1);
    assert NextAnchor(later, rows) == Some(1);
    assert FoldedIndex(source, "forest") == 0;
  }

  lemma NoFoldedIndex(rows: Rows, folded: string)
    requires rows == []
    ensures FoldedIndex(rows, folded) == 0
  {
  }

  lemma InsertAt(source: Rows, rows: Rows, t: Theme, k: nat)
    requires Insertion(source, rows, t) == k
    ensures Insert(source, rows, t) == rows[..k] + [NewRow(source, t)] + rows[k..]
  {
  }

  /** The aliased theme in the catalogs below: its row leaves its place and goes before `ice`. */
  lemma AliasStep(rows: Rows, front: Rows, ice: BmlNode)
    requires Id(ice) == Some("ice") && Drop(rows, ALIAS_SLOTS) == front + [ice]
    requires front == [] || (|front| == 1 && Id(front[0]) == Some("forest"))
    ensures var source, first := [Plain("forest"), Plain("fengshen"), ice], Theme("fengshen", "fengshen");
            Step(source, rows, first) == front + [NewRow(source, first), ice]
  {
    hide Id, Slot, Drop, FoldPath, FoldedIndex, RegistrationId, HasAlias, Lower, Insertion, Insert, NewRow, Has;
    var source, first := [Plain("forest"), Plain("fengshen"), ice], Theme("fengshen", "fengshen");
    Words();
    AliasBeforeIce(front, ice);
    InsertAt(source, front + [ice], first, |front|);
    assert (front + [ice])[..|front|] == front && (front + [ice])[|front|..] == [ice];
    assert front + [NewRow(source, first)] + [ice] == front + [NewRow(source, first), ice];
  }

  /** The other theme is put behind the aliased row, before `ice`. */
  lemma ForestStep(alias: BmlNode, ice: BmlNode)
    requires Id(ice) == Some("ice") && Id(alias) == Some("17")
    ensures var source, second := [Plain("forest"), Plain("fengshen"), ice], Theme("forest", "forest");
            Step(source, [alias, ice], second) == [alias, NewRow(source, second), ice]
  {
    hide Id, Slot, Drop, FoldPath, FoldedIndex, RegistrationId, HasAlias, Lower, Insertion, Insert, NewRow, Has;
    var source, second := [Plain("forest"), Plain("fengshen"), ice], Theme("forest", "forest");
    Words();
    SlotIs(ice, "ice");
    SlotIs(alias, "17");
    NotThere([alias, ice], "forest");
    ForestBehindAlias(alias, ice);
    InsertAt(source, [alias, ice], second, 1);
  }

  /** The themes of the catalog below are a request as the installer makes it. */
  lemma WitnessRequested()
    ensures Requested([Theme("fengshen", "fengshen"), Theme("forest", "forest")])
  {
    hide FoldPath, Lower;
    Words();
    var themes := [Theme("fengshen", "fengshen"), Theme("forest", "forest")];
    assert IsNative("forest") by { assert SameText(NATIVE_THEMES[1], "forest"); }
    assert LexLess("engshen", "orest");
    assert "fengshen"[1..] == "engshen" && "forest"[1..] == "orest";
    assert LexLess("fengshen", "forest");
  }

  /** A theme inserted by the first merge can be the neighbour that moves the aliased row in the second. */
  lemma SecondMergeCanChange()
    ensures var source := [Plain("forest"), Plain("fengshen"), Plain("ice")];
            var themes := [Theme("fengshen", "fengshen"), Theme("forest", "forest")];
            var m := Merge(source, [Plain("ice")], themes);
            && Requested(themes) && Merge(source, m, themes) != m
            && AliasTheme(themes).Some? && !InPlace(source, m, themes)
  {
    hide Id, Slot, Drop, FoldPath, RegistrationId, HasAlias, Lower, Insertion, Insert, NewRow, Has, Step, Merge;
    hide Requested, InPlace, AliasTheme;
    var source := [Plain("forest"), Plain("fengshen"), Plain("ice")];
    var ice, first, second := Plain("ice"), Theme("fengshen", "fengshen"), Theme("forest", "forest");
    var alias, forest := NewRow(source, first), NewRow(source, second);
    Words();
    PlainId("ice");
    NewRowSlot(source, first);
    NewRowSlot(source, second);
    SlotIs(ice, "ice");
    SlotIs(alias, "17");
    SlotIs(forest, "forest");
    assert "ice" !in ALIAS_SLOTS && "forest" !in ALIAS_SLOTS && "17" in ALIAS_SLOTS;
    var merged, two := [alias, forest, ice], [forest, alias, ice];
    assert Merge(source, [ice], [first, second]) == merged by {
      KeepsAll([ice], ALIAS_SLOTS);
      assert [] + [ice] == [ice];
      AliasStep([ice], [], ice);
      assert [] + [alias, ice] == [alias, ice];
      ForestStep(alias, ice);
      TwoThemes(source, [ice], first, second);
    }
    assert Merge(source, merged, [first, second]) == two by {
      DropsFirst(merged, ALIAS_SLOTS);
      assert merged[1..] == [forest, ice];
      KeepsAll([forest, ice], ALIAS_SLOTS);
      assert [forest] + [ice] == [forest, ice];
      AliasStep(merged, [forest], ice);
      assert [forest] + [alias, ice] == two;
      There(two, "forest", 0);
      HasNothingToDo(source, two, second);
      TwoThemes(source, merged, first, second);
    }
    assert alias != forest;
    assert merged[0] != two[0];
    WitnessRequested();
    QuietExactly(source, [ice], [first, second]);
  }

  lemma HasNothingToDo(source: Rows, rows: Rows, t: Theme)
    requires !HasAlias(t.original) && Has(rows, t.original)
    ensures Step(source, rows, t) == rows
  {
  }

  lemma SlotIs(row: BmlNode, id: string)
    requires Id(row) == Some(id)
    ensures Slot(row) == Some(Lower(id))
  {
  }

  lemma NotThere(rows: Rows, id: string)
    requires forall i :: 0 <= i < |rows| ==> Slot(rows[i]) != Some(Lower(id))
    ensures !Has(rows, id)
  {
  }

  lemma There(rows: Rows, id: string, i: nat)
    requires i < |rows| && Slot(rows[i]) == Some(Lower(id))
    ensures Has(rows, id)
  {
  }

  lemma {:induction false} KeepsAll(rows: Rows, slots: set<string>)
    requires forall i :: 0 <= i < |rows| ==> Slot(rows[i]).Some? && Slot(rows[i]).value !in slots
    ensures Drop(rows, slots) == rows
  {
    hide Slot;
    if rows != [] { KeepsAll(rows[1..], slots); }
  }

  lemma DropsFirst(rows: Rows, slots: set<string>)
    requires rows != [] && Slot(rows[0]).Some? && Slot(rows[0]).value in slots
    ensures Drop(rows, slots) == Drop(rows[1..], slots)
  {
  }

  lemma TwoThemes(source: Rows, rows: Rows, a: Theme, b: Theme)
    ensures Merge(source, rows, [a, b]) == Step(source, Step(source, rows, a), b)
  {
    hide Step;
    var themes := [a, b];
    assert themes[1..] == [b] && themes[1..][1..] == [];
    var one := Step(source, rows, a);
    assert Merge(source, one, [b]) == Merge(source, Step(source, one, b), []);
  }

  // ------------------------------------------------------------- the catalog

  function ChildNamed(children: Rows, name: string): (i: nat)
    ensures i <= |children|
    ensures i < |children| ==> SameText(children[i].name, name)
    ensures forall j :: 0 <= j < i ==> !SameText(children[j].name, name)
  {
    if children == [] || SameText(children[0].name, name) then 0 else 1 + ChildNamed(children[1..], name)
  }

  const ORDER := "themeTabOrder"

  function SourceOrder(source: Option<BmlNode>): Rows {
    if source.None? then []
    else
      var i := ChildNamed(source.value.children, ORDER);
      if i < |source.value.children| then source.value.children[i].children else []
  }

  /** The merged catalog, or nothing when the target is not a selector catalog. */
  function Merged(source: Option<BmlNode>, target: BmlNode, themes: seq<Theme>): Option<BmlNode> {
    var i := ChildNamed(target.children, ORDER);
    if !SameText(target.name, "config") || i == |target.children| then None
    else
      var order := target.children[i];
      var merged := Merge(SourceOrder(source), order.children, themes);
      Some(target.(children := target.children[i := order.(children := merged)]))
  }

  /** `selector_has_theme`. */
  predicate SelectorHas(root: BmlNode, theme: string) {
    var i := ChildNamed(root.children, ORDER);
    i < |root.children| && Has(root.children[i].children, RegistrationId(theme))
  }

  lemma OrderStays(target: BmlNode, i: nat, children: Rows)
    requires i < |target.children| && i == ChildNamed(target.children, ORDER)
    ensures ChildNamed(target.children[i := target.children[i].(children := children)], ORDER) == i
  {
    var after := target.children[i := target.children[i].(children := children)];
    var j := ChildNamed(after, ORDER);
    assert forall k :: 0 <= k < |after| ==> after[k].name == target.children[k].name;
  }

  /** After a merge the selector has every requested theme: the check that follows the installation passes. */
  lemma SelectorHasEveryTheme(source: Option<BmlNode>, target: BmlNode, themes: seq<Theme>, k: nat)
    requires Requested(themes) && k < |themes| && Merged(source, target, themes).Some?
    ensures SelectorHas(Merged(source, target, themes).value, themes[k].original)
  {
    hide Merge, Has, RegistrationId, ChildNamed, Requested;
    var i := ChildNamed(target.children, ORDER);
    var order := target.children[i];
    EveryThemeRegistered(SourceOrder(source), order.children, themes, k);
    OrderStays(target, i, Merge(SourceOrder(source), order.children, themes));
  }

  method MergeThemeTabOrder(source: Option<BmlNode>, target: BmlNode, themes: seq<Theme>)
    returns (merged: Option<BmlNode>, registered: set<string>)
    ensures merged == Merged(source, target, themes)
    ensures merged.Some? ==> forall key :: key in registered <==> exists i :: 0 <= i < |themes| && themes[i].key == key
  {
    hide NewRow, Insertion, Drop, Has;
    registered := {};
    if !SameText(target.name, "config") { return None, registered; }
    var sourceOrder := SourceOrder(source);
    var at := ChildNamed(target.children, ORDER);
    if at == |target.children| { return None, registered; }
    var rows := target.children[at].children;
    assert themes[0..] == themes;
    for i := 0 to |themes|
      invariant Merge(sourceOrder, target.children[at].children, themes) == Merge(sourceOrder, rows, themes[i..])
      invariant registered == set j | 0 <= j < i :: themes[j].key
    {
      var t := themes[i];
      assert themes[i..][0] == t && themes[i..][1..] == themes[i + 1..];
      var wanted := true;
      if HasAlias(t.original) {
        rows := Drop(rows, ALIAS_SLOTS);
      } else if Has(rows, t.original) {
        wanted := false;
      }
      if wanted {
        var insertion := Insertion(sourceOrder, rows, t);
        rows := rows[..insertion] + [NewRow(sourceOrder, t)] + rows[insertion..];
      }
      registered := registered + {t.key};
    }
    var order := target.children[at];
    merged := Some(target.(children := target.children[at := order.(children := rows)]));
  }
}
