/** The additive DataRaw installers: one-time backups, runs that may stop anywhere, and what they keep. */
module Installer {
  import opened Text
  import LittleEndian
  import opened Paths
  import opened AssetIndex

  type Place = seq<string>

  type Data = seq<LittleEndian.byte>

  /** A directory tree: its files, and its folders below the root. */
  datatype Tree = Tree(files: map<Place, Data>, folders: set<Place>)

  datatype Site = Site(tree: Tree, backup: Tree)

  /** Where the environment makes one entry's work fail, if anywhere. */
  datatype Fault = Clear | AtRead | AtBackup | AtWrite | AtVerify

  /** What an entry of the bundle asks for, once its role and its path are known. */
  datatype Order = Pass | Bad | Put(path: string, at: Place, bytes: Data, catalog: bool)

  datatype Tally = Tally(written: nat, identical: nat, replaced: nat)

  datatype Ended = Done(tally: Tally) | Halted

  /** The importer's test for replacing a resource: `None` when the test itself fails. */
  type SafeTest = (string, Data, Data) -> Option<bool>

  // --------------------------------------------------------- safe paths

  function Entered(parts: seq<string>): seq<string> {
    if parts == [] then []
    else if StepOf(parts[0]) == Enter then [parts[0]] + Entered(parts[1..])
    else Entered(parts[1..])
  }

  /** `safe_relative_path`; only the asset importer lets a path begin with `.`. */
  function SafePlace(value: string, leadingDot: bool): Option<Place> {
    var slashed := Slashed(value);
    var parts := Split(slashed);
    if slashed != "" && slashed[0] == '/' then None
    else if parts[0] == "." && !leadingDot then None
    else if ".." in parts then None
    else if Entered(parts) == [] then None
    else Some(Entered(parts))
  }

  lemma {:induction false} EnteredPlain(parts: seq<string>)
    requires forall i :: 0 <= i < |parts| ==> '/' !in parts[i]
    ensures AllPlain(Entered(parts))
  {
    if parts != [] { EnteredPlain(parts[1..]); }
  }

  lemma {:induction false} EnteredWalk(directory: seq<string>, parts: seq<string>)
    requires ".." !in parts
    ensures Walk(directory, parts) == Some(directory + Entered(parts))
    decreases parts
  {
    if parts == [] {
      assert directory + [] == directory;
    } else {
      assert parts[0] in parts;
      var next := if StepOf(parts[0]) == Enter then directory + [parts[0]] else directory;
      EnteredWalk(next, parts[1..]);
      if StepOf(parts[0]) == Enter {
        assert directory + [parts[0]] + Entered(parts[1..]) == directory + Entered(parts);
      }
    }
  }

  /** A safe place never leaves the installation and is where the path normaliser would put the path. */
  lemma SafePlaceStaysInside(value: string, leadingDot: bool)
    requires SafePlace(value, leadingDot).Some?
    ensures var place := SafePlace(value, leadingDot).value;
            && place != [] && AllPlain(place)
            && (':' !in value ==> Normalize(value) == Some(Join(place)))
  {
    var parts := Split(Slashed(value));
    SplitNoSlash(Slashed(value));
    EnteredPlain(parts);
    EnteredWalk([], parts);
    assert [] + Entered(parts) == Entered(parts);
    if ':' !in value && value != "" { assert Slashed(value)[0] != '/'; }
  }

  // -------------------------------------------------------- file operations

  predicate Blocked(t: Tree, at: Place) {
    exists k :: 0 < k < |at| && at[..k] in t.files
  }

  function Parents(at: Place): set<Place> {
    set k | 0 < k < |at| :: at[..k]
  }

  /** `create_dir_all` of the parent. */
  function Foldered(t: Tree, at: Place): Tree {
    t.(folders := t.folders + Parents(at))
  }

  function Written(t: Tree, at: Place, bytes: Data): Tree {
    Tree(t.files[at := bytes], t.folders + Parents(at))
  }

  /** `backup_once`: an existing backup is left alone. */
  function BackUp(site: Site, at: Place, fault: Fault): (Site, bool)
    requires at in site.tree.files
  {
    if at in site.backup.files then (site, true)
    else if at in site.backup.folders || Blocked(site.backup, at) then (site, false)
    else if fault == AtBackup then (site.(backup := Foldered(site.backup, at)), false)
    else (site.(backup := Written(site.backup, at, site.tree.files[at])), true)
  }

  /** Creates the parents, writes the bytes and reads them back. */
  function Store(site: Site, at: Place, bytes: Data, fault: Fault): (Site, bool) {
    if Blocked(site.tree, at) then (site, false)
    else if fault == AtWrite then (site.(tree := Foldered(site.tree, at)), false)
    else (site.(tree := Written(site.tree, at, bytes)), fault != AtVerify)
  }

  datatype Outcome = Passed | Same | Fresh | Replaced | Migrated | Failed

  /** One entry of the installation loop. */
  function Act(site: Site, o: Order, fault: Fault, safe: SafeTest): (Site, Outcome) {
    match o
    case Pass => (site, Passed)
    case Bad => (site, Failed)
    case Put(path, at, bytes, catalog) =>
      if fault == AtRead then (site, Failed)
      else if at in site.tree.files then
        if site.tree.files[at] == bytes then (site, Same)
        else if !catalog && safe(path, site.tree.files[at], bytes) != Some(true) then (site, Failed)
        else
          var (saved, ok) := BackUp(site, at, fault);
          if !ok then (saved, Failed)
          else
            var (after, stored) := Store(saved, at, bytes, fault);
            (after, if !stored then Failed else if catalog then Replaced else Migrated)
      else if at in site.tree.folders then (site, Failed)
      else
        var (after, stored) := Store(site, at, bytes, fault);
        (after, if stored then Fresh else Failed)
  }

  function Count(t: Tally, r: Outcome): Tally {
    match r
    case Same => t.(identical := t.identical + 1)
    case Fresh => t.(written := t.written + 1)
    case Migrated => t.(written := t.written + 1)
    case Replaced => t.(written := t.written + 1, replaced := t.replaced + 1)
    case _ => t
  }

  function FaultOf(faults: seq<Fault>): Fault {
    if faults == [] then Clear else faults[0]
  }

  function Later(faults: seq<Fault>): seq<Fault> {
    if faults == [] then [] else faults[1..]
  }

  /** The loop over all entries: it stops at the first failure. */
  function Run(site: Site, orders: seq<Order>, faults: seq<Fault>, safe: SafeTest, tally: Tally): (Site, Ended)
    decreases orders
  {
    if orders == [] then (site, Done(tally))
    else
      var (next, r) := Act(site, orders[0], FaultOf(faults), safe);
      if r == Failed then (next, Halted)
      else Run(next, orders[1..], Later(faults), safe, Count(tally, r))
  }

  const NOTHING := Tally(0, 0, 0)

  // ------------------------------------------------------- the two installers

  const SOURCE_TRACK_TABLE := "track/common/track@zz.bml"
  const TARGET_TRACK_LOCALE := "track/common/trackLocale@kr.bml"
  const SELECT_TRACK_STRING_BAG := "dialog2/selectTrackEx/selectTrackEx_stringBag.bml"
  const CONTENT_CONFIG := "zeta_/kr/content/config.xml"
  const SELECT_TRACK_CONFIGS := ["dialog2/selectTrackEx/config@cn.bml", "dialog2/selectTrackEx/config@tw.bml"]
  const TABLE_PATH := "etc_/itemTable.kml"
  const TARGET_SHOP_PATH := "zeta_/kr/shop/data/item.kml"
  const ABILITY_PATHS := [
    "item/slot/transformByKart.bml", "item/slot/fired2Gain.bml",
    "item/slot/firing2Gain.bml", "item/slot/animalBooster.bml"]

  /** A bundle entry; `bytes` is nothing when its extraction fails, `role` when its archive is not reported. */
  datatype Entry = Entry(role: Option<string>, path: string, bytes: Option<Data>)

  predicate TrackCatalog(path: string) {
    || SameText(path, SOURCE_TRACK_TABLE) || SameText(path, TARGET_TRACK_LOCALE)
    || SameText(path, SELECT_TRACK_STRING_BAG) || SameText(path, CONTENT_CONFIG)
    || SameText(path, SELECT_TRACK_CONFIGS[0]) || SameText(path, SELECT_TRACK_CONFIGS[1])
  }

  predicate AssetCatalog(path: string) {
    var folded := FoldPath(path);
    || folded == FoldPath(TABLE_PATH) || folded == FoldPath(TARGET_SHOP_PATH)
    || folded == FoldPath(ABILITY_PATHS[0]) || folded == FoldPath(ABILITY_PATHS[1])
    || folded == FoldPath(ABILITY_PATHS[2]) || folded == FoldPath(ABILITY_PATHS[3])
  }

  function Placed(e: Entry, place: Option<Place>, catalog: bool): Order {
    if place.None? || e.bytes.None? then Bad else Put(e.path, place.value, e.bytes.value, catalog)
  }

  function TrackOrder(e: Entry): Order {
    var catalog := TrackCatalog(e.path);
    if e.role.None? then Bad
    else if e.role.value == "track_catalog" && !catalog then Pass
    else if e.role.value != "track_catalog" && e.role.value != "track_resources" then Bad
    else Placed(e, SafePlace(e.path, false), catalog)
  }

  function AssetOrder(e: Entry): Order {
    var catalog := AssetCatalog(e.path);
    if e.role.None? then Bad
    else if !(|| (e.role.value == "resource" && !catalog)
              || (e.role.value == "item_table_base" && FoldPath(e.path) == FoldPath(TABLE_PATH))
              || (e.role.value == "catalog_overlay" && catalog && FoldPath(e.path) != FoldPath(TABLE_PATH))) then Pass
    else if ':' in e.path then Bad
    else Placed(e, SafePlace(e.path, true), catalog)
  }

  function TrackOrders(es: seq<Entry>): seq<Order> {
    if es == [] then [] else [TrackOrder(es[0])] + TrackOrders(es[1..])
  }

  function AssetOrders(es: seq<Entry>): seq<Order> {
    if es == [] then [] else [AssetOrder(es[0])] + AssetOrders(es[1..])
  }

  // --------------------------------------------------------- recoverability

  /** What a place held first, as far as the site can tell: its backup, or the file itself. */
  function Original(site: Site, at: Place): Data
    requires at in site.tree.files
  {
    if at in site.backup.files then site.backup.files[at] else site.tree.files[at]
  }

  /** No file is lost, no backup ever changes, and every file that was there can still be restored. */
  ghost predicate Recoverable(before: Site, after: Site) {
    && (forall p :: p in before.tree.files ==> p in after.tree.files && Original(after, p) == Original(before, p))
    && (forall p :: p in before.backup.files ==>
          p in after.backup.files && after.backup.files[p] == before.backup.files[p])
  }

  lemma BackUpRecoverable(site: Site, at: Place, fault: Fault)
    requires at in site.tree.files
    ensures var (saved, ok) := BackUp(site, at, fault);
            Recoverable(site, saved) && saved.tree == site.tree && (ok ==> at in saved.backup.files)
  {
  }

  lemma StoreRecoverable(site: Site, at: Place, bytes: Data, fault: Fault)
    requires at in site.tree.files ==> at in site.backup.files
    ensures Recoverable(site, Store(site, at, bytes, fault).0)
  {
  }

  lemma ActRecoverable(site: Site, o: Order, fault: Fault, safe: SafeTest)
    ensures Recoverable(site, Act(site, o, fault, safe).0)
  {
    hide BackUp, Store;
    if o.Put? {
      if o.at in site.tree.files {
        BackUpRecoverable(site, o.at, fault);
        var (saved, ok) := BackUp(site, o.at, fault);
        if ok { StoreRecoverable(saved, o.at, o.bytes, fault); }
      } else {
        StoreRecoverable(site, o.at, o.bytes, fault);
      }
    }
  }

  lemma {:induction false} RunRecoverable(site: Site, orders: seq<Order>, faults: seq<Fault>, safe: SafeTest,
      tally: Tally)
    ensures Recoverable(site, Run(site, orders, faults, safe, tally).0)
    decreases orders
  {
    hide Act;
    if orders != [] {
      var (next, r) := Act(site, orders[0], FaultOf(faults), safe);
      ActRecoverable(site, orders[0], FaultOf(faults), safe);
      if r != Failed { RunRecoverable(next, orders[1..], Later(faults), safe, Count(tally, r)); }
    }
  }

  /** One installation: of tracks, or of assets with the importer's test. */
  datatype Install = Tracks(entries: seq<Entry>, faults: seq<Fault>) | Assets(entries: seq<Entry>, faults: seq<Fault>)

  const NEVER_SAFE: SafeTest := (path: string, existing: Data, staged: Data) => Some(false)

  function Installed(site: Site, i: Install, safe: SafeTest): (Site, Ended) {
    if i.Tracks? then Run(site, TrackOrders(i.entries), i.faults, NEVER_SAFE, NOTHING)
    else Run(site, AssetOrders(i.entries), i.faults, safe, NOTHING)
  }

  function History(site: Site, runs: seq<Install>, safe: SafeTest): Site
    decreases runs
  {
    if runs == [] then site else History(Installed(site, runs[0], safe).0, runs[1..], safe)
  }

  lemma {:induction false} HistoryRecoverable(site: Site, runs: seq<Install>, safe: SafeTest)
    ensures Recoverable(site, History(site, runs, safe))
    decreases runs
  {
    hide Run;
    if runs != [] {
      var run := runs[0];
      if run.Tracks? { RunRecoverable(site, TrackOrders(run.entries), run.faults, NEVER_SAFE, NOTHING); }
      else { RunRecoverable(site, AssetOrders(run.entries), run.faults, safe, NOTHING); }
      HistoryRecoverable(Installed(site, run, safe).0, runs[1..], safe);
    }
  }

  /**
   Copying every backup over the tree brings all original files back, after any number of installs of
   either kind, each of which may have stopped anywhere.
   */
  lemma BackupsRestore(tree: Tree, runs: seq<Install>, safe: SafeTest)
    ensures var after := History(Site(tree, Tree(map[], {})), runs, safe);
            forall p :: p in tree.files
              ==> p in after.tree.files && (after.tree.files + after.backup.files)[p] == tree.files[p]
  {
    hide Run, Installed, History;
    HistoryRecoverable(Site(tree, Tree(map[], {})), runs, safe);
  }

  // ----------------------------------------------- what is never overwritten

  /** No path that leads here is a catalog path or can pass the replacement test. */
  ghost predicate Shielded(p: Place, orders: seq<Order>, safe: SafeTest) {
    forall o :: o in orders && o.Put? && o.at == p
      ==> !o.catalog && forall existing, staged :: safe(o.path, existing, staged) != Some(true)
  }

  lemma ActShielded(site: Site, o: Order, fault: Fault, safe: SafeTest, p: Place)
    requires Shielded(p, [o], safe) && p in site.tree.files
    ensures var after := Act(site, o, fault, safe).0;
            p in after.tree.files && after.tree.files[p] == site.tree.files[p]
  {
    if o.Put? && o.at == p {
      assert o in [o];
      assert !o.catalog;
      assert safe(o.path, site.tree.files[p], o.bytes) != Some(true);
    }
  }

  lemma {:induction false} RunShielded(
    site: Site, orders: seq<Order>, faults: seq<Fault>, safe: SafeTest, tally: Tally, p: Place)
    requires Shielded(p, orders, safe) && p in site.tree.files
    ensures var after := Run(site, orders, faults, safe, tally).0;
            p in after.tree.files && after.tree.files[p] == site.tree.files[p]
    decreases orders
  {
    hide Act;
    if orders != [] {
      assert orders[0] in orders;
      assert forall o :: o in orders[1..] ==> o in orders;
      ActShielded(site, orders[0], FaultOf(faults), safe, p);
      var (next, r) := Act(site, orders[0], FaultOf(faults), safe);
      if r != Failed { RunShielded(next, orders[1..], Later(faults), safe, Count(tally, r), p); }
    }
  }

  /** Some catalog path of the track installer leads here. */
  ghost predicate CatalogPlace(p: Place) {
    exists path :: TrackCatalog(path) && SafePlace(path, false) == Some(p)
  }

  lemma {:induction false} TrackOrdersAre(es: seq<Entry>, o: Order)
    requires o in TrackOrders(es) && o.Put?
    ensures o.catalog == TrackCatalog(o.path) && SafePlace(o.path, false) == Some(o.at)
  {
    hide TrackCatalog, SafePlace;
    if o != TrackOrder(es[0]) { TrackOrdersAre(es[1..], o); }
  }

  /** No run of a track installation, complete or not, changes a file that is not a catalog. */
  lemma NonCatalogFilesKept(site: Site, entries: seq<Entry>, faults: seq<Fault>, p: Place)
    requires p in site.tree.files && !CatalogPlace(p)
    ensures var after := Run(site, TrackOrders(entries), faults, NEVER_SAFE, NOTHING).0;
            p in after.tree.files && after.tree.files[p] == site.tree.files[p]
  {
    hide Run, TrackCatalog, SafePlace;
    forall o | o in TrackOrders(entries) && o.Put? && o.at == p
      ensures !o.catalog
    {
      TrackOrdersAre(entries, o);
    }
    RunShielded(site, TrackOrders(entries), faults, NEVER_SAFE, NOTHING, p);
  }

  // ------------------------------------------------------------ reinstalling

  /** What a complete run leaves at the places it was asked to fill: the last bytes for each. */
  function Contents(orders: seq<Order>): map<Place, Data> {
    if orders == [] then map[]
    else (if orders[0].Put? then map[orders[0].at := orders[0].bytes] else map[]) + Contents(orders[1..])
  }

  lemma ActPlaces(site: Site, o: Order, fault: Fault, safe: SafeTest)
    requires Act(site, o, fault, safe).1 != Failed
    ensures Act(site, o, fault, safe).0.tree.files == site.tree.files + Contents([o])
  {
  }

  lemma NoContents(orders: seq<Order>)
    requires orders == []
    ensures Contents(orders) == map[]
  {
  }

  lemma ContentsStep(orders: seq<Order>)
    requires orders != []
    ensures Contents(orders) == Contents([orders[0]]) + Contents(orders[1..])
  {
  }

  lemma MapsAssociate<K, V>(a: map<K, V>, b: map<K, V>, c: map<K, V>)
    ensures a + b + c == a + (b + c)
  {
  }

  /** A run that completes has filled exactly the places it was asked to fill. */
  lemma {:induction false} RunPlaces(site: Site, orders: seq<Order>, faults: seq<Fault>, safe: SafeTest, tally: Tally)
    requires Run(site, orders, faults, safe, tally).1.Done?
    ensures Run(site, orders, faults, safe, tally).0.tree.files == site.tree.files + Contents(orders)
    decreases orders
  {
    hide Act, Contents;
    if orders == [] {
      assert Contents(orders) == map[] by { NoContents(orders); }
      assert site.tree.files + map[] == site.tree.files;
    } else {
      var (next, r) := Act(site, orders[0], FaultOf(faults), safe);
      ActPlaces(site, orders[0], FaultOf(faults), safe);
      RunPlaces(next, orders[1..], Later(faults), safe, Count(tally, r));
      ContentsStep(orders);
      MapsAssociate(site.tree.files, Contents([orders[0]]), Contents(orders[1..]));
    }
  }

  predicate AllPlaced(files: map<Place, Data>, orders: seq<Order>) {
    forall o :: o in orders && o.Put? ==> o.at in files && files[o.at] == o.bytes
  }

  predicate NoneBad(orders: seq<Order>) {
    Bad !in orders
  }

  function Puts(orders: seq<Order>): nat {
    if orders == [] then 0 else (if orders[0].Put? then 1 else 0) + Puts(orders[1..])
  }

  /** When everything is in place already, a run finds only identical files. */
  lemma {:induction false} QuietRun(site: Site, orders: seq<Order>, safe: SafeTest, tally: Tally)
    requires AllPlaced(site.tree.files, orders) && NoneBad(orders)
    ensures Run(site, orders, [], safe, tally) == (site, Done(tally.(identical := tally.identical + Puts(orders))))
    decreases orders
  {
    if orders != [] {
      assert orders[0] in orders;
      assert forall o :: o in orders[1..] ==> o in orders;
      QuietRun(site, orders[1..], safe, Count(tally, Act(site, orders[0], Clear, safe).1));
    }
  }

  /** A completed run counts every order once: written or identical. */
  lemma {:induction false} RunCounts(site: Site, orders: seq<Order>, faults: seq<Fault>, safe: SafeTest, tally: Tally)
    requires Run(site, orders, faults, safe, tally).1.Done?
    ensures var t := Run(site, orders, faults, safe, tally).1.tally;
            && t.written + t.identical == tally.written + tally.identical + Puts(orders)
            && t.written >= tally.written && t.written - t.replaced >= tally.written - tally.replaced
            && t.replaced >= tally.replaced
            && NoneBad(orders)
            && (t.written == tally.written
                ==> Run(site, orders, faults, safe, tally).0 == site && AllPlaced(site.tree.files, orders))
    decreases orders
  {
    hide BackUp, Store;
    if orders != [] {
      var (next, r) := Act(site, orders[0], FaultOf(faults), safe);
      RunCounts(next, orders[1..], Later(faults), safe, Count(tally, r));
      assert orders == [orders[0]] + orders[1..];
    }
  }

  /** Two orders for one place agree on its bytes. */
  predicate Consistent(orders: seq<Order>) {
    forall o, q :: o in orders && q in orders && o.Put? && q.Put? && o.at == q.at ==> o.bytes == q.bytes
  }

  lemma {:induction false} ContentsFrom(orders: seq<Order>, p: Place)
    ensures p in Contents(orders) ==> exists o :: o in orders && o.Put? && o.at == p && o.bytes == Contents(orders)[p]
    ensures (exists o :: o in orders && o.Put? && o.at == p) ==> p in Contents(orders)
  {
    if orders != [] {
      ContentsFrom(orders[1..], p);
      assert orders == [orders[0]] + orders[1..];
      if p in Contents(orders[1..]) {
        var o :| o in orders[1..] && o.Put? && o.at == p && o.bytes == Contents(orders[1..])[p];
        assert o in orders;
      } else if p in Contents(orders) {
        assert orders[0] in orders;
      }
    }
  }

  /** After a complete installation a second one finds everything identical and writes nothing, exactly for bundles
      that never give one place two different contents. */
  lemma ReinstallIsQuiet(site: Site, orders: seq<Order>, faults: seq<Fault>, safe: SafeTest)
    requires Run(site, orders, faults, safe, NOTHING).1.Done?
    ensures var after := Run(site, orders, faults, safe, NOTHING).0;
            Run(after, orders, [], safe, NOTHING) == (after, Done(Tally(0, Puts(orders), 0))) <==> Consistent(orders)
  {
    hide Run, Contents;
    var after := Run(site, orders, faults, safe, NOTHING).0;
    RunPlaces(site, orders, faults, safe, NOTHING);
    RunCounts(site, orders, faults, safe, NOTHING);
    if Consistent(orders) {
      forall o | o in orders && o.Put?
        ensures o.at in after.tree.files && after.tree.files[o.at] == o.bytes
      {
        ContentsFrom(orders, o.at);
      }
      QuietRun(after, orders, safe, NOTHING);
    }
    if Run(after, orders, [], safe, NOTHING) == (after, Done(Tally(0, Puts(orders), 0))) {
      RunCounts(after, orders, [], safe, NOTHING);
    }
  }

  const TABLE_PLACE: Place := ["track", "common", "track@zz.bml"]

  lemma TablePlaceJoins()
    ensures Join(TABLE_PLACE) == SOURCE_TRACK_TABLE
  {
    hide LowerChar;
    assert TABLE_PLACE[1..] == ["common", "track@zz.bml"] && TABLE_PLACE[1..][1..] == ["track@zz.bml"];
    assert Join(TABLE_PLACE[1..]) == "common" + "/" + "track@zz.bml";
    assert "track" + "/" + ("common" + "/" + "track@zz.bml") == SOURCE_TRACK_TABLE;
  }

  lemma {:induction false} AllEntered(parts: seq<string>)
    requires AllPlain(parts)
    ensures Entered(parts) == parts
  {
    if parts != [] {
      assert Plain(parts[0]);
      AllEntered(parts[1..]);
    }
  }

  lemma TablePlacePlain()
    ensures AllPlain(TABLE_PLACE) && ".." !in TABLE_PLACE && TABLE_PLACE[0] != "."
  {
  }

  lemma NothingSlashed(path: string)
    requires '\\' !in path
    ensures Slashed(path) == path
  {
  }

  /** Joining plain components gives a path that leads there. */
  lemma JoinedPlace(parts: seq<string>)
    requires parts != [] && AllPlain(parts) && ".." !in parts && parts[0] != "." && '\\' !in Join(parts)
    ensures SafePlace(Join(parts), false) == Some(parts)
  {
    hide Slashed, Split, Join, Entered;
    forall i | 0 <= i < |parts|
      ensures '/' !in parts[i]
    {
      assert Plain(parts[i]);
    }
    NothingSlashed(Join(parts));
    SplitJoin(parts);
    AllEntered(parts);
    assert Plain(parts[0]);
    JoinFirst(parts);
  }

  lemma BundlePlace()
    ensures TrackCatalog(SOURCE_TRACK_TABLE) && SafePlace(SOURCE_TRACK_TABLE, false) == Some(TABLE_PLACE)
  {
    hide SafePlace, Join, AllPlain;
    TablePlaceJoins();
    TablePlacePlain();
    assert '\\' !in SOURCE_TRACK_TABLE;
    JoinedPlace(TABLE_PLACE);
  }

  lemma TableOrder(role: string, bytes: Data)
    requires role == "track_catalog" || role == "track_resources"
    ensures TrackOrder(Entry.Entry(Some(role), SOURCE_TRACK_TABLE, Some(bytes)))
         == Put(SOURCE_TRACK_TABLE, TABLE_PLACE, bytes, true)
  {
    hide TrackCatalog, SafePlace;
    BundlePlace();
  }

  /** A backup of this place exists, or nothing is in the way of making one. */
  predicate Backable(site: Site, at: Place) {
    at in site.backup.files || (at !in site.backup.folders && !Blocked(site.backup, at))
  }

  /**
   A bundle whose two archives hold different track tables installs completely wherever the table is a file, as the
   installer demands, and can be backed up, and installing it again writes both tables again: such bundles exist, and
   for them no second run is quiet.
   */
  lemma InconsistentBundle(site: Site, a: Data, b: Data)
    requires a != b
    requires TreeOk(site.tree) && TABLE_PLACE in site.tree.files && Backable(site, TABLE_PLACE)
    ensures var entries := [Entry.Entry(Some("track_catalog"), SOURCE_TRACK_TABLE, Some(a)),
                            Entry.Entry(Some("track_resources"), SOURCE_TRACK_TABLE, Some(b))];
            var (after, first) := Run(site, TrackOrders(entries), [], NEVER_SAFE, NOTHING);
            && first == Done(if site.tree.files[TABLE_PLACE] == a then Tally(1, 1, 1) else Tally(2, 0, 2))
            && !Consistent(TrackOrders(entries))
            && Run(after, TrackOrders(entries), [], NEVER_SAFE, NOTHING).1 == Done(Tally(2, 0, 2))
  {
    hide TrackOrder, Consistent, Run, TreeOk, Backable;
    TableOrder("track_catalog", a);
    TableOrder("track_resources", b);
    var x, y := Put(SOURCE_TRACK_TABLE, TABLE_PLACE, a, true), Put(SOURCE_TRACK_TABLE, TABLE_PLACE, b, true);
    var entries := [Entry.Entry(Some("track_catalog"), SOURCE_TRACK_TABLE, Some(a)),
                    Entry.Entry(Some("track_resources"), SOURCE_TRACK_TABLE, Some(b))];
    TwoEntries(entries[0], entries[1]);
    TwoTables(site, x, y);
  }

  lemma TwoEntries(e: Entry, f: Entry)
    ensures TrackOrders([e, f]) == [TrackOrder(e), TrackOrder(f)]
  {
    hide TrackOrder;
    assert [e, f][1..] == [f] && [f][1..] == [];
    assert TrackOrders([f]) == [TrackOrder(f)];
  }

  lemma TwoTables(site: Site, x: Order, y: Order)
    requires x.Put? && y.Put? && x.at == y.at && x.catalog && y.catalog && x.bytes != y.bytes
    requires TreeOk(site.tree) && x.at in site.tree.files && Backable(site, x.at)
    ensures var (after, first) := Run(site, [x, y], [], NEVER_SAFE, NOTHING);
            && first == Done(if site.tree.files[x.at] == x.bytes then Tally(1, 1, 1) else Tally(2, 0, 2))
            && !Consistent([x, y])
            && Run(after, [x, y], [], NEVER_SAFE, NOTHING).1 == Done(Tally(2, 0, 2))
  {
    hide Act, Run, Count, TreeOk, Backable;
    assert x in [x, y] && y in [x, y];
    var one := Act(site, x, Clear, NEVER_SAFE);
    Rewritten(site, x);
    var two := Act(one.0, y, Clear, NEVER_SAFE);
    Rewritten(one.0, y);
    TwoOrders(site, x, y, one, two);
    var three := Act(two.0, x, Clear, NEVER_SAFE);
    Rewritten(two.0, x);
    Rewritten(three.0, y);
    TwoOrders(two.0, x, y, three, Act(three.0, y, Clear, NEVER_SAFE));
    Tallied();
  }

  lemma Tallied()
    ensures Count(Count(NOTHING, Same), Replaced) == Tally(1, 1, 1)
    ensures Count(Count(NOTHING, Replaced), Replaced) == Tally(2, 0, 2)
  {
  }

  lemma TwoOrders(site: Site, x: Order, y: Order, one: (Site, Outcome), two: (Site, Outcome))
    requires one == Act(site, x, Clear, NEVER_SAFE) && two == Act(one.0, y, Clear, NEVER_SAFE)
    requires one.1 != Failed && two.1 != Failed
    ensures Run(site, [x, y], [], NEVER_SAFE, NOTHING) == (two.0, Done(Count(Count(NOTHING, one.1), two.1)))
  {
    hide Act, Count;
    assert [x, y][1..] == [y] && [y][1..] == [];
    var tally := Count(NOTHING, one.1);
    assert Run(two.0, [], [], NEVER_SAFE, Count(tally, two.1)) == (two.0, Done(Count(tally, two.1)));
    assert Run(one.0, [y], [], NEVER_SAFE, tally) == (two.0, Done(Count(tally, two.1)));
  }

  /** A catalog that is there is left alone or replaced, and the next bundle finds the site as open as this one did. */
  lemma Rewritten(site: Site, o: Order)
    requires o.Put? && o.catalog && TreeOk(site.tree) && o.at in site.tree.files && Backable(site, o.at)
    ensures var (after, r) := Act(site, o, Clear, NEVER_SAFE);
            && r == (if site.tree.files[o.at] == o.bytes then Same else Replaced)
            && TreeOk(after.tree) && Backable(after, o.at)
            && o.at in after.tree.files && after.tree.files[o.at] == o.bytes
  {
    NothingAbove(site.tree, o.at);
    WrittenOk(site.tree, o.at, o.bytes);
  }

  /** The parents of a file are folders, so no file is in its way. */
  lemma NothingAbove(t: Tree, at: Place)
    requires TreeOk(t) && at in t.files
    ensures at != [] && at !in t.folders && !Blocked(t, at)
  {
    assert at in t.files.Keys + t.folders;
    forall k | 0 < k < |at|
      ensures at[..k] !in t.files
    {
      assert at[..k] in Parents(at);
    }
  }

  // ------------------------------------------------------ what is installed

  /** The selected entries of a bundle, by position. */
  type Choice = seq<bool>

  function Number(chosen: Choice): nat {
    if chosen == [] then 0 else (if chosen[0] then 1 else 0) + Number(chosen[1..])
  }

  /** Selected entries are put at their safe place, and the others put nothing anywhere. */
  ghost predicate Selects(es: seq<Entry>, chosen: Choice, leadingDot: bool, orders: seq<Order>) {
    && |es| == |chosen| == |orders|
    && forall i :: 0 <= i < |es| ==>
         if chosen[i] && !orders[i].Bad? then
           var place := SafePlace(es[i].path, leadingDot);
           && place.Some? && es[i].bytes.Some? && orders[i].Put?
           && orders[i].path == es[i].path && orders[i].at == place.value && orders[i].bytes == es[i].bytes.value
         else !orders[i].Put?
  }

  /** No later selected entry goes to the same place. */
  ghost predicate LastThere(es: seq<Entry>, chosen: Choice, leadingDot: bool, i: nat)
    requires |es| == |chosen| && i < |es|
  {
    chosen[i] && forall j :: i < j < |es| && chosen[j] ==>
                               SafePlace(es[j].path, leadingDot) != SafePlace(es[i].path, leadingDot)
  }

  /** Every selected entry has a safe place; the last one for a place is what stands there, and nothing else changed. */
  ghost predicate Holds(before: map<Place, Data>, after: map<Place, Data>, es: seq<Entry>, chosen: Choice,
                        leadingDot: bool)
    requires |es| == |chosen|
  {
    && (forall i :: 0 <= i < |es| && chosen[i] ==> SafePlace(es[i].path, leadingDot).Some? && es[i].bytes.Some?)
    && (forall i :: 0 <= i < |es| && LastThere(es, chosen, leadingDot, i) ==>
          var place := SafePlace(es[i].path, leadingDot).value;
          place in after && after[place] == es[i].bytes.value)
    && (forall p :: (forall i :: 0 <= i < |es| && chosen[i] ==> SafePlace(es[i].path, leadingDot) != Some(p)) ==>
          (p in after <==> p in before) && (p in before ==> after[p] == before[p]))
  }

  lemma {:induction false} ContentsLast(orders: seq<Order>, i: nat)
    requires i < |orders| && orders[i].Put?
    requires forall j :: i < j < |orders| && orders[j].Put? ==> orders[j].at != orders[i].at
    ensures orders[i].at in Contents(orders) && Contents(orders)[orders[i].at] == orders[i].bytes
  {
    if i > 0 {
      assert orders[1..][i - 1] == orders[i];
      ContentsLast(orders[1..], i - 1);
    } else if orders[i].at in Contents(orders[1..]) {
      ContentsFrom(orders[1..], orders[i].at);
    }
  }

  lemma {:induction false} PutsChosen(es: seq<Entry>, chosen: Choice, leadingDot: bool, orders: seq<Order>)
    requires Selects(es, chosen, leadingDot, orders) && Bad !in orders
    ensures Puts(orders) == Number(chosen)
  {
    hide SafePlace;
    if es != [] {
      assert orders[0] in orders;
      forall i | 0 <= i < |es[1..]|
        ensures es[1..][i] == es[i + 1] && chosen[1..][i] == chosen[i + 1] && orders[1..][i] == orders[i + 1]
      {
      }
      PutsChosen(es[1..], chosen[1..], leadingDot, orders[1..]);
    }
  }

  lemma ChosenHold(before: map<Place, Data>, es: seq<Entry>, chosen: Choice, leadingDot: bool, orders: seq<Order>)
    requires Selects(es, chosen, leadingDot, orders) && Bad !in orders
    ensures Holds(before, before + Contents(orders), es, chosen, leadingDot)
  {
    hide SafePlace, Contents;
    forall i | 0 <= i < |es|
      ensures orders[i] in orders
    {
    }
    forall i | 0 <= i < |es| && LastThere(es, chosen, leadingDot, i)
      ensures var place := SafePlace(es[i].path, leadingDot).value;
              place in Contents(orders) && Contents(orders)[place] == es[i].bytes.value
    {
      ContentsLast(orders, i);
    }
    forall p | forall i :: 0 <= i < |es| && chosen[i] ==> SafePlace(es[i].path, leadingDot) != Some(p)
      ensures p !in Contents(orders)
    {
      ContentsFrom(orders, p);
    }
  }

  /** A run that completes leaves exactly what its selected entries say, and counts each of them. */
  lemma ChosenInstalled(site: Site, es: seq<Entry>, chosen: Choice, leadingDot: bool, orders: seq<Order>,
                        faults: seq<Fault>, safe: SafeTest)
    requires Selects(es, chosen, leadingDot, orders)
    requires Run(site, orders, faults, safe, NOTHING).1.Done?
    ensures Bad !in orders
    ensures var (after, ended) := Run(site, orders, faults, safe, NOTHING);
            && Holds(site.tree.files, after.tree.files, es, chosen, leadingDot)
            && ended.tally.written + ended.tally.identical == Number(chosen)
  {
    hide SafePlace, Contents, Holds, Run;
    RunPlaces(site, orders, faults, safe, NOTHING);
    RunCounts(site, orders, faults, safe, NOTHING);
    PutsChosen(es, chosen, leadingDot, orders);
    ChosenHold(site.tree.files, es, chosen, leadingDot, orders);
  }

  predicate TrackCatalogPath(path: string) {
    || SameText(path, "track/common/track@zz.bml") || SameText(path, "track/common/trackLocale@kr.bml")
    || SameText(path, "dialog2/selectTrackEx/config@cn.bml") || SameText(path, "dialog2/selectTrackEx/config@tw.bml")
    || SameText(path, "dialog2/selectTrackEx/selectTrackEx_stringBag.bml")
    || SameText(path, "zeta_/kr/content/config.xml")
  }

  lemma TrackCatalogExactly(path: string)
    ensures TrackCatalog(path) <==> TrackCatalogPath(path)
  {
    hide SameText;
  }

  /** The track installer writes resources, and of a catalog archive only the catalogs. */
  predicate TrackWanted(e: Entry) {
    e.role == Some("track_resources") || (e.role == Some("track_catalog") && TrackCatalogPath(e.path))
  }

  function TrackChoice(es: seq<Entry>): Choice {
    seq(|es|, i requires 0 <= i < |es| => TrackWanted(es[i]))
  }

  lemma {:induction false} TrackOrdersAt(es: seq<Entry>)
    ensures |TrackOrders(es)| == |es| && forall i :: 0 <= i < |es| ==> TrackOrders(es)[i] == TrackOrder(es[i])
  {
    hide TrackOrder;
    if es != [] { TrackOrdersAt(es[1..]); }
  }

  lemma TrackOrderChosen(e: Entry)
    ensures var order, place := TrackOrder(e), SafePlace(e.path, false);
            && (e.role != Some("track_resources") && e.role != Some("track_catalog") ==> order.Bad?)
            && if TrackWanted(e) && !order.Bad? then
                 && place.Some? && e.bytes.Some? && order.Put?
                 && order.path == e.path && order.at == place.value && order.bytes == e.bytes.value
               else !order.Put?
  {
    hide SafePlace, TrackCatalog, TrackCatalogPath;
    TrackCatalogExactly(e.path);
  }

  /**
   A track installation that completes has met only entries of its two roles, has put every resource and every catalog
   at its safe place, the last one for a place, and has changed nothing else.
   */
  lemma TracksInstalled(site: Site, entries: seq<Entry>, faults: seq<Fault>)
    requires Run(site, TrackOrders(entries), faults, NEVER_SAFE, NOTHING).1.Done?
    ensures forall i :: 0 <= i < |entries| ==>
                          entries[i].role == Some("track_resources") || entries[i].role == Some("track_catalog")
    ensures var (after, ended) := Run(site, TrackOrders(entries), faults, NEVER_SAFE, NOTHING);
            && Holds(site.tree.files, after.tree.files, entries, TrackChoice(entries), false)
            && ended.tally.written + ended.tally.identical == Number(TrackChoice(entries))
  {
    hide SafePlace, Run, Holds, TrackOrder, TrackWanted;
    var orders := TrackOrders(entries);
    TrackOrdersAt(entries);
    forall i | 0 <= i < |entries|
      ensures orders[i] in orders
      ensures var place := SafePlace(entries[i].path, false);
              if TrackWanted(entries[i]) && !orders[i].Bad? then
                && place.Some? && entries[i].bytes.Some? && orders[i].Put?
                && orders[i].path == entries[i].path && orders[i].at == place.value
                && orders[i].bytes == entries[i].bytes.value
              else !orders[i].Put?
      ensures entries[i].role != Some("track_resources") && entries[i].role != Some("track_catalog") ==> orders[i].Bad?
    {
      TrackOrderChosen(entries[i]);
    }
    ChosenInstalled(site, entries, TrackChoice(entries), false, orders, faults, NEVER_SAFE);
  }

  predicate ItemTablePath(path: string) {
    SameText(FoldPath(path), "etc_/itemTable.kml")
  }

  predicate OtherCatalogPath(path: string) {
    var folded := FoldPath(path);
    || SameText(folded, "zeta_/kr/shop/data/item.kml") || SameText(folded, "item/slot/transformByKart.bml")
    || SameText(folded, "item/slot/fired2Gain.bml") || SameText(folded, "item/slot/firing2Gain.bml")
    || SameText(folded, "item/slot/animalBooster.bml")
  }

  lemma FoldedSame(path: string, plain: string)
    requires plain != "" && !Separator(plain[0]) && !Separator(plain[|plain| - 1]) && '\\' !in plain
    ensures FoldPath(path) == FoldPath(plain) <==> SameText(FoldPath(path), plain)
  {
    hide FoldPath, Lower;
    PlainFolded(plain);
    FoldedLow(path);
  }

  lemma PlainFolded(plain: string)
    requires plain != "" && !Separator(plain[0]) && !Separator(plain[|plain| - 1]) && '\\' !in plain
    ensures FoldPath(plain) == Lower(plain)
  {
    hide FoldPath;
    assert "" + plain + "" == plain;
    FoldExactly("", plain, "");
  }

  lemma FoldedLow(path: string)
    ensures Lower(FoldPath(path)) == FoldPath(path)
  {
  }

  lemma AssetCatalogExactly(path: string)
    ensures FoldPath(path) == FoldPath(TABLE_PATH) <==> ItemTablePath(path)
    ensures AssetCatalog(path) <==> ItemTablePath(path) || OtherCatalogPath(path)
    ensures !(ItemTablePath(path) && OtherCatalogPath(path))
  {
    hide FoldPath, SameText;
    FoldedSame(path, TABLE_PATH);
    FoldedSame(path, TARGET_SHOP_PATH);
    AbilitiesSame(path);
    if ItemTablePath(path) { TableAlone(FoldPath(path)); }
  }

  lemma AbilitiesSame(path: string)
    ensures FoldPath(path) == FoldPath(ABILITY_PATHS[0]) <==> SameText(FoldPath(path), "item/slot/transformByKart.bml")
    ensures FoldPath(path) == FoldPath(ABILITY_PATHS[1]) <==> SameText(FoldPath(path), "item/slot/fired2Gain.bml")
    ensures FoldPath(path) == FoldPath(ABILITY_PATHS[2]) <==> SameText(FoldPath(path), "item/slot/firing2Gain.bml")
    ensures FoldPath(path) == FoldPath(ABILITY_PATHS[3]) <==> SameText(FoldPath(path), "item/slot/animalBooster.bml")
  {
    hide FoldPath, SameText;
    FoldedSame(path, ABILITY_PATHS[0]);
    FoldedSame(path, ABILITY_PATHS[1]);
    FoldedSame(path, ABILITY_PATHS[2]);
    FoldedSame(path, ABILITY_PATHS[3]);
  }

  lemma TableAlone(folded: string)
    requires SameText(folded, "etc_/itemTable.kml")
    ensures !SameText(folded, "zeta_/kr/shop/data/item.kml") && !SameText(folded, "item/slot/transformByKart.bml")
    ensures !SameText(folded, "item/slot/fired2Gain.bml") && !SameText(folded, "item/slot/firing2Gain.bml")
    ensures !SameText(folded, "item/slot/animalBooster.bml")
  {
    assert |folded| == 18;
  }

  /** The asset installer writes resources that are no catalogs, the item table of its base, and the other catalogs. */
  predicate AssetWanted(e: Entry) {
    || (e.role == Some("resource") && !ItemTablePath(e.path) && !OtherCatalogPath(e.path))
    || (e.role == Some("item_table_base") && ItemTablePath(e.path))
    || (e.role == Some("catalog_overlay") && OtherCatalogPath(e.path))
  }

  function AssetChoice(es: seq<Entry>): Choice {
    seq(|es|, i requires 0 <= i < |es| => AssetWanted(es[i]))
  }

  lemma {:induction false} AssetOrdersAt(es: seq<Entry>)
    ensures |AssetOrders(es)| == |es| && forall i :: 0 <= i < |es| ==> AssetOrders(es)[i] == AssetOrder(es[i])
  {
    hide AssetOrder;
    if es != [] { AssetOrdersAt(es[1..]); }
  }

  lemma AssetOrderChosen(e: Entry)
    ensures var order, place := AssetOrder(e), SafePlace(e.path, true);
            && (e.role.None? || (AssetWanted(e) && ':' in e.path) ==> order.Bad?)
            && if AssetWanted(e) && !order.Bad? then
                 && place.Some? && e.bytes.Some? && order.Put?
                 && order.path == e.path && order.at == place.value && order.bytes == e.bytes.value
               else !order.Put?
  {
    hide SafePlace, AssetCatalog, FoldPath, ItemTablePath, OtherCatalogPath;
    AssetCatalogExactly(e.path);
  }

  /** An asset installation that completes has met only reported entries and installed exactly those of its roles. */
  lemma AssetsInstalled(site: Site, entries: seq<Entry>, faults: seq<Fault>, safe: SafeTest)
    requires Run(site, AssetOrders(entries), faults, safe, NOTHING).1.Done?
    ensures forall i :: 0 <= i < |entries| ==>
                          entries[i].role.Some? && (AssetWanted(entries[i]) ==> ':' !in entries[i].path)
    ensures var (after, ended) := Run(site, AssetOrders(entries), faults, safe, NOTHING);
            && Holds(site.tree.files, after.tree.files, entries, AssetChoice(entries), true)
            && ended.tally.written + ended.tally.identical == Number(AssetChoice(entries))
  {
    hide SafePlace, Run, Holds, AssetOrder, AssetWanted;
    var orders := AssetOrders(entries);
    AssetOrdersAt(entries);
    forall i | 0 <= i < |entries|
      ensures orders[i] in orders
      ensures var place := SafePlace(entries[i].path, true);
              if AssetWanted(entries[i]) && !orders[i].Bad? then
                && place.Some? && entries[i].bytes.Some? && orders[i].Put?
                && orders[i].path == entries[i].path && orders[i].at == place.value
                && orders[i].bytes == entries[i].bytes.value
              else !orders[i].Put?
      ensures entries[i].role.None? || (AssetWanted(entries[i]) && ':' in entries[i].path) ==> orders[i].Bad?
    {
      AssetOrderChosen(entries[i]);
    }
    ChosenInstalled(site, entries, AssetChoice(entries), true, orders, faults, safe);
  }

  /** A path is safe exactly when it begins at the root, climbs nowhere and names something. */
  lemma SafePlaceExactly(value: string, leadingDot: bool)
    ensures var parts := Split(Slashed(value));
            SafePlace(value, leadingDot).Some? <==>
              && !(value != "" && (value[0] == '/' || value[0] == '\\'))
              && (parts[0] == "." ==> leadingDot)
              && ".." !in parts
              && exists i :: 0 <= i < |parts| && parts[i] != "" && parts[i] != "."
  {
    hide Slashed, Split;
    var parts := Split(Slashed(value));
    if ".." !in parts { EnteredSome(parts); }
    if value != "" { assert Slashed(value)[0] == if value[0] == '\\' then '/' else value[0]; }
  }

  lemma {:induction false} EnteredSome(parts: seq<string>)
    requires ".." !in parts
    ensures Entered(parts) != [] <==> exists i :: 0 <= i < |parts| && parts[i] != "" && parts[i] != "."
  {
    if parts != [] {
      assert parts[0] in parts;
      EnteredSome(parts[1..]);
      if i :| 0 <= i < |parts| && parts[i] != "" && parts[i] != "." {
        if i > 0 { assert parts[1..][i - 1] == parts[i]; }
      }
      if i :| 0 <= i < |parts[1..]| && parts[1..][i] != "" && parts[1..][i] != "." {
        assert parts[i + 1] == parts[1..][i];
      }
    }
  }

  // ------------------------------------------------------- well-formed trees

  /** No place is both a file and a folder, and everything lies in folders. */
  ghost predicate TreeOk(t: Tree) {
    && t.files.Keys !! t.folders
    && (forall p :: p in t.files.Keys + t.folders ==> p != [] && Parents(p) <= t.folders)
  }

  lemma WrittenOk(t: Tree, at: Place, bytes: Data)
    requires TreeOk(t) && at != [] && at !in t.folders && !Blocked(t, at)
    ensures TreeOk(Written(t, at, bytes)) && TreeOk(Foldered(t, at))
  {
    var parents := Parents(at);
    assert at !in parents;
    forall q | q in parents
      ensures q != [] && Parents(q) <= t.folders + parents && q !in t.files
    {
      var k :| 0 < k < |at| && q == at[..k];
      forall r | r in Parents(q)
        ensures r in parents
      {
        var j :| 0 < j < |q| && r == q[..j];
        assert r == at[..j];
      }
    }
  }

  ghost predicate SiteOk(site: Site) {
    TreeOk(site.tree) && TreeOk(site.backup)
  }

  lemma ActOk(site: Site, o: Order, fault: Fault, safe: SafeTest)
    requires SiteOk(site) && (o.Put? ==> o.at != [])
    ensures SiteOk(Act(site, o, fault, safe).0)
  {
    hide TreeOk, Blocked, Written, Foldered;
    if o.Put? && fault != AtRead && !(o.at in site.tree.folders) {
      if o.at !in site.backup.folders && !Blocked(site.backup, o.at) {
        if o.at in site.tree.files { WrittenOk(site.backup, o.at, site.tree.files[o.at]); }
      }
      if !Blocked(site.tree, o.at) { WrittenOk(site.tree, o.at, o.bytes); }
    } else if o.Put? && o.at in site.tree.folders {
      FileNotFolder(site.tree, o.at);
    }
  }

  lemma FileNotFolder(t: Tree, p: Place)
    requires TreeOk(t) && p in t.folders
    ensures p !in t.files
  {
  }

  /** Every run, complete or not, keeps the tree and the backups proper directory trees. */
  lemma {:induction false} RunOk(site: Site, orders: seq<Order>, faults: seq<Fault>, safe: SafeTest, tally: Tally)
    requires SiteOk(site) && forall o :: o in orders && o.Put? ==> o.at != []
    ensures SiteOk(Run(site, orders, faults, safe, tally).0)
    decreases orders
  {
    hide Act, SiteOk;
    if orders != [] {
      assert orders[0] in orders;
      assert forall o :: o in orders[1..] ==> o in orders;
      ActOk(site, orders[0], FaultOf(faults), safe);
      var (next, r) := Act(site, orders[0], FaultOf(faults), safe);
      if r != Failed { RunOk(next, orders[1..], Later(faults), safe, Count(tally, r)); }
    }
  }

  // ---------------------------------------------------- when a run completes

  /** Neither place is the other or lies in it. */
  ghost predicate Apart(a: Place, b: Place) {
    !(a <= b) && !(b <= a)
  }

  ghost predicate AllApart(orders: seq<Order>) {
    && (forall o :: o in orders && o.Put? ==> o.at != [])
    && (forall i, j :: 0 <= i < j < |orders| && orders[i].Put? && orders[j].Put? ==> Apart(orders[i].at, orders[j].at))
  }

  /** The file is there as it should be, may be replaced and can be backed up, or can be created. */
  predicate Installable(site: Site, o: Order, safe: SafeTest)
    requires o.Put?
  {
    if o.at in site.tree.files then
      || site.tree.files[o.at] == o.bytes
      || ((o.catalog || safe(o.path, site.tree.files[o.at], o.bytes) == Some(true)) && Backable(site, o.at))
    else o.at !in site.tree.folders && !Blocked(site.tree, o.at)
  }

  lemma ActDecides(site: Site, o: Order, safe: SafeTest)
    requires SiteOk(site) && o.Put? && o.at != []
    ensures var r := Act(site, o, Clear, safe).1;
            && (r != Failed <==> Installable(site, o, safe))
            && (r == Same <==> o.at in site.tree.files && site.tree.files[o.at] == o.bytes)
            && (r == Replaced ==> o.catalog && o.at in site.tree.files && site.tree.files[o.at] != o.bytes)
            && (r == Migrated || r == Fresh ==> o.catalog ==> o.at !in site.tree.files)
            && r != Passed
  {
    hide TreeOk;
    if o.at in site.tree.files { NothingAbove(site.tree, o.at); }
  }

  lemma BlockedStays(t: Tree, at: Place, bytes: Data, other: Place)
    requires Apart(at, other)
    ensures Blocked(Written(t, at, bytes), other) == Blocked(t, other)
    ensures other in Written(t, at, bytes).files <==> other in t.files
    ensures other in t.files ==> Written(t, at, bytes).files[other] == t.files[other]
    ensures other in Written(t, at, bytes).folders <==> other in t.folders
  {
    forall k | 0 < k < |other|
      ensures other[..k] in Written(t, at, bytes).files <==> other[..k] in t.files
    {
      assert other[..k] != at;
    }
    assert other !in Parents(at);
  }

  /** Installing one entry decides nothing about entries elsewhere. */
  lemma ActElsewhere(site: Site, o: Order, q: Order, safe: SafeTest)
    requires o.Put? && q.Put? && Apart(o.at, q.at)
    ensures var after := Act(site, o, Clear, safe).0;
            && Installable(after, q, safe) == Installable(site, q, safe)
            && (q.at in after.tree.files <==> q.at in site.tree.files)
            && (q.at in site.tree.files ==> after.tree.files[q.at] == site.tree.files[q.at])
  {
    hide Blocked, Written;
    BlockedStays(site.tree, o.at, o.bytes, q.at);
    if o.at in site.tree.files { BlockedStays(site.backup, o.at, site.tree.files[o.at], q.at); }
  }

  /** The catalogs among the orders whose file has other bytes. */
  function Replacing(site: Site, orders: seq<Order>): nat {
    if orders == [] then 0
    else
      var o := orders[0];
      (if o.Put? && o.catalog && o.at in site.tree.files && site.tree.files[o.at] != o.bytes then 1 else 0)
      + Replacing(site, orders[1..])
  }

  /** The orders whose file is there already. */
  function Standing(site: Site, orders: seq<Order>): nat {
    if orders == [] then 0
    else
      var o := orders[0];
      (if o.Put? && o.at in site.tree.files && site.tree.files[o.at] == o.bytes then 1 else 0)
      + Standing(site, orders[1..])
  }

  lemma {:induction false} ElsewhereCounts(site: Site, o: Order, rest: seq<Order>, safe: SafeTest)
    requires o.Put? && forall q :: q in rest && q.Put? ==> Apart(o.at, q.at)
    ensures var after := Act(site, o, Clear, safe).0;
            && Replacing(after, rest) == Replacing(site, rest) && Standing(after, rest) == Standing(site, rest)
            && forall q :: q in rest && q.Put? ==> Installable(after, q, safe) == Installable(site, q, safe)
  {
    hide Act, Installable;
    if rest != [] {
      assert rest[0] in rest && forall q :: q in rest[1..] ==> q in rest;
      ElsewhereCounts(site, o, rest[1..], safe);
      if rest[0].Put? { ActElsewhere(site, o, rest[0], safe); }
      assert rest == [rest[0]] + rest[1..];
    }
  }

  /**
   With no fault from outside, a run over places apart from each other completes exactly when no entry is refused and
   each can be installed where it goes, judged before the run; and its tally is known before it starts.
   */
  lemma {:induction false} RunCompletes(site: Site, orders: seq<Order>, safe: SafeTest, tally: Tally)
    requires SiteOk(site) && AllApart(orders)
    ensures var ended := Run(site, orders, [], safe, tally).1;
            && (ended.Done? <==> Bad !in orders && forall o :: o in orders && o.Put? ==> Installable(site, o, safe))
            && (ended.Done? ==>
                  && ended.tally.identical == tally.identical + Standing(site, orders)
                  && ended.tally.replaced == tally.replaced + Replacing(site, orders))
    decreases orders
  {
    hide Act, Installable, SiteOk;
    if orders != [] {
      var o, rest := orders[0], orders[1..];
      assert orders == [o] + rest && o in orders;
      RestApart(orders);
      var (next, r) := Act(site, o, Clear, safe);
      ActOk(site, o, Clear, safe);
      if o.Put? {
        ActDecides(site, o, safe);
        ElsewhereCounts(site, o, rest, safe);
      } else {
        assert r == if o.Pass? then Passed else Failed by { ActOther(site, o, safe); }
        assert next == site by { ActOther(site, o, safe); }
      }
      if r != Failed { RunCompletes(next, rest, safe, Count(tally, r)); }
    }
  }

  /** An entry that a run gets past: passed over, or wanted, readable, at a safe place and installable there. */
  predicate Usable(site: Site, e: Entry, wanted: bool, leadingDot: bool, catalog: bool, safe: SafeTest) {
    wanted ==>
      && SafePlace(e.path, leadingDot).Some? && e.bytes.Some?
      && Installable(site, Put(e.path, SafePlace(e.path, leadingDot).value, e.bytes.value, catalog), safe)
  }

  /** The wanted entries go to places apart from each other. */
  ghost predicate ChoiceApart(es: seq<Entry>, choice: Choice, leadingDot: bool)
    requires |choice| == |es|
  {
    forall i, j :: 0 <= i < j < |es| && choice[i] && choice[j] ==>
      var a, b := SafePlace(es[i].path, leadingDot), SafePlace(es[j].path, leadingDot);
      a.Some? && b.Some? ==> Apart(a.value, b.value)
  }

  /** What an entry becomes: refused, passed over, or put at its safe place. */
  predicate OrderFits(e: Entry, refused: bool, wanted: bool, leadingDot: bool, catalog: bool, order: Order) {
    var place := SafePlace(e.path, leadingDot);
    && (order.Bad? <==> refused || (wanted && (place.None? || e.bytes.None?)))
    && (order.Put? <==> !order.Bad? && wanted)
    && (order.Put? ==> order == Put(e.path, place.value, e.bytes.value, catalog))
  }

  lemma OrdersApart(es: seq<Entry>, refused: Choice, choice: Choice, leadingDot: bool, catalogs: Choice,
                    orders: seq<Order>)
    requires |orders| == |refused| == |choice| == |catalogs| == |es| && ChoiceApart(es, choice, leadingDot)
    requires forall i :: 0 <= i < |es| ==>
                           OrderFits(es[i], refused[i], choice[i], leadingDot, catalogs[i], orders[i])
    ensures AllApart(orders)
  {
    hide SafePlace, Apart;
    forall o | o in orders && o.Put?
      ensures o.at != []
    {
      var i :| 0 <= i < |orders| && orders[i] == o;
      SafePlaceStaysInside(es[i].path, leadingDot);
    }
  }

  lemma OrdersComplete(site: Site, es: seq<Entry>, refused: Choice, choice: Choice, leadingDot: bool,
                       catalogs: Choice, orders: seq<Order>, safe: SafeTest)
    requires |orders| == |refused| == |choice| == |catalogs| == |es|
    requires SiteOk(site) && ChoiceApart(es, choice, leadingDot)
    requires forall i :: 0 <= i < |es| ==>
                           OrderFits(es[i], refused[i], choice[i], leadingDot, catalogs[i], orders[i])
    ensures Run(site, orders, [], safe, NOTHING).1.Done? <==>
              forall i :: 0 <= i < |es| ==>
                            !refused[i] && Usable(site, es[i], choice[i], leadingDot, catalogs[i], safe)
  {
    hide SafePlace, Run, Installable, SiteOk, Apart;
    OrdersApart(es, refused, choice, leadingDot, catalogs, orders);
    RunCompletes(site, orders, safe, NOTHING);
    forall i | 0 <= i < |es|
      ensures orders[i] in orders
    {
    }
  }

  lemma TrackOrderFits(e: Entry)
    ensures OrderFits(e, e.role != Some("track_resources") && e.role != Some("track_catalog"), TrackWanted(e), false,
                      TrackCatalogPath(e.path), TrackOrder(e))
  {
    hide SafePlace, TrackCatalog, TrackCatalogPath;
    TrackCatalogExactly(e.path);
  }

  lemma AssetOrderFits(e: Entry)
    ensures OrderFits(e, e.role.None? || (AssetWanted(e) && ':' in e.path), AssetWanted(e), true,
                      ItemTablePath(e.path) || OtherCatalogPath(e.path), AssetOrder(e))
  {
    hide SafePlace, AssetCatalog, FoldPath, ItemTablePath, OtherCatalogPath;
    AssetCatalogExactly(e.path);
  }

  /**
   Without outside faults, and with the wanted entries at places apart, a track installation completes exactly when
   every entry has one of its two roles and every wanted one can be installed where it goes.
   */
  lemma TracksComplete(site: Site, entries: seq<Entry>)
    requires SiteOk(site) && ChoiceApart(entries, TrackChoice(entries), false)
    ensures Run(site, TrackOrders(entries), [], NEVER_SAFE, NOTHING).1.Done? <==>
              forall i :: 0 <= i < |entries| ==>
                            var e := entries[i];
                            && (e.role == Some("track_resources") || e.role == Some("track_catalog"))
                            && Usable(site, e, TrackWanted(e), false, TrackCatalogPath(e.path), NEVER_SAFE)
  {
    hide Run, TrackOrder, TrackWanted, TrackCatalogPath, Usable, SiteOk, ChoiceApart, OrderFits;
    var n := |entries|;
    TrackOrdersAt(entries);
    var refused := seq(n, i requires 0 <= i < n =>
      entries[i].role != Some("track_resources") && entries[i].role != Some("track_catalog"));
    var catalogs := seq(n, i requires 0 <= i < n => TrackCatalogPath(entries[i].path));
    forall i | 0 <= i < n
      ensures OrderFits(entries[i], refused[i], TrackChoice(entries)[i], false, catalogs[i], TrackOrders(entries)[i])
    {
      TrackOrderFits(entries[i]);
    }
    OrdersComplete(site, entries, refused, TrackChoice(entries), false, catalogs, TrackOrders(entries), NEVER_SAFE);
  }

  /** The same of an asset installation, which passes over every other reported role. */
  lemma AssetsComplete(site: Site, entries: seq<Entry>, safe: SafeTest)
    requires SiteOk(site) && ChoiceApart(entries, AssetChoice(entries), true)
    ensures Run(site, AssetOrders(entries), [], safe, NOTHING).1.Done? <==>
              forall i :: 0 <= i < |entries| ==>
                            var e := entries[i];
                            && e.role.Some? && (AssetWanted(e) ==> ':' !in e.path)
                            && Usable(site, e, AssetWanted(e), true,
                                      ItemTablePath(e.path) || OtherCatalogPath(e.path), safe)
  {
    hide Run, AssetOrder, AssetWanted, ItemTablePath, OtherCatalogPath, Usable, SiteOk, ChoiceApart, OrderFits;
    var n := |entries|;
    AssetOrdersAt(entries);
    var refused := seq(n, i requires 0 <= i < n =>
      entries[i].role.None? || (AssetWanted(entries[i]) && ':' in entries[i].path));
    var catalogs := seq(n, i requires 0 <= i < n =>
      ItemTablePath(entries[i].path) || OtherCatalogPath(entries[i].path));
    forall i | 0 <= i < n
      ensures OrderFits(entries[i], refused[i], AssetChoice(entries)[i], true, catalogs[i], AssetOrders(entries)[i])
    {
      AssetOrderFits(entries[i]);
    }
    OrdersComplete(site, entries, refused, AssetChoice(entries), true, catalogs, AssetOrders(entries), safe);
  }

  /** Where a fault strikes, an entry that was to replace a file stops: nothing is lost, and what was done is done. */
  lemma FaultStops(site: Site, o: Order, fault: Fault, safe: SafeTest)
    requires SiteOk(site) && o.Put? && o.at in site.tree.files && site.tree.files[o.at] != o.bytes
    requires Installable(site, o, safe)
    ensures var (after, r) := Act(site, o, fault, safe);
            match fault
            case Clear =>
              r != Failed && o.at in after.backup.files && after.tree.files == site.tree.files[o.at := o.bytes]
            case AtRead => r == Failed && after == site
            case AtBackup =>
              && after.backup.files == site.backup.files
              && (o.at !in site.backup.files ==>
                    && r == Failed && after.tree == site.tree
                    && after.backup.folders == site.backup.folders + Parents(o.at))
              && (o.at in site.backup.files ==> r != Failed && after.tree.files == site.tree.files[o.at := o.bytes])
            case AtWrite =>
              && r == Failed && o.at in after.backup.files && after.tree.files == site.tree.files
              && after.tree.folders == site.tree.folders + Parents(o.at)
            case AtVerify =>
              r == Failed && o.at in after.backup.files && after.tree.files == site.tree.files[o.at := o.bytes]
  {
    hide TreeOk;
    NothingAbove(site.tree, o.at);
  }

  lemma ActOther(site: Site, o: Order, safe: SafeTest)
    requires !o.Put?
    ensures Act(site, o, Clear, safe) == (site, if o.Pass? then Passed else Failed)
  {
  }

  lemma RestApart(orders: seq<Order>)
    requires orders != [] && AllApart(orders)
    ensures AllApart(orders[1..])
    ensures orders[0].Put? ==> orders[0].at != []
    ensures orders[0].Put? ==> forall q :: q in orders[1..] && q.Put? ==> Apart(orders[0].at, q.at)
  {
    var rest := orders[1..];
    assert orders[0] in orders;
    forall o | o in rest
      ensures o in orders
    {
    }
    forall q | q in rest && q.Put? && orders[0].Put?
      ensures Apart(orders[0].at, q.at)
    {
      var i :| 0 <= i < |rest| && rest[i] == q;
      assert orders[i + 1] == q;
    }
  }

  // ----------------------------------------------------- the two data archives

  const TABLE_ARCHIVE := "DataPack1_00000.rho5"
  const CATALOG_ARCHIVE := "DataPack4_00002.rho5"
  const PRISTINE_SUFFIX := ".pristine.bak"

  function Sibling(name: string): string {
    name + PRISTINE_SUFFIX
  }

  /** Replaces one archive of the Data folder after `backup_sibling_once`. */
  function UpdateArchive(data: map<string, Data>, name: string, staged: map<string, Data>,
      fault: Fault): (map<string, Data>, bool) {
    if name !in staged || name !in data || fault == AtRead then (data, false)
    else if Sibling(name) !in data && fault == AtBackup then (data, false)
    else
      var saved := if Sibling(name) in data then data else data[Sibling(name) := data[name]];
      if saved[name] == staged[name] then (saved, true)
      else if fault == AtWrite then (saved, false)
      else (saved[name := staged[name]], fault != AtVerify)
  }

  function UpdateArchives(data: map<string, Data>, names: seq<string>, staged: map<string, Data>, faults: seq<Fault>)
    : (map<string, Data>, bool)
    decreases names
  {
    if names == [] then (data, true)
    else
      var (next, ok) := UpdateArchive(data, names[0], staged, FaultOf(faults));
      if !ok then (next, false) else UpdateArchives(next, names[1..], staged, Later(faults))
  }

  function OriginalArchive(data: map<string, Data>, name: string): Data
    requires name in data
  {
    if Sibling(name) in data then data[Sibling(name)] else data[name]
  }

  /** No name is the backup name of another. */
  predicate NoSiblings(names: seq<string>) {
    forall a, b :: a in names && b in names ==> a != Sibling(b)
  }

  lemma ArchiveNamesAreNoSiblings()
    ensures NoSiblings([TABLE_ARCHIVE, CATALOG_ARCHIVE])
  {
  }

  lemma SiblingInjective(a: string, b: string)
    requires Sibling(a) == Sibling(b)
    ensures a == b
  {
    assert Sibling(a)[..|a|] == a && Sibling(b)[..|b|] == b;
  }

  /** The first contents of each data archive stay known through any updates, complete or not. */
  lemma {:induction false} ArchivesRecoverable(
    data: map<string, Data>, names: seq<string>, all: seq<string>, staged: map<string, Data>, faults: seq<Fault>)
    requires NoSiblings(all) && forall n :: n in names ==> n in all
    ensures var after := UpdateArchives(data, names, staged, faults).0;
            forall n :: n in all && n in data ==> n in after && OriginalArchive(after, n) == OriginalArchive(data, n)
    decreases names
  {
    hide Sibling;
    if names != [] {
      var name := names[0];
      assert name in names;
      assert forall n :: n in names[1..] ==> n in names;
      var (next, ok) := UpdateArchive(data, name, staged, FaultOf(faults));
      forall n | n in all && n in data
        ensures n in next && OriginalArchive(next, n) == OriginalArchive(data, n)
      {
        if n != name && Sibling(n) == Sibling(name) { SiblingInjective(n, name); }
      }
      if ok { ArchivesRecoverable(next, names[1..], all, staged, Later(faults)); }
    }
  }

  /** So it is for the two archives that the installer replaces, over any number of runs. */
  lemma {:induction false} DataArchivesRecoverable(
    data: map<string, Data>, runs: seq<(map<string, Data>, seq<Fault>)>)
    ensures var after := ArchiveHistory(data, runs);
            forall n :: n in {TABLE_ARCHIVE, CATALOG_ARCHIVE} && n in data
              ==> n in after && OriginalArchive(after, n) == OriginalArchive(data, n)
    decreases runs
  {
    hide UpdateArchives, OriginalArchive, NoSiblings;
    if runs != [] {
      var names := [TABLE_ARCHIVE, CATALOG_ARCHIVE];
      ArchiveNamesAreNoSiblings();
      ArchivesRecoverable(data, names, names, runs[0].0, runs[0].1);
      assert forall n :: n in {TABLE_ARCHIVE, CATALOG_ARCHIVE} ==> n in names;
      DataArchivesRecoverable(UpdateArchives(data, names, runs[0].0, runs[0].1).0, runs[1..]);
    }
  }

  function ArchiveHistory(data: map<string, Data>, runs: seq<(map<string, Data>, seq<Fault>)>): map<string, Data>
    decreases runs
  {
    if runs == [] then data
    else ArchiveHistory(UpdateArchives(data, [TABLE_ARCHIVE, CATALOG_ARCHIVE], runs[0].0, runs[0].1).0, runs[1..])
  }

  /** An archive can be updated: it is staged and there. */
  predicate Updatable(data: map<string, Data>, staged: map<string, Data>, name: string) {
    name in staged && name in data
  }

  /** What one update does to the file with a name. */
  ghost predicate EntryUpdated(data: map<string, Data>, after: map<string, Data>, staged: map<string, Data>,
                               name: string, n: string)
    requires Updatable(data, staged, name)
  {
    if n == name then n in after && after[n] == staged[n]
    else if n == Sibling(name) then n in after && after[n] == if n in data then data[n] else data[name]
    else (n in after <==> n in data) && (n in data ==> after[n] == data[n])
  }

  lemma ArchiveUpdated(data: map<string, Data>, name: string, staged: map<string, Data>)
    ensures var (after, ok) := UpdateArchive(data, name, staged, Clear);
            && (ok <==> Updatable(data, staged, name))
            && (ok ==> forall n :: EntryUpdated(data, after, staged, name, n))
  {
    assert Sibling(name) != name by { assert |Sibling(name)| > |name|; }
  }

  const TABLE_BACKUP := "DataPack1_00000.rho5.pristine.bak"
  const CATALOG_BACKUP := "DataPack4_00002.rho5.pristine.bak"

  lemma ArchiveLiterals()
    ensures TABLE_ARCHIVE == "DataPack1_00000.rho5" && CATALOG_ARCHIVE == "DataPack4_00002.rho5"
    ensures Sibling(TABLE_ARCHIVE) == TABLE_BACKUP && Sibling(CATALOG_ARCHIVE) == CATALOG_BACKUP
    ensures |TABLE_ARCHIVE| == |CATALOG_ARCHIVE| == 20 && |TABLE_BACKUP| == |CATALOG_BACKUP| == 33
    ensures TABLE_ARCHIVE[8] != CATALOG_ARCHIVE[8] && TABLE_BACKUP[8] != CATALOG_BACKUP[8]
  {
  }

  /**
   Without faults the update completes exactly when both archives are staged and there. Then both are as staged, beside
   each stands what it was at its first update, and nothing else is touched.
   */
  lemma ArchivesUpdated(data: map<string, Data>, staged: map<string, Data>)
    ensures var (after, ok) := UpdateArchives(data, [TABLE_ARCHIVE, CATALOG_ARCHIVE], staged, []);
            var table, catalog := "DataPack1_00000.rho5", "DataPack4_00002.rho5";
            && (ok <==> Updatable(data, staged, table) && Updatable(data, staged, catalog))
            && (ok ==>
                  && table in after && after[table] == staged[table]
                  && catalog in after && after[catalog] == staged[catalog]
                  && TABLE_BACKUP in after && CATALOG_BACKUP in after
                  && after[TABLE_BACKUP] == (if TABLE_BACKUP in data then data[TABLE_BACKUP] else data[table])
                  && after[CATALOG_BACKUP] == (if CATALOG_BACKUP in data then data[CATALOG_BACKUP] else data[catalog])
                  && forall n :: n !in {table, catalog, TABLE_BACKUP, CATALOG_BACKUP} ==>
                                   (n in after <==> n in data) && (n in data ==> after[n] == data[n]))
  {
    hide UpdateArchive, Sibling, TABLE_ARCHIVE, CATALOG_ARCHIVE, TABLE_BACKUP, CATALOG_BACKUP;
    ArchiveLiterals();
    var names := [TABLE_ARCHIVE, CATALOG_ARCHIVE];
    var (middle, first) := UpdateArchive(data, TABLE_ARCHIVE, staged, Clear);
    var (after, second) := UpdateArchive(middle, CATALOG_ARCHIVE, staged, Clear);
    ArchiveUpdated(data, TABLE_ARCHIVE, staged);
    ArchiveUpdated(middle, CATALOG_ARCHIVE, staged);
    assert names[1..] == [CATALOG_ARCHIVE] && names[1..][1..] == [];
    assert UpdateArchives(after, [], staged, []) == (after, true);
    assert UpdateArchives(middle, [CATALOG_ARCHIVE], staged, []) == if second then (after, true) else (after, false);
    assert UpdateArchives(data, names, staged, []) == if first then (after, second) else (middle, false);
    if first && second {
      forall n
        ensures EntryUpdated(data, middle, staged, TABLE_ARCHIVE, n)
        ensures EntryUpdated(middle, after, staged, CATALOG_ARCHIVE, n)
        ensures n !in {TABLE_ARCHIVE, CATALOG_ARCHIVE, TABLE_BACKUP, CATALOG_BACKUP} ==>
                  (n in after <==> n in data) && (n in data ==> after[n] == data[n])
      {
      }
      assert EntryUpdated(data, middle, staged, TABLE_ARCHIVE, TABLE_ARCHIVE);
      assert EntryUpdated(data, middle, staged, TABLE_ARCHIVE, CATALOG_ARCHIVE);
      assert EntryUpdated(data, middle, staged, TABLE_ARCHIVE, TABLE_BACKUP);
      assert EntryUpdated(data, middle, staged, TABLE_ARCHIVE, CATALOG_BACKUP);
      assert EntryUpdated(middle, after, staged, CATALOG_ARCHIVE, TABLE_ARCHIVE);
      assert EntryUpdated(middle, after, staged, CATALOG_ARCHIVE, CATALOG_ARCHIVE);
      assert EntryUpdated(middle, after, staged, CATALOG_ARCHIVE, TABLE_BACKUP);
      assert EntryUpdated(middle, after, staged, CATALOG_ARCHIVE, CATALOG_BACKUP);
    } else if first {
      assert EntryUpdated(data, middle, staged, TABLE_ARCHIVE, CATALOG_ARCHIVE);
    }
  }

  /** A fault is met only where the update gets to, and the update that meets one stops with what it did before. */
  lemma ArchiveFaulted(data: map<string, Data>, name: string, staged: map<string, Data>, fault: Fault)
    requires Updatable(data, staged, name)
    ensures var (after, ok) := UpdateArchive(data, name, staged, fault);
            var saved := data[Sibling(name) := OriginalArchive(data, name)];
            match fault
            case Clear => ok
            case AtRead => !ok && after == data
            case AtBackup => (ok <==> Sibling(name) in data) && (!ok ==> after == data)
            case AtWrite => (ok <==> data[name] == staged[name]) && (!ok ==> after == saved)
            case AtVerify => (ok <==> data[name] == staged[name]) && after[name] == staged[name]
  {
    assert Sibling(name) != name by { assert |Sibling(name)| > |name|; }
    assert Sibling(name) in data ==> data[Sibling(name) := OriginalArchive(data, name)] == data;
  }

  // ------------------------------------------------------------ the installers

  class Installation {
    var tree: Tree
    var backup: Tree
    var data: map<string, Data>

    constructor (dataRaw: Tree, saved: Tree, dataFolder: map<string, Data>)
      ensures tree == dataRaw && backup == saved && data == dataFolder
    {
      tree, backup, data := dataRaw, saved, dataFolder;
    }

    ghost function State(): Site
      reads this
    {
      Site(tree, backup)
    }

    method BackUpOnce(at: Place, fault: Fault) returns (ok: bool)
      requires at in tree.files
      modifies this`backup
      ensures (State(), ok) == BackUp(old(State()), at, fault)
    {
      if at in backup.files { return true; }
      if at in backup.folders || Blocked(backup, at) { return false; }
      backup := backup.(folders := backup.folders + Parents(at));
      if fault == AtBackup { return false; }
      backup := backup.(files := backup.files[at := tree.files[at]]);
      ok := true;
    }

    method WriteFile(at: Place, bytes: Data, fault: Fault) returns (ok: bool)
      modifies this`tree
      ensures (State(), ok) == Store(old(State()), at, bytes, fault)
    {
      if Blocked(tree, at) { return false; }
      tree := tree.(folders := tree.folders + Parents(at));
      if fault == AtWrite { return false; }
      tree := tree.(files := tree.files[at := bytes]);
      ok := fault != AtVerify;
    }

    /** The body of the entry loop, once the entry's destination is known. */
    method InstallEntry(o: Order, fault: Fault, safe: SafeTest) returns (r: Outcome)
      modifies this`tree, this`backup
      ensures (State(), r) == Act(old(State()), o, fault, safe)
    {
      hide BackUp, Store;
      if o.Pass? { return Passed; }
      if o.Bad? || fault == AtRead { return Failed; }
      if o.at in tree.files {
        var existing := tree.files[o.at];
        if existing == o.bytes { return Same; }
        if !o.catalog && safe(o.path, existing, o.bytes) != Some(true) { return Failed; }
        var saved := BackUpOnce(o.at, fault);
        if !saved { return Failed; }
        var stored := WriteFile(o.at, o.bytes, fault);
        r := if !stored then Failed else if o.catalog then Replaced else Migrated;
      } else {
        if o.at in tree.folders { return Failed; }
        var stored := WriteFile(o.at, o.bytes, fault);
        r := if stored then Fresh else Failed;
      }
    }

    method InstallTracks(entries: seq<Entry>, faults: seq<Fault>) returns (r: Ended)
      modifies this`tree, this`backup
      ensures (State(), r) == Run(old(State()), TrackOrders(entries), faults, NEVER_SAFE, NOTHING)
    {
      hide Act, TrackOrder;
      var tally, pending := NOTHING, faults;
      assert entries[0..] == entries;
      for i := 0 to |entries|
        invariant Run(old(State()), TrackOrders(entries), faults, NEVER_SAFE, NOTHING)
               == Run(State(), TrackOrders(entries[i..]), pending, NEVER_SAFE, tally)
      {
        assert entries[i..][0] == entries[i] && entries[i..][1..] == entries[i + 1..];
        assert TrackOrders(entries[i..])[1..] == TrackOrders(entries[i + 1..]);
        var outcome := InstallEntry(TrackOrder(entries[i]), FaultOf(pending), NEVER_SAFE);
        if outcome == Failed { return Halted; }
        pending := Later(pending);
        tally := Count(tally, outcome);
      }
      r := Done(tally);
    }

    method InstallAssets(entries: seq<Entry>, faults: seq<Fault>, safe: SafeTest) returns (r: Ended)
      modifies this`tree, this`backup
      ensures (State(), r) == Run(old(State()), AssetOrders(entries), faults, safe, NOTHING)
    {
      hide Act, AssetOrder;
      var tally, pending := NOTHING, faults;
      assert entries[0..] == entries;
      for i := 0 to |entries|
        invariant Run(old(State()), AssetOrders(entries), faults, safe, NOTHING)
               == Run(State(), AssetOrders(entries[i..]), pending, safe, tally)
      {
        assert entries[i..][0] == entries[i] && entries[i..][1..] == entries[i + 1..];
        assert AssetOrders(entries[i..])[1..] == AssetOrders(entries[i + 1..]);
        var outcome := InstallEntry(AssetOrder(entries[i]), FaultOf(pending), safe);
        if outcome == Failed { return Halted; }
        pending := Later(pending);
        tally := Count(tally, outcome);
      }
      r := Done(tally);
    }

    /** The two archives that the asset installer replaces beside the DataRaw tree. */
    method ReplaceArchives(staged: map<string, Data>, faults: seq<Fault>) returns (ok: bool)
      modifies this`data
      ensures (data, ok) == UpdateArchives(old(data), [TABLE_ARCHIVE, CATALOG_ARCHIVE], staged, faults)
    {
      hide Sibling;
      var names, pending := [TABLE_ARCHIVE, CATALOG_ARCHIVE], faults;
      assert names[0..] == names;
      for i := 0 to |names|
        invariant UpdateArchives(old(data), names, staged, faults) == UpdateArchives(data, names[i..], staged, pending)
      {
        assert names[i..][0] == names[i] && names[i..][1..] == names[i + 1..];
        var name, fault := names[i], FaultOf(pending);
        if name !in staged || name !in data || fault == AtRead { return false; }
        if Sibling(name) !in data {
          if fault == AtBackup { return false; }
          data := data[Sibling(name) := data[name]];
        }
        if data[name] != staged[name] {
          if fault == AtWrite { return false; }
          data := data[name := staged[name]];
          if fault == AtVerify { return false; }
        }
        pending := Later(pending);
      }
      ok := true;
    }
  }
}
