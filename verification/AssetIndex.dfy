/** The asset index of one client: the scan that builds it, its cache file, and extraction from it. */
module AssetIndex {
  import opened Text
  import Paths
  import opened LittleEndian

  datatype Property = NoProperty | Compressed | Encrypted | PartialEncrypted | CompressedEncrypted

  datatype Origin = Legacy(archive: string, internalPath: string, property: Property) | Rho5(entryIndex: nat)

  datatype AssetRecord = AssetRecord(virtualPath: string, size: nat, origin: Origin)

  type RecordMap = map<string, seq<AssetRecord>>

  /** One entry of a legacy archive. */
  datatype Entry = Entry(path: string, size: nat, property: Property)

  /** What a file name leads to in the data directory. */
  datatype Opened = Missing | Unreadable | Archive(entries: seq<Entry>, contents: map<string, seq<byte>>)

  type Disk = map<string, Opened>

  function Open(disk: Disk, name: string): Opened {
    if name in disk then disk[name] else Missing
  }

  datatype Mount = Mount(fileName: string, prefix: string)

  // ------------------------------------------------------------------ folding

  function TrimLeft(s: string): string {
    if s != "" && s[0] == '/' then TrimLeft(s[1..]) else s
  }

  function TrimRight(s: string): string {
    if s != "" && s[|s| - 1] == '/' then TrimRight(s[..|s| - 1]) else s
  }

  /** `trim_matches('/')`. */
  function Trim(s: string): string {
    TrimRight(TrimLeft(s))
  }

  function FoldPath(path: string): string {
    Lower(Trim(Paths.Slashed(path)))
  }

  predicate Separator(c: char) { c == '/' || c == '\\' }

  predicate AllSeparators(s: string) {
    forall i :: 0 <= i < |s| ==> Separator(s[i])
  }

  lemma {:induction false} TrimLeftAway(a: string, rest: string)
    requires (forall i :: 0 <= i < |a| ==> a[i] == '/') && (rest == "" || rest[0] != '/')
    ensures TrimLeft(a + rest) == rest
  {
    if a == "" {
      assert a + rest == rest;
    } else {
      assert (a + rest)[1..] == a[1..] + rest;
      TrimLeftAway(a[1..], rest);
    }
  }

  lemma {:induction false} TrimRightAway(rest: string, b: string)
    requires (forall i :: 0 <= i < |b| ==> b[i] == '/') && (rest == "" || rest[|rest| - 1] != '/')
    ensures TrimRight(rest + b) == rest
    decreases |b|
  {
    if b == "" {
      assert rest + b == rest;
    } else {
      assert (rest + b)[..|rest + b| - 1] == rest + b[..|b| - 1];
      TrimRightAway(rest, b[..|b| - 1]);
    }
  }

  /** Folding drops separators at both ends, turns the others into slashes, and lowers ASCII letters. */
  lemma FoldExactly(a: string, middle: string, b: string)
    requires AllSeparators(a) && AllSeparators(b)
    requires middle != "" && !Separator(middle[0]) && !Separator(middle[|middle| - 1])
    ensures var folded := FoldPath(a + middle + b);
            && |folded| == |middle|
            && forall i :: 0 <= i < |middle| ==>
                             folded[i] == if Separator(middle[i]) then '/' else LowerChar(middle[i])
  {
    var x, m, y := Paths.Slashed(a), Paths.Slashed(middle), Paths.Slashed(b);
    assert Paths.Slashed(a + middle + b) == x + (m + y);
    TrimLeftAway(x, m + y);
    TrimRightAway(m, y);
  }

  function JoinVirtual(prefix: string, path: string): string {
    if prefix == "" then Paths.Slashed(path) else Trim(prefix) + "/" + Paths.Slashed(path)
  }

  // ----------------------------------------------------------------- the scan

  predicate EndsWithRho(s: string) {
    var low := Lower(s);
    |low| >= 4 && low[|low| - 4..] == ".rho"
  }

  predicate PlainFileName(name: string) {
    name != "" && '/' !in name && '\\' !in name && '\0' !in name && name != "." && name != ".." && EndsWithRho(name)
  }

  datatype Result<+T> = Ok(value: T) | Err

  function RecordOf(mount: Mount, entry: Entry): AssetRecord {
    AssetRecord(JoinVirtual(mount.prefix, entry.path), entry.size, Legacy(mount.fileName, entry.path, entry.property))
  }

  function RecordsOf(mount: Mount, entries: seq<Entry>): (r: seq<AssetRecord>)
    ensures |r| == |entries| && forall i :: 0 <= i < |entries| ==> r[i] == RecordOf(mount, entries[i])
  {
    if entries == [] then [] else [RecordOf(mount, entries[0])] + RecordsOf(mount, entries[1..])
  }

  /** Every record of the mounted archives in scan order; a repeated archive counts where it is mounted first. */
  function Scanned(mounts: seq<Mount>, seen: set<string>, disk: Disk): Result<seq<AssetRecord>>
    decreases mounts
  {
    if mounts == [] then Ok([])
    else
      var m := mounts[0];
      if !PlainFileName(m.fileName) then Err
      else if Lower(m.fileName) in seen then Scanned(mounts[1..], seen, disk)
      else
        var rest := Scanned(mounts[1..], seen + {Lower(m.fileName)}, disk);
        match Open(disk, m.fileName)
        case Missing => rest
        case Unreadable => Err
        case Archive(entries, _) => if rest.Err? then Err else Ok(RecordsOf(m, entries) + rest.value)
  }

  function Add(m: RecordMap, r: AssetRecord): RecordMap {
    var k := FoldPath(r.virtualPath);
    m[k := (if k in m then m[k] else []) + [r]]
  }

  /** Records grouped under their folded paths, each group in order of arrival. */
  function Grouped(m: RecordMap, rs: seq<AssetRecord>): RecordMap
    decreases rs
  {
    if rs == [] then m else Grouped(Add(m, rs[0]), rs[1..])
  }

  function AtKey(rs: seq<AssetRecord>, key: string): seq<AssetRecord> {
    if rs == [] then []
    else Own(rs[0], key) + AtKey(rs[1..], key)
  }

  function LastAt(rs: seq<AssetRecord>, key: string): Option<AssetRecord> {
    if rs == [] then None
    else if FoldPath(rs[|rs| - 1].virtualPath) == key then Some(rs[|rs| - 1])
    else LastAt(rs[..|rs| - 1], key)
  }

  function Group(m: RecordMap, key: string): seq<AssetRecord> {
    if key in m then m[key] else []
  }

  /** `effective`: the last record of the folded path's group. */
  function Effective(m: RecordMap, path: string): Option<AssetRecord> {
    var g := Group(m, FoldPath(path));
    if g == [] then None else Some(g[|g| - 1])
  }

  lemma {:induction false} GroupedAppend(m: RecordMap, a: seq<AssetRecord>, b: seq<AssetRecord>)
    ensures Grouped(m, a + b) == Grouped(Grouped(m, a), b)
    decreases a
  {
    if a == [] {
      assert a + b == b;
    } else {
      assert (a + b)[1..] == a[1..] + b;
      GroupedAppend(Add(m, a[0]), a[1..], b);
    }
  }

  function Own(r: AssetRecord, key: string): seq<AssetRecord> {
    if FoldPath(r.virtualPath) == key then [r] else []
  }

  lemma AddAt(m: RecordMap, r: AssetRecord, key: string)
    ensures Group(Add(m, r), key) == Group(m, key) + Own(r, key)
  {
  }

  /** A group holds exactly the records of its path, in scan order. */
  lemma {:induction false} GroupedAt(m: RecordMap, rs: seq<AssetRecord>, key: string)
    ensures Group(Grouped(m, rs), key) == Group(m, key) + AtKey(rs, key)
    decreases rs
  {
    hide FoldPath, Add, Group, Own;
    if rs == [] {
      assert Group(m, key) + [] == Group(m, key);
    } else {
      GroupedAt(Add(m, rs[0]), rs[1..], key);
      AddAt(m, rs[0], key);
      var own, rest := Own(rs[0], key), AtKey(rs[1..], key);
      assert (Group(m, key) + own) + rest == Group(m, key) + (own + rest);
    }
  }

  lemma {:induction false} AtKeyAppend(a: seq<AssetRecord>, b: seq<AssetRecord>, key: string)
    ensures AtKey(a + b, key) == AtKey(a, key) + AtKey(b, key)
  {
    hide FoldPath;
    if a == [] {
      assert a + b == b;
      assert [] + AtKey(b, key) == AtKey(b, key);
    } else {
      assert (a + b)[1..] == a[1..] + b;
      AtKeyAppend(a[1..], b, key);
    }
  }

  lemma {:induction false} LastOfGroup(rs: seq<AssetRecord>, key: string)
    ensures LastAt(rs, key) == var g := AtKey(rs, key); if g == [] then None else Some(g[|g| - 1])
    decreases |rs|
  {
    hide FoldPath;
    if rs != [] {
      var init, last := rs[..|rs| - 1], rs[|rs| - 1];
      LastOfGroup(init, key);
      assert rs == init + [last];
      AtKeyAppend(init, [last], key);
      assert [last][1..] == [];
    }
  }

  /** Overlays win: the effective record of a path is the last one scanned for it, legacy mounts before RHO5 entries. */
  lemma EffectiveIsLast(legacy: seq<AssetRecord>, rho5: seq<AssetRecord>, path: string)
    ensures Effective(Grouped(Grouped(map[], legacy), rho5), path) == LastAt(legacy + rho5, FoldPath(path))
  {
    hide FoldPath;
    GroupedAppend(map[], legacy, rho5);
    GroupedAt(map[], legacy + rho5, FoldPath(path));
    LastOfGroup(legacy + rho5, FoldPath(path));
    assert [] + AtKey(legacy + rho5, FoldPath(path)) == AtKey(legacy + rho5, FoldPath(path));
  }

  // ------------------------------------------------------ one spelling an archive

  /** No two records name the same archive in different letter case. */
  predicate OneSpelling(rs: seq<AssetRecord>) {
    forall i, j :: 0 <= i < |rs| && 0 <= j < |rs| && rs[i].origin.Legacy? && rs[j].origin.Legacy? ==>
      SameText(rs[i].origin.archive, rs[j].origin.archive) ==> rs[i].origin.archive == rs[j].origin.archive
  }

  predicate FromArchives(rs: seq<AssetRecord>, disk: Disk, unseen: set<string>) {
    forall i :: 0 <= i < |rs| ==>
      && rs[i].origin.Legacy?
      && Lower(rs[i].origin.archive) !in unseen
      && Open(disk, rs[i].origin.archive).Archive?
  }

  lemma {:induction false} ScanSpelling(mounts: seq<Mount>, seen: set<string>, disk: Disk)
    requires Scanned(mounts, seen, disk).Ok?
    ensures var rs := Scanned(mounts, seen, disk).value; FromArchives(rs, disk, seen) && OneSpelling(rs)
    decreases mounts
  {
    hide RecordOf, PlainFileName;
    if mounts != [] {
      var m := mounts[0];
      if Lower(m.fileName) in seen {
        ScanSpelling(mounts[1..], seen, disk);
      } else {
        var more := seen + {Lower(m.fileName)};
        ScanSpelling(mounts[1..], more, disk);
        var rest := Scanned(mounts[1..], more, disk).value;
        if Open(disk, m.fileName).Archive? {
          var own := RecordsOf(m, Open(disk, m.fileName).entries);
          assert forall i :: 0 <= i < |own| ==> own[i].origin.Legacy? && own[i].origin.archive == m.fileName by {
            RecordsName(m, Open(disk, m.fileName).entries);
          }
          SpellingAppend(own, rest, m.fileName);
        }
      }
    }
  }

  lemma RecordsName(m: Mount, entries: seq<Entry>)
    ensures forall i :: 0 <= i < |entries| ==>
              var r := RecordsOf(m, entries)[i]; r.origin.Legacy? && r.origin.archive == m.fileName
  {
  }

  lemma SpellingAppend(own: seq<AssetRecord>, rest: seq<AssetRecord>, name: string)
    requires forall i :: 0 <= i < |own| ==> own[i].origin.Legacy? && own[i].origin.archive == name
    requires forall i :: 0 <= i < |rest| ==> rest[i].origin.Legacy? && Lower(rest[i].origin.archive) != Lower(name)
    requires OneSpelling(rest)
    ensures OneSpelling(own + rest)
  {
  }

  /** The scan as it runs over the mounts of `aaa.pk`. */
  method ScanLegacyMounts(mounts: seq<Mount>, disk: Disk) returns (r: Result<RecordMap>)
    ensures match Scanned(mounts, {}, disk)
            case Ok(rs) => r == Ok(Grouped(map[], rs))
            case Err => r == Err
  {
    hide FoldPath, PlainFileName, RecordOf, Add;
    var records: RecordMap := map[];
    var seen: set<string> := {};
    ghost var done: seq<AssetRecord> := [];
    assert mounts[0..] == mounts;
    ghost var whole := Scanned(mounts, {}, disk);
    if whole.Ok? { assert done + whole.value == whole.value; }
    for i := 0 to |mounts|
      invariant records == Grouped(map[], done)
      invariant Scanned(mounts, {}, disk)
             == match Scanned(mounts[i..], seen, disk) case Ok(rest) => Ok(done + rest) case Err => Err
    {
      var m := mounts[i];
      assert mounts[i..][0] == m && mounts[i..][1..] == mounts[i + 1..];
      if !PlainFileName(m.fileName) {
        return Err;
      }
      if Lower(m.fileName) !in seen {
        seen := seen + {Lower(m.fileName)};
        match Open(disk, m.fileName) {
          case Missing =>
          case Unreadable => return Err;
          case Archive(entries, _) =>
            records := AddEntries(records, m, entries);
            GroupedAppend(map[], done, RecordsOf(m, entries));
            ghost var rest := Scanned(mounts[i + 1..], seen, disk);
            ghost var own := RecordsOf(m, entries);
            if rest.Ok? { assert done + (own + rest.value) == (done + own) + rest.value; }
            done := done + own;
        }
      }
    }
    assert done + [] == done;
    r := Ok(records);
  }

  method AddEntries(before: RecordMap, m: Mount, entries: seq<Entry>) returns (records: RecordMap)
    ensures records == Grouped(before, RecordsOf(m, entries))
  {
    hide Add, RecordOf;
    records := before;
    var rs := RecordsOf(m, entries);
    assert rs[0..] == rs;
    for i := 0 to |entries|
      invariant Grouped(before, rs) == Grouped(records, rs[i..])
    {
      assert rs[i..][0] == RecordOf(m, entries[i]) && rs[i..][1..] == rs[i + 1..];
      records := Add(records, RecordOf(m, entries[i]));
    }
  }

  // --------------------------------------------------------------- extraction

  /** `AssetIndex::extract`: opens the record's archive every time. */
  function Extract(record: AssetRecord, disk: Disk, rho5: seq<Result<seq<byte>>>): Result<seq<byte>> {
    match record.origin
    case Legacy(archive, internalPath, _) => ExtractFrom(Open(disk, archive), internalPath)
    case Rho5(entryIndex) => if entryIndex < |rho5| then rho5[entryIndex] else Err
  }

  function ExtractFrom(handle: Opened, internalPath: string): Result<seq<byte>> {
    if handle.Archive? && internalPath in handle.contents then Ok(handle.contents[internalPath]) else Err
  }

  datatype Cached = Cached(archive: string, handle: Opened)

  /** One call of the extractor: the archive it keeps afterwards, and its answer. */
  function CachedExtract(cache: Option<Cached>, record: AssetRecord, disk: Disk, rho5: seq<Result<seq<byte>>>)
    : (Option<Cached>, Result<seq<byte>>)
  {
    match record.origin
    case Legacy(archive, internalPath, _) =>
      if cache.Some? && SameText(cache.value.archive, archive) then
        (cache, ExtractFrom(cache.value.handle, internalPath))
      else if !Open(disk, archive).Archive? then (cache, Err)
      else (Some(Cached(archive, Open(disk, archive))), ExtractFrom(Open(disk, archive), internalPath))
    case Rho5(_) => (cache, Extract(record, disk, rho5))
  }

  /** The answers of the extractor to a run of requests. */
  function Serve(cache: Option<Cached>, requests: seq<AssetRecord>, disk: Disk,
      rho5: seq<Result<seq<byte>>>): seq<Result<seq<byte>>>
    decreases requests
  {
    if requests == [] then []
    else
      var (after, answer) := CachedExtract(cache, requests[0], disk, rho5);
      [answer] + Serve(after, requests[1..], disk, rho5)
  }

  /** The kept archive is the one its spelling opens, and a record of the index has that spelling. */
  predicate Honest(cache: Option<Cached>, rs: seq<AssetRecord>, disk: Disk) {
    cache.Some? ==>
      && cache.value.handle == Open(disk, cache.value.archive)
      && exists i :: 0 <= i < |rs| && rs[i].origin.Legacy? && rs[i].origin.archive == cache.value.archive
  }

  lemma CachedAgrees(cache: Option<Cached>, record: AssetRecord, rs: seq<AssetRecord>, disk: Disk,
      rho5: seq<Result<seq<byte>>>)
    requires OneSpelling(rs) && record in rs && Honest(cache, rs, disk)
    ensures var (after, answer) := CachedExtract(cache, record, disk, rho5);
            Honest(after, rs, disk) && answer == Extract(record, disk, rho5)
  {
  }

  /** Keeping one decoded archive is invisible: every answer is what uncached extraction gives. */
  lemma {:induction false} ServeAgrees(cache: Option<Cached>, requests: seq<AssetRecord>, rs: seq<AssetRecord>,
                                       disk: Disk, rho5: seq<Result<seq<byte>>>)
    requires OneSpelling(rs) && Honest(cache, rs, disk)
    requires forall i :: 0 <= i < |requests| ==> requests[i] in rs
    ensures var answers := Serve(cache, requests, disk, rho5);
            && |answers| == |requests|
            && forall i :: 0 <= i < |requests| ==> answers[i] == Extract(requests[i], disk, rho5)
    decreases requests
  {
    hide Honest, OneSpelling, CachedExtract, Extract;
    if requests != [] {
      CachedAgrees(cache, requests[0], rs, disk, rho5);
      ServeAgrees(CachedExtract(cache, requests[0], disk, rho5).0, requests[1..], rs, disk, rho5);
    }
  }

  predicate OnlyRho5(rs: seq<AssetRecord>) {
    forall i :: 0 <= i < |rs| ==> rs[i].origin.Rho5?
  }

  /** So it is for every scanned index with its RHO5 overlays, whatever is asked in whatever order. */
  lemma ExtractorRefinesExtraction(mounts: seq<Mount>, disk: Disk, overlays: seq<AssetRecord>,
                                   requests: seq<AssetRecord>, rho5: seq<Result<seq<byte>>>)
    requires Scanned(mounts, {}, disk).Ok? && OnlyRho5(overlays)
    requires forall i :: 0 <= i < |requests| ==> requests[i] in Scanned(mounts, {}, disk).value + overlays
    ensures var answers := Serve(None, requests, disk, rho5);
            && |answers| == |requests|
            && forall i :: 0 <= i < |requests| ==> answers[i] == Extract(requests[i], disk, rho5)
  {
    ScanSpelling(mounts, {}, disk);
    var rs := Scanned(mounts, {}, disk).value;
    var all := rs + overlays;
    forall i, j | 0 <= i < |all| && 0 <= j < |all| && all[i].origin.Legacy? && all[j].origin.Legacy?
      ensures SameText(all[i].origin.archive, all[j].origin.archive) ==> all[i].origin.archive == all[j].origin.archive
    {
      assert all[i] == rs[i] && all[j] == rs[j];
    }
    ServeAgrees(None, requests, all, disk, rho5);
  }

  /** The extractor with its one-archive cache. */
  class AssetExtractor {
    const disk: Disk
    const rho5: seq<Result<seq<byte>>>
    var legacy: Option<Cached>

    constructor (archives: Disk, entries: seq<Result<seq<byte>>>)
      ensures disk == archives && rho5 == entries && legacy == None
    {
      disk := archives;
      rho5 := entries;
      legacy := None;
    }

    method Extract(record: AssetRecord) returns (r: Result<seq<byte>>)
      modifies this
      ensures (legacy, r) == CachedExtract(old(legacy), record, disk, rho5)
    {
      match record.origin {
        case Legacy(archive, internalPath, _) =>
          if legacy.None? || !SameText(legacy.value.archive, archive) {
            var handle := Open(disk, archive);
            if !handle.Archive? {
              return Err;
            }
            legacy := Some(Cached(archive, handle));
          }
          r := ExtractFrom(legacy.value.handle, internalPath);
        case Rho5(entryIndex) =>
          r := if entryIndex < |rho5| then rho5[entryIndex] else Err;
      }
    }
  }

  // -------------------------------------------------------------- the cache file

  datatype CachedRecord = CachedRecord(virtualPath: string, size: nat, archive: string, internalPath: string,
      property: string)

  function PropertyName(p: Property): string {
    match p
    case NoProperty => "none"
    case Compressed => "compressed"
    case Encrypted => "encrypted"
    case PartialEncrypted => "partial_encrypted"
    case CompressedEncrypted => "compressed_encrypted"
  }

  function ParseProperty(s: string): Option<Property> {
    if s == "none" then Some(NoProperty)
    else if s == "compressed" then Some(Compressed)
    else if s == "encrypted" then Some(Encrypted)
    else if s == "partial_encrypted" then Some(PartialEncrypted)
    else if s == "compressed_encrypted" then Some(CompressedEncrypted)
    else None
  }

  function CacheGroup(rs: seq<AssetRecord>): seq<CachedRecord> {
    if rs == [] then []
    else
      (match rs[0].origin
       case Legacy(archive, internalPath, property) =>
         [CachedRecord(rs[0].virtualPath, rs[0].size, archive, internalPath, PropertyName(property))]
       case Rho5(_) => [])
      + CacheGroup(rs[1..])
  }

  function CacheRecords(m: RecordMap): map<string, seq<CachedRecord>> {
    map k | k in m :: CacheGroup(m[k])
  }

  function RestoreGroup(cs: seq<CachedRecord>): Result<seq<AssetRecord>> {
    if cs == [] then Ok([])
    else
      var property := ParseProperty(cs[0].property);
      var rest := RestoreGroup(cs[1..]);
      if property.None? || rest.Err? then Err
      else
        var origin := Legacy(cs[0].archive, cs[0].internalPath, property.value);
        Ok([AssetRecord(cs[0].virtualPath, cs[0].size, origin)] + rest.value)
  }

  function RestoreRecords(m: map<string, seq<CachedRecord>>): Result<RecordMap> {
    if exists k :: k in m && RestoreGroup(m[k]).Err? then Err
    else Ok(map k | k in m :: RestoreGroup(m[k]).value)
  }

  function LegacyOnly(rs: seq<AssetRecord>): seq<AssetRecord> {
    if rs == [] then [] else (if rs[0].origin.Legacy? then [rs[0]] else []) + LegacyOnly(rs[1..])
  }

  lemma PropertyRoundTrip(p: Property)
    ensures ParseProperty(PropertyName(p)) == Some(p)
  {
  }

  lemma {:induction false} GroupRoundTrip(rs: seq<AssetRecord>)
    ensures RestoreGroup(CacheGroup(rs)) == Ok(LegacyOnly(rs))
  {
    hide PropertyName, ParseProperty;
    if rs != [] {
      GroupRoundTrip(rs[1..]);
      if rs[0].origin.Legacy? {
        PropertyRoundTrip(rs[0].origin.property);
        assert CacheGroup(rs)[1..] == CacheGroup(rs[1..]);
      } else {
        assert CacheGroup(rs) == CacheGroup(rs[1..]);
        assert LegacyOnly(rs) == LegacyOnly(rs[1..]);
      }
    }
  }

  /** A cached index restores to the legacy part of every group. */
  lemma CacheRoundTrip(m: RecordMap)
    ensures var r := RestoreRecords(CacheRecords(m));
            && r.Ok? && r.value.Keys == m.Keys
            && forall k :: k in m ==> r.value[k] == LegacyOnly(m[k])
  {
    hide CacheGroup, RestoreGroup, LegacyOnly;
    forall k | k in m
      ensures RestoreGroup(CacheGroup(m[k])) == Ok(LegacyOnly(m[k]))
    {
      GroupRoundTrip(m[k]);
    }
  }

  lemma {:induction false} AllLegacyStays(rs: seq<AssetRecord>)
    requires forall i :: 0 <= i < |rs| ==> rs[i].origin.Legacy?
    ensures LegacyOnly(rs) == rs
  {
    if rs != [] { AllLegacyStays(rs[1..]); }
  }

  lemma {:induction false} AtKeyIn(rs: seq<AssetRecord>, key: string)
    ensures forall r :: r in AtKey(rs, key) <==> r in rs && FoldPath(r.virtualPath) == key
  {
    hide FoldPath;
    if rs != [] {
      AtKeyIn(rs[1..], key);
      assert rs == [rs[0]] + rs[1..];
    }
  }

  lemma GroupsAreLegacy(rs: seq<AssetRecord>, key: string)
    requires forall i :: 0 <= i < |rs| ==> rs[i].origin.Legacy?
    ensures LegacyOnly(Group(Grouped(map[], rs), key)) == Group(Grouped(map[], rs), key)
  {
    hide FoldPath, Grouped;
    var g := Group(Grouped(map[], rs), key);
    GroupedAt(map[], rs, key);
    assert [] + AtKey(rs, key) == AtKey(rs, key);
    AtKeyIn(rs, key);
    forall i | 0 <= i < |g|
      ensures g[i].origin.Legacy?
    {
      assert g[i] in rs;
    }
    AllLegacyStays(g);
  }

  /** What a fresh scan stores comes back unchanged, so a reused cache gives the same index. */
  lemma ScanCacheRoundTrip(mounts: seq<Mount>, disk: Disk)
    requires Scanned(mounts, {}, disk).Ok?
    ensures var m := Grouped(map[], Scanned(mounts, {}, disk).value);
            RestoreRecords(CacheRecords(m)) == Ok(m)
  {
    hide FoldPath, CacheRecords, RestoreRecords, Scanned, Grouped, LegacyOnly;
    ScanSpelling(mounts, {}, disk);
    var rs := Scanned(mounts, {}, disk).value;
    var m := Grouped(map[], rs);
    CacheRoundTrip(m);
    forall k | k in m
      ensures LegacyOnly(m[k]) == m[k]
    {
      GroupsAreLegacy(rs, k);
    }
    assert RestoreRecords(CacheRecords(m)).value == m;
  }

  // ------------------------------------------------------ what a scan records

  /** A mounted archive is named by a plain file name of a `.rho` file. */
  lemma PlainExactly(name: string)
    ensures PlainFileName(name) <==>
              && |name| >= 4 && SameText(name[|name| - 4..], ".rho")
              && '/' !in name && '\\' !in name && '\0' !in name
  {
    if |name| >= 4 {
      assert Lower(name)[|name| - 4..] == Lower(name[|name| - 4..]);
      assert Lower(".rho") == ".rho";
    }
  }

  /** A virtual path is the mount's prefix without slashes around it, a slash, and the entry's path with slashes. */
  lemma JoinExactly(a: string, middle: string, b: string, path: string)
    requires (forall i :: 0 <= i < |a| ==> a[i] == '/') && (forall i :: 0 <= i < |b| ==> b[i] == '/')
    requires middle != "" && middle[0] != '/' && middle[|middle| - 1] != '/'
    ensures JoinVirtual(a + middle + b, path) == middle + "/" + JoinVirtual("", path)
    ensures |JoinVirtual("", path)| == |path|
    ensures forall i :: 0 <= i < |path| ==> JoinVirtual("", path)[i] == if path[i] == '\\' then '/' else path[i]
  {
    assert a + middle + b == a + (middle + b);
    TrimLeftAway(a, middle + b);
    TrimRightAway(middle, b);
  }

  /** No earlier mount names the archive, in any case. */
  predicate FirstMount(mounts: seq<Mount>, i: nat)
    requires i < |mounts|
  {
    forall j :: 0 <= j < i ==> !SameText(mounts[j].fileName, mounts[i].fileName)
  }

  /** The records of an entry list: path, size and origin of each entry, in their order. */
  ghost predicate RecordsAre(rs: seq<AssetRecord>, m: Mount, entries: seq<Entry>) {
    && |rs| == |entries|
    && forall i :: 0 <= i < |rs| ==>
                     && rs[i].virtualPath == JoinVirtual(m.prefix, entries[i].path) && rs[i].size == entries[i].size
                     && rs[i].origin == Legacy(m.fileName, entries[i].path, entries[i].property)
  }

  /** What a mount adds: the entries of its archive, when it is the first to name one that is there. */
  function Contribution(mounts: seq<Mount>, disk: Disk, i: nat): (rs: seq<AssetRecord>)
    requires i < |mounts|
    ensures var name := mounts[i].fileName;
            if FirstMount(mounts, i) && name in disk && disk[name].Archive? then
              RecordsAre(rs, mounts[i], disk[name].entries)
            else rs == []
  {
    if FirstMount(mounts, i) && Open(disk, mounts[i].fileName).Archive?
    then RecordsOf(mounts[i], Open(disk, mounts[i].fileName).entries)
    else []
  }

  function Contributions(mounts: seq<Mount>, disk: Disk, from: nat): seq<AssetRecord>
    requires from <= |mounts|
    decreases |mounts| - from
  {
    if from == |mounts| then [] else Contribution(mounts, disk, from) + Contributions(mounts, disk, from + 1)
  }

  /** A scan fails at an unusable name and at an archive that is there but cannot be read. */
  predicate Breaks(mounts: seq<Mount>, disk: Disk, i: nat)
    requires i < |mounts|
  {
    || !PlainFileName(mounts[i].fileName)
    || (FirstMount(mounts, i) && mounts[i].fileName in disk && disk[mounts[i].fileName].Unreadable?)
  }

  predicate BreaksFrom(mounts: seq<Mount>, disk: Disk, n: nat) {
    exists i :: n <= i < |mounts| && Breaks(mounts, disk, i)
  }

  lemma BreaksNext(mounts: seq<Mount>, disk: Disk, n: nat)
    requires n < |mounts|
    ensures BreaksFrom(mounts, disk, n) <==> Breaks(mounts, disk, n) || BreaksFrom(mounts, disk, n + 1)
  {
    hide Breaks;
  }

  function NamesBefore(mounts: seq<Mount>, n: nat): set<string>
    requires n <= |mounts|
  {
    set j | 0 <= j < n :: Lower(mounts[j].fileName)
  }

  lemma {:induction false} ScansFrom(mounts: seq<Mount>, disk: Disk, n: nat)
    requires n <= |mounts|
    ensures Scanned(mounts[n..], NamesBefore(mounts, n), disk)
         == if BreaksFrom(mounts, disk, n) then Err else Ok(Contributions(mounts, disk, n))
    decreases |mounts| - n
  {
    hide PlainFileName, Lower, RecordsAre, BreaksFrom;
    if n == |mounts| {
      NothingBreaks(mounts, disk);
    } else {
      var m, seen := mounts[n], NamesBefore(mounts, n);
      BreaksNext(mounts, disk, n);
      ScansFrom(mounts, disk, n + 1);
      assert mounts[n..][0] == m && mounts[n..][1..] == mounts[n + 1..];
      assert Lower(m.fileName) in seen <==> !FirstMount(mounts, n);
      assert NamesBefore(mounts, n + 1) == seen + {Lower(m.fileName)};
      if Lower(m.fileName) in seen { assert NamesBefore(mounts, n + 1) == seen; }
      var rest := Contributions(mounts, disk, n + 1);
      assert [] + rest == rest;
    }
  }

  lemma NothingBreaks(mounts: seq<Mount>, disk: Disk)
    ensures !BreaksFrom(mounts, disk, |mounts|)
  {
  }

  /** A scan yields the entries of the archives in mount order, each archive where it is named first. */
  lemma ScanExactly(mounts: seq<Mount>, disk: Disk)
    ensures Scanned(mounts, {}, disk)
         == if BreaksFrom(mounts, disk, 0) then Err else Ok(Contributions(mounts, disk, 0))
  {
    hide PlainFileName, Scanned, BreaksFrom;
    ScansFrom(mounts, disk, 0);
    assert mounts[0..] == mounts && NamesBefore(mounts, 0) == {};
  }
}
