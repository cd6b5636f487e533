/** The dependency closure of an asset group and the work list that computes it under a byte budget. */
module Closure {
  import opened Text
  import opened LittleEndian
  import opened AssetIndex
  import opened Planner

  /** Everything the plan of one group depends on. */
  datatype World = World(
    source: View,
    target: View,
    content: map<AssetRecord, Content>,
    prefix: string,
    xun: bool,
    experimental: bool,
    limit: nat)

  predicate ValidWorld(w: World) {
    ValidView(w.source) && ValidView(w.target)
  }

  predicate PathInPrefix(path: string, prefix: string) {
    var p, q := FoldPath(path), FoldPath(prefix);
    p == q || (|q| < |p| && p[..|q|] == q && p[|q|] == '/')
  }

  predicate IsSeed(w: World, r: AssetRecord) {
    || PathInPrefix(r.virtualPath, w.prefix)
    || (w.xun && (PathInPrefix(r.virtualPath, "gui/tachometer/xun") || PathInPrefix(r.virtualPath, "effect/charger")))
  }

  function Seeds(w: World): set<string> {
    set k | k in w.source.records && IsSeed(w, w.source.records[k])
  }

  predicate HasOwnFiles(w: World) {
    exists k :: k in w.source.records && PathInPrefix(w.source.records[k].virtualPath, w.prefix)
  }

  function ResolveFrom(w: World, r: AssetRecord, candidate: string): Resolution {
    Resolve(w.source, w.target, r.virtualPath, w.prefix, candidate)
  }

  function Candidates(w: World, r: AssetRecord): seq<string> {
    if r in w.content then w.content[r].candidates else []
  }

  /** The source paths that the references of a record lead to, in order. */
  function Found(w: World, r: AssetRecord, candidates: seq<string>): seq<string> {
    if candidates == [] then []
    else
      (match ResolveFrom(w, r, candidates[0])
       case ToSource(path) => [path]
       case _ => [])
      + Found(w, r, candidates[1..])
  }

  function Needs(w: World, k: string): seq<string> {
    if k in w.source.records then Found(w, w.source.records[k], Candidates(w, w.source.records[k])) else []
  }

  /** Every source-resolved reference from the set leads back into it. */
  predicate ClosedUnder(w: World, s: set<string>) {
    forall k, p :: k in s && p in Needs(w, k) ==> FoldPath(p) in s
  }

  ghost predicate InEvery(w: World, k: string) {
    forall s: set<string> :: Seeds(w) <= s && ClosedUnder(w, s) ==> k in s
  }

  /** The least set of folded paths that holds the seeds and is closed under references. */
  ghost function Reach(w: World): set<string> {
    set k | k in w.source.records && InEvery(w, k)
  }

  /** A folded path is this one or lies below it. */
  predicate Under(path: string, root: string) {
    path == root || root + "/" <= path
  }

  /** The plan starts from the effective files at or below the group's prefix, and the gauge files of a XUN kart. */
  lemma SeedsExactly(w: World, k: string)
    requires ValidView(w.source)
    ensures k in Seeds(w) <==>
              && k in w.source.records
              && (|| Under(k, FoldPath(w.prefix))
                  || (w.xun && (Under(k, "gui/tachometer/xun") || Under(k, "effect/charger"))))
  {
    hide FoldPath;
    if k in w.source.records {
      var path := w.source.records[k].virtualPath;
      InPrefixExactly(path, w.prefix);
      InPrefixExactly(path, "gui/tachometer/xun");
      InPrefixExactly(path, "effect/charger");
      PlainFolds();
    }
  }

  /** A group is planned when some effective file lies at or below its prefix. */
  lemma OwnFilesExactly(w: World)
    requires ValidView(w.source)
    ensures HasOwnFiles(w) <==> exists k :: k in w.source.records && Under(k, FoldPath(w.prefix))
  {
    hide FoldPath, PathInPrefix;
    forall k | k in w.source.records
      ensures PathInPrefix(w.source.records[k].virtualPath, w.prefix) <==> Under(k, FoldPath(w.prefix))
    {
      InPrefixExactly(w.source.records[k].virtualPath, w.prefix);
    }
  }

  lemma InPrefixExactly(path: string, prefix: string)
    ensures PathInPrefix(path, prefix) <==> Under(FoldPath(path), FoldPath(prefix))
  {
    hide FoldPath;
    var p, q := FoldPath(path), FoldPath(prefix);
    if |q| < |p| && p[..|q|] == q && p[|q|] == '/' { assert p[..|q| + 1] == q + "/"; }
    if q + "/" <= p { assert p[..|q|] == (q + "/")[..|q|] == q && p[|q|] == (q + "/")[|q|]; }
  }

  lemma PlainFolds()
    ensures FoldPath("gui/tachometer/xun") == "gui/tachometer/xun" && FoldPath("effect/charger") == "effect/charger"
  {
    assert Lower("gui/tachometer/xun") == "gui/tachometer/xun";
    assert Lower("effect/charger") == "effect/charger";
  }

  // -------------------------------------------------------------------- sizes

  ghost function Total(w: World, s: set<string>): nat
    requires s <= w.source.records.Keys
  {
    if s == {} then 0
    else
      var k :| k in s;
      w.source.records[k].size + Total(w, s - {k})
  }

  lemma {:induction false} TotalWithout(w: World, s: set<string>, k: string)
    requires s <= w.source.records.Keys && k in s
    ensures Total(w, s) == w.source.records[k].size + Total(w, s - {k})
    decreases |s|
  {
    var j :| j in s && Total(w, s) == w.source.records[j].size + Total(w, s - {j});
    if j != k {
      TotalWithout(w, s - {j}, k);
      TotalWithout(w, s - {k}, j);
      assert s - {j} - {k} == s - {k} - {j};
    }
  }

  /** The bytes that extracting a set of records gives. */
  ghost function Extracted(w: World, files: seq<Option<seq<byte>>>, s: set<string>): nat
    requires s <= w.source.records.Keys && forall k :: k in s ==> !Bad(w, files, w.source.records[k])
  {
    if s == {} then 0
    else
      var k :| k in s;
      assert !Bad(w, files, w.source.records[k]);
      w.content[w.source.records[k]].length + Extracted(w, files, s - {k})
  }

  /** In a plan the byte sum is that of the extracted files. */
  lemma {:induction false} TotalIsExtracted(w: World, files: seq<Option<seq<byte>>>, s: set<string>)
    requires s <= w.source.records.Keys && forall k :: k in s ==> !Bad(w, files, w.source.records[k])
    ensures Total(w, s) == Extracted(w, files, s)
    decreases |s|
  {
    hide OneS, DirectScan;
    if s != {} {
      var k :| k in s && Extracted(w, files, s) == w.content[w.source.records[k]].length + Extracted(w, files, s - {k});
      TotalWithout(w, s, k);
      TotalIsExtracted(w, files, s - {k});
    }
  }

  lemma {:induction false} TotalMonotone(w: World, s: set<string>, t: set<string>)
    requires s <= t <= w.source.records.Keys
    ensures Total(w, s) <= Total(w, t)
    decreases |t|
  {
    if s != t {
      assert !(t <= s);
      var k :| k in t && k !in s;
      TotalWithout(w, t, k);
      TotalMonotone(w, s, t - {k});
    }
  }

  // ---------------------------------------------------------------- the facts

  function AfterLastDot(s: string): string {
    if s == "" || '.' !in s then ""
    else if '.' in s[1..] then AfterLastDot(s[1..])
    else if s[0] == '.' then s[1..]
    else ""
  }

  function UpToQuery(s: string): string {
    if s == "" || s[0] == '?' || s[0] == '#' then "" else [s[0]] + UpToQuery(s[1..])
  }

  predicate OneS(r: AssetRecord) {
    Lower(UpToQuery(AfterLastDot(r.virtualPath))) == "1s"
  }

  /** The extension is what follows the last dot, up to a question mark or a hash. */
  lemma {:induction false} ExtensionExactly(stem: string, extension: string, query: string)
    requires '.' !in extension && '?' !in extension && '#' !in extension
    requires '.' !in query && (query == "" || query[0] == '?' || query[0] == '#')
    ensures AfterLastDot(stem + "." + extension + query) == extension + query
    ensures UpToQuery(extension + query) == extension
    ensures '.' !in stem ==> AfterLastDot(stem) == ""
  {
    var s := stem + "." + extension + query;
    if stem == "" {
      assert s[0] == '.' && s[1..] == extension + query;
    } else {
      assert s[0] == stem[0] && s[1..] == stem[1..] + "." + extension + query;
      assert s[1..][|stem| - 1] == '.';
      ExtensionExactly(stem[1..], extension, query);
    }
    UpToQueryStops(extension, query);
  }

  lemma {:induction false} UpToQueryStops(plain: string, query: string)
    requires '?' !in plain && '#' !in plain && (query == "" || query[0] == '?' || query[0] == '#')
    ensures UpToQuery(plain + query) == plain
  {
    if plain == "" {
      assert plain + query == query;
    } else {
      assert (plain + query)[0] == plain[0] && (plain + query)[1..] == plain[1..] + query;
      UpToQueryStops(plain[1..], query);
    }
  }

  /** The format check is for files with the extension `1s`, whatever follows the extension. */
  lemma OneSExactly(r: AssetRecord, stem: string, extension: string, query: string)
    requires r.virtualPath == stem + "." + extension + query
    requires '.' !in extension && '?' !in extension && '#' !in extension
    requires '.' !in query && (query == "" || query[0] == '?' || query[0] == '#')
    ensures OneS(r) <==> |extension| == 2 && extension[0] == '1' && (extension[1] == 's' || extension[1] == 'S')
  {
    ExtensionExactly(stem, extension, query);
    if |extension| == 2 { assert Lower(extension) == [LowerChar(extension[0]), LowerChar(extension[1])]; }
  }

  /** Planning this record fails: extraction, a changed size, or an unreadable target file in the format check. */
  predicate Bad(w: World, files: seq<Option<seq<byte>>>, r: AssetRecord) {
    || r !in w.content
    || w.content[r].length != r.size
    || (OneS(r) && DirectScan(files, w.content[r].signature) == None)
  }

  /** A record is unusable without its bytes, or when the format check meets a file it cannot extract first. */
  lemma BadExactly(w: World, files: seq<Option<seq<byte>>>, r: AssetRecord)
    ensures Bad(w, files, r) <==>
              if r in w.content && w.content[r].length == r.size then
                OneS(r) && exists i :: 0 <= i < |files| && files[i] == None
                                       && forall j :: 0 <= j < i ==> files[j] != Some(w.content[r].signature)
              else true
  {
    hide OneS;
    if r in w.content { ScanGivesUp(files, w.content[r].signature); }
  }

  lemma {:induction false} ScanGivesUp(files: seq<Option<seq<byte>>>, signature: seq<byte>)
    ensures DirectScan(files, signature) == None <==>
              exists i :: 0 <= i < |files| && files[i] == None && forall j :: 0 <= j < i ==> files[j] != Some(signature)
  {
    if files != [] {
      var rest := files[1..];
      ScanGivesUp(rest, signature);
      assert forall j :: 0 <= j < |rest| ==> rest[j] == files[j + 1];
      if i :| 0 <= i < |files| && files[i] == None && forall j :: 0 <= j < i ==> files[j] != Some(signature) {
        if i > 0 {
          assert rest[i - 1] == None && forall j :: 0 <= j < i - 1 ==> rest[j] == files[j + 1] != Some(signature);
        }
      }
      if i :| 0 <= i < |rest| && rest[i] == None && forall j :: 0 <= j < i ==> rest[j] != Some(signature) {
        if files[0] != Some(signature) {
          assert files[i + 1] == None;
          assert forall j :: 0 < j < i + 1 ==> files[j] == rest[j - 1];
        }
      }
    }
  }

  predicate BadFormat(w: World, files: seq<Option<seq<byte>>>, r: AssetRecord) {
    && r in w.content
    && (w.content[r].parseFailed || (OneS(r) && DirectScan(files, w.content[r].signature) == Some(false)))
  }

  predicate Dangling(w: World, r: AssetRecord) {
    exists i :: 0 <= i < |Candidates(w, r)| && ResolveFrom(w, r, Candidates(w, r)[i]).Unresolved?
  }

  predicate Native(w: World, r: AssetRecord) {
    r in w.content && w.content[r].native
  }

  predicate Localized(w: World, r: AssetRecord) {
    r in w.content && w.content[r].localized
  }

  datatype Status =
    CompatibleCandidate | ExperimentalNativeCandidate | LocalizationRequired | NativeBackportRequired | StatusUnresolved

  /** What the planner has noticed so far. */
  datatype Flags = Flags(native: bool, format: bool, dangling: bool, localized: bool)

  function StatusOf(f: Flags, experimental: bool): Status {
    if f.native && experimental && !f.format && !f.dangling && !f.localized then ExperimentalNativeCandidate
    else if f.native then NativeBackportRequired
    else if f.format || f.dangling then StatusUnresolved
    else if f.localized then LocalizationRequired
    else CompatibleCandidate
  }

  ghost predicate FlagsTell(w: World, files: seq<Option<seq<byte>>>, f: Flags, s: set<string>)
    requires s <= w.source.records.Keys
  {
    && (f.native <==> exists k :: k in s && Native(w, w.source.records[k]))
    && (f.format <==> exists k :: k in s && BadFormat(w, files, w.source.records[k]))
    && (f.dangling <==> exists k :: k in s && Dangling(w, w.source.records[k]))
    && (f.localized <==> exists k :: k in s && Localized(w, w.source.records[k]))
  }

  datatype Outcome =
    | Planned(paths: seq<string>, total: nat, flags: Flags, status: Status)
    | NoFiles
    | TooLarge
    | Unusable

  // ------------------------------------------------------------ the work list

  function PathsOf(w: World, listing: seq<AssetRecord>): seq<string> {
    if listing == [] then []
    else (if IsSeed(w, listing[0]) then [listing[0].virtualPath] else []) + PathsOf(w, listing[1..])
  }

  lemma {:induction false} PathsOfSeeds(w: World, listing: seq<AssetRecord>)
    ensures forall p :: p in PathsOf(w, listing) <==> exists r :: r in listing && IsSeed(w, r) && r.virtualPath == p
  {
    hide IsSeed;
    if listing != [] {
      PathsOfSeeds(w, listing[1..]);
      assert listing == [listing[0]] + listing[1..];
      forall p | exists r :: r in listing && IsSeed(w, r) && r.virtualPath == p
        ensures p in PathsOf(w, listing)
      {
        var r :| r in listing && IsSeed(w, r) && r.virtualPath == p;
        if r in listing[1..] { assert p in PathsOf(w, listing[1..]); }
      }
    }
  }

  /** A path as the work list holds it: the spelling of an effective source record. */
  predicate Known(w: World, p: string) {
    FoldPath(p) in w.source.records && w.source.records[FoldPath(p)].virtualPath == p
  }

  lemma {:induction false} FirstFoundKnown(w: World, attempts: seq<string>)
    requires ValidView(w.source)
    ensures FirstFound(attempts, w.source).Some? ==> Known(w, FirstFound(attempts, w.source).value.virtualPath)
  {
    hide FoldPath;
    if attempts != [] { FirstFoundKnown(w, attempts[1..]); }
  }

  lemma {:induction false} FoundKnown(w: World, r: AssetRecord, candidates: seq<string>)
    requires ValidView(w.source)
    ensures forall p :: p in Found(w, r, candidates) ==> Known(w, p)
  {
    hide FoldPath, Known, FirstFound, Attempts;
    if candidates != [] {
      FoundKnown(w, r, candidates[1..]);
      FirstFoundKnown(w, Attempts(r.virtualPath, w.prefix, candidates[0]));
    }
  }

  /** The folded paths on the work list. */
  function Keys(queue: seq<string>): set<string> {
    set p | p in queue :: FoldPath(p)
  }

  /** What the loop keeps: visited and queued paths are reachable, and references of visited ones are accounted for. */
  ghost predicate Progress(w: World, visited: set<string>, queue: seq<string>) {
    && visited <= w.source.records.Keys
    && (forall p :: p in queue ==> Known(w, p))
    && (forall k :: k in visited ==> InEvery(w, k))
    && (forall p :: p in queue ==> InEvery(w, FoldPath(p)))
    && Seeds(w) <= visited + Keys(queue)
    && (forall k, p :: k in visited && p in Needs(w, k) ==> FoldPath(p) in visited + Keys(queue))
  }

  lemma ProgressStart(w: World)
    requires ValidView(w.source)
    ensures Progress(w, {}, PathsOf(w, w.source.listing))
  {
    hide IsSeed, FoldPath;
    var queue := PathsOf(w, w.source.listing);
    PathsOfSeeds(w, w.source.listing);
    forall p | p in queue
      ensures Known(w, p) && FoldPath(p) in Seeds(w)
    {
      var r :| r in w.source.listing && IsSeed(w, r) && r.virtualPath == p;
    }
    forall k | k in Seeds(w)
      ensures k in Keys(queue)
    {
      var r := w.source.records[k];
      assert r.virtualPath in queue;
    }
  }

  lemma KeysHead(queue: seq<string>)
    requires queue != []
    ensures Keys(queue) == {FoldPath(queue[0])} + Keys(queue[1..])
  {
  }

  lemma KeysAppend(a: seq<string>, b: seq<string>)
    ensures Keys(a + b) == Keys(a) + Keys(b)
  {
  }

  lemma KeysHas(queue: seq<string>, p: string)
    requires p in queue
    ensures FoldPath(p) in Keys(queue)
  {
  }

  lemma ProgressSkip(w: World, visited: set<string>, queue: seq<string>)
    requires queue != [] && Progress(w, visited, queue) && FoldPath(queue[0]) in visited
    ensures Progress(w, visited, queue[1..])
  {
  }

  lemma ProgressVisit(w: World, visited: set<string>, queue: seq<string>)
    requires ValidView(w.source)
    requires queue != [] && Progress(w, visited, queue)
    ensures var k := FoldPath(queue[0]);
            Progress(w, visited + {k}, queue[1..] + Needs(w, k))
  {
    hide FoldPath, Seeds, InEvery, Known, Keys, Needs, ValidView;
    var k, rest := FoldPath(queue[0]), queue[1..];
    var needs := Needs(w, k);
    KeysHead(queue);
    KeysAppend(rest, needs);
    KnownKey(w, queue[0]);
    NeedsAre(w, k);
    FoundKnown(w, w.source.records[k], Candidates(w, w.source.records[k]));
    forall p | p in needs
      ensures InEvery(w, FoldPath(p)) && FoldPath(p) in Keys(needs)
    {
      NeedsInEvery(w, k, p);
      KeysHas(needs, p);
    }
  }

  lemma KnownKey(w: World, p: string)
    requires Known(w, p)
    ensures FoldPath(p) in w.source.records
  {
  }

  lemma NeedsInEvery(w: World, k: string, p: string)
    requires InEvery(w, k) && p in Needs(w, k)
    ensures InEvery(w, FoldPath(p))
  {
  }

  lemma ProgressEnd(w: World, visited: set<string>)
    requires Progress(w, visited, [])
    ensures visited == Reach(w)
  {
  }

  lemma VisitedReach(w: World, visited: set<string>, queue: seq<string>)
    requires Progress(w, visited, queue)
    ensures visited <= Reach(w) <= w.source.records.Keys
    ensures queue != [] ==> FoldPath(queue[0]) in Reach(w)
  {
  }

  lemma FlagsAdd(w: World, files: seq<Option<seq<byte>>>, f: Flags, visited: set<string>, k: string)
    requires visited <= w.source.records.Keys && k in w.source.records && FlagsTell(w, files, f, visited)
    ensures FlagsTell(w, files, Noted(w, files, f, w.source.records[k]), visited + {k})
  {
  }

  /** Walks the references of one record: queues what the source has, and notes what nobody has. */
  method FollowReferences(w: World, r: AssetRecord, queue: seq<string>) returns (longer: seq<string>, dangling: bool)
    ensures longer == queue + Found(w, r, Candidates(w, r))
    ensures dangling <==> Dangling(w, r)
  {
    hide ResolveFrom;
    var cs := Candidates(w, r);
    longer, dangling := queue, false;
    assert cs[0..] == cs;
    for i := 0 to |cs|
      invariant queue + Found(w, r, cs) == longer + Found(w, r, cs[i..])
      invariant dangling <==> exists j :: 0 <= j < i && ResolveFrom(w, r, cs[j]).Unresolved?
    {
      assert cs[i..][0] == cs[i] && cs[i..][1..] == cs[i + 1..];
      match ResolveFrom(w, r, cs[i]) {
        case ToSource(path) => longer := longer + [path];
        case ToTarget(_) =>
        case Unresolved => dangling := true;
      }
    }
  }

  /** The files listed by a plan are exactly those of the set, each spelled as the source spells it. */
  ghost predicate Lists(w: World, paths: seq<string>, s: set<string>) {
    && (forall p :: p in paths ==> Known(w, p) && FoldPath(p) in s)
    && (forall k :: k in s && k in w.source.records ==> w.source.records[k].virtualPath in paths)
  }

  lemma ListsAdd(w: World, paths: seq<string>, s: set<string>, p: string)
    requires Lists(w, paths, s) && Known(w, p)
    ensures Lists(w, paths + [p], s + {FoldPath(p)})
  {
  }

  lemma ListsSort(w: World, paths: seq<string>, s: set<string>)
    requires Lists(w, paths, s)
    ensures Lists(w, Sort(paths), s) && Ascending(Sort(paths))
  {
    hide FoldPath, Known, Sort, Ascending;
    SortAscending(paths);
  }

  function Noted(w: World, files: seq<Option<seq<byte>>>, f: Flags, r: AssetRecord): Flags {
    Flags(f.native || Native(w, r), f.format || BadFormat(w, files, r),
          f.dangling || Dangling(w, r), f.localized || Localized(w, r))
  }

  /** Extracts and analyses one record: what it adds to the work list and to the findings. */
  method Inspect(w: World, memo: FormatMemo, record: AssetRecord, queue: seq<string>, flags: Flags)
    returns (usable: bool, longer: seq<string>, noted: Flags)
    requires memo.Valid()
    modifies memo
    ensures memo.Valid()
    ensures usable <==> !Bad(w, memo.files, record)
    ensures usable ==> longer == queue + Found(w, record, Candidates(w, record))
    ensures usable ==> noted == Noted(w, memo.files, flags, record)
  {
    hide OneS, DirectScan, Dangling;
    usable, longer, noted := false, queue, flags;
    if record !in w.content || w.content[record].length != record.size {
      return;
    }
    var content := w.content[record];
    var dangling;
    longer, dangling := FollowReferences(w, record, queue);
    var mismatch := false;
    if OneS(record) {
      var seen := memo.Seen(content.signature);
      if seen.None? {
        return;
      }
      mismatch := !seen.value;
    }
    usable := true;
    noted := Flags(flags.native || content.native, flags.format || content.parseFailed || mismatch,
                   flags.dangling || dangling, flags.localized || content.localized);
  }

  /** What the loop of `plan_group` keeps: the work list, and the books over what was visited. */
  ghost predicate Books(w: World, files: seq<Option<seq<byte>>>, visited: set<string>, queue: seq<string>,
                        paths: seq<string>, total: nat, flags: Flags)
  {
    && visited <= w.source.records.Keys && Progress(w, visited, queue)
    && total == Total(w, visited) <= w.limit
    && (forall k :: k in visited ==> !Bad(w, files, w.source.records[k]))
    && Lists(w, paths, visited) && FlagsTell(w, files, flags, visited)
  }

  lemma BooksStart(w: World, files: seq<Option<seq<byte>>>)
    requires ValidWorld(w)
    ensures Books(w, files, {}, PathsOf(w, w.source.listing), [], 0, Flags(false, false, false, false))
  {
    hide Progress, FlagsTell, Lists, PathsOf, Bad;
    ProgressStart(w);
    ListsNothing(w);
    FlagsNothing(w, files);
  }

  lemma BooksSkip(w: World, files: seq<Option<seq<byte>>>, visited: set<string>, queue: seq<string>,
                  paths: seq<string>, total: nat, flags: Flags)
    requires Books(w, files, visited, queue, paths, total, flags) && queue != [] && FoldPath(queue[0]) in visited
    ensures Books(w, files, visited, queue[1..], paths, total, flags)
  {
    hide Progress, FlagsTell, Lists, Bad, Total, FoldPath;
    ProgressSkip(w, visited, queue);
  }

  /** The next path on the list belongs to a reachable record; its size counts once against the limit. */
  lemma BooksNext(w: World, files: seq<Option<seq<byte>>>, visited: set<string>, queue: seq<string>,
                  paths: seq<string>, total: nat, flags: Flags)
    requires ValidWorld(w) && Books(w, files, visited, queue, paths, total, flags)
    requires queue != [] && FoldPath(queue[0]) !in visited
    ensures var k := FoldPath(queue[0]);
            && k in w.source.records && k in Reach(w) && Reach(w) <= w.source.records.Keys
            && total + w.source.records[k].size == Total(w, visited + {k}) <= Total(w, Reach(w))
  {
    hide Progress, FlagsTell, Lists, Bad, Total, FoldPath, Reach, Known;
    VisitedReach(w, visited, queue);
    QueueKnown(w, visited, queue);
    KnownKey(w, queue[0]);
    ReachKnown(w);
    TotalStep(w, visited, FoldPath(queue[0]));
  }

  lemma BooksVisit(w: World, files: seq<Option<seq<byte>>>, visited: set<string>, queue: seq<string>,
                   paths: seq<string>, total: nat, flags: Flags)
    requires ValidWorld(w) && Books(w, files, visited, queue, paths, total, flags)
    requires queue != [] && FoldPath(queue[0]) !in visited && FoldPath(queue[0]) in w.source.records
    requires var record := w.source.records[FoldPath(queue[0])];
             total + record.size <= w.limit && !Bad(w, files, record)
    ensures var k := FoldPath(queue[0]);
            var record := w.source.records[k];
            Books(w, files, visited + {k}, queue[1..] + Found(w, record, Candidates(w, record)), paths + [queue[0]],
                  total + record.size, Noted(w, files, flags, record))
  {
    hide Progress, FlagsTell, Lists, Bad, Total, FoldPath, Reach, Known, Noted, Found, Candidates;
    var k := FoldPath(queue[0]);
    BooksNext(w, files, visited, queue, paths, total, flags);
    ProgressVisit(w, visited, queue);
    QueueKnown(w, visited, queue);
    NeedsAre(w, k);
    FlagsAdd(w, files, flags, visited, k);
    ListsAdd(w, paths, visited, queue[0]);
  }

  lemma BooksEnd(w: World, files: seq<Option<seq<byte>>>, visited: set<string>, paths: seq<string>, total: nat,
      flags: Flags)
    requires Books(w, files, visited, [], paths, total, flags)
    ensures visited == Reach(w) <= w.source.records.Keys
    ensures total == Total(w, Reach(w)) <= w.limit
    ensures forall k :: k in Reach(w) ==> !Bad(w, files, w.source.records[k])
    ensures Lists(w, Sort(paths), Reach(w)) && Ascending(Sort(paths)) && FlagsTell(w, files, flags, Reach(w))
  {
    hide Progress, FlagsTell, Lists, Bad, Total, Reach, Ascending, Sort;
    ProgressEnd(w, visited);
    ListsSort(w, paths, visited);
  }

  /** `plan_group`: the work list with its byte budget, and the verdict on what it found. */
  method PlanGroup(w: World, memo: FormatMemo) returns (r: Outcome)
    requires ValidWorld(w) && memo.Valid()
    modifies memo
    ensures memo.Valid()
    ensures match r
            case Planned(paths, total, flags, status) =>
              && HasOwnFiles(w)
              && Ascending(paths) && Lists(w, paths, Reach(w))
              && total == Total(w, Reach(w)) <= w.limit
              && (forall k :: k in Reach(w) ==> !Bad(w, memo.files, w.source.records[k]))
              && FlagsTell(w, memo.files, flags, Reach(w))
              && Verdict(w, memo.files, status)
            case NoFiles => !HasOwnFiles(w)
            case TooLarge => HasOwnFiles(w) && Total(w, Reach(w)) > w.limit
            case Unusable => HasOwnFiles(w) && exists k :: k in Reach(w) && Bad(w, memo.files, w.source.records[k])
  {
    hide FoldPath, Reach, Noted, Bad, Lists, FlagsTell, StatusOf, Ascending, HasOwnFiles, Books, Total, Verdict;
    hide Found, Candidates, PathsOf, Sort, Unvisited, ValidWorld;
    ReachKnown(w);
    if !HasOwnFiles(w) {
      return NoFiles;
    }
    var queue := PathsOf(w, w.source.listing);
    var visited: set<string> := {};
    var paths: seq<string> := [];
    var total: nat := 0;
    var flags := Flags(false, false, false, false);
    BooksStart(w, memo.files);
    while queue != []
      invariant memo.Valid()
      invariant Books(w, memo.files, visited, queue, paths, total, flags)
      decreases Unvisited(w, visited), |queue|
    {
      var path := queue[0];
      var folded := FoldPath(path);
      if folded in visited {
        BooksSkip(w, memo.files, visited, queue, paths, total, flags);
        queue := queue[1..];
      } else {
        BooksNext(w, memo.files, visited, queue, paths, total, flags);
        var record := w.source.records[folded];
        if total + record.size > w.limit {
          return TooLarge;
        }
        var usable, longer, noted := Inspect(w, memo, record, queue[1..], flags);
        if !usable {
          return Unusable;
        }
        BooksVisit(w, memo.files, visited, queue, paths, total, flags);
        Shrinks(w, visited, folded);
        queue, flags := longer, noted;
        paths := paths + [path];
        total := total + record.size;
        visited := visited + {folded};
      }
    }
    BooksEnd(w, memo.files, visited, paths, total, flags);
    VerdictOf(w, memo.files, flags);
    r := Planned(Sort(paths), total, flags, StatusOf(flags, w.experimental));
  }

  lemma TotalStep(w: World, visited: set<string>, k: string)
    requires visited <= Reach(w) && k in Reach(w) && k !in visited
    ensures Total(w, visited + {k}) == Total(w, visited) + w.source.records[k].size <= Total(w, Reach(w))
  {
    hide Seeds, InEvery;
    TotalWithout(w, visited + {k}, k);
    assert visited + {k} - {k} == visited;
    TotalMonotone(w, visited + {k}, Reach(w));
  }

  lemma NeedsAre(w: World, k: string)
    requires k in w.source.records
    ensures Needs(w, k) == Found(w, w.source.records[k], Candidates(w, w.source.records[k]))
  {
  }

  lemma QueueKnown(w: World, visited: set<string>, queue: seq<string>)
    requires queue != [] && Progress(w, visited, queue)
    ensures Known(w, queue[0])
  {
  }

  lemma ReachKnown(w: World)
    ensures Reach(w) <= w.source.records.Keys
  {
  }

  lemma ListsNothing(w: World)
    ensures Lists(w, [], {})
  {
  }

  lemma FlagsNothing(w: World, files: seq<Option<seq<byte>>>)
    ensures FlagsTell(w, files, Flags(false, false, false, false), {})
  {
  }

  ghost function Unvisited(w: World, visited: set<string>): nat {
    |w.source.records.Keys - visited|
  }

  lemma Shrinks(w: World, visited: set<string>, k: string)
    requires k in w.source.records && k !in visited
    ensures Unvisited(w, visited + {k}) < Unvisited(w, visited)
  {
    var all := w.source.records.Keys;
    assert all - visited == (all - (visited + {k})) + {k};
  }

  // ------------------------------------------------------------- the verdicts

  /** A reference is satisfied when it leads to a file of the plan or to one the target already has. */
  ghost predicate Satisfied(w: World, resolution: Resolution) {
    match resolution
    case ToSource(path) => FoldPath(path) in Reach(w)
    case ToTarget(path) => FoldPath(path) in w.target.records
    case Unresolved => false
  }

  ghost predicate AllSatisfied(w: World) {
    forall k, i :: k in Reach(w) && k in w.source.records && 0 <= i < |Candidates(w, w.source.records[k])| ==>
                     Satisfied(w, ResolveFrom(w, w.source.records[k], Candidates(w, w.source.records[k])[i]))
  }

  /** Parsed, and if a `.1s` file, with a signature that one of the target's files has. */
  predicate Readable(w: World, files: seq<Option<seq<byte>>>, r: AssetRecord) {
    r in w.content ==> !w.content[r].parseFailed && (OneS(r) ==> Some(w.content[r].signature) in files)
  }

  ghost predicate AllReadable(w: World, files: seq<Option<seq<byte>>>) {
    forall k :: k in Reach(w) && k in w.source.records ==> Readable(w, files, w.source.records[k])
  }

  ghost predicate SomeNative(w: World) {
    exists k :: k in Reach(w) && k in w.source.records && w.source.records[k] in w.content
                && w.content[w.source.records[k]].native
  }

  ghost predicate SomeUntranslated(w: World) {
    exists k :: k in Reach(w) && k in w.source.records && w.source.records[k] in w.content
                && w.content[w.source.records[k]].localized
  }

  /** What each verdict says about the files of the closure. */
  ghost predicate Verdict(w: World, files: seq<Option<seq<byte>>>, status: Status) {
    match status
    case ExperimentalNativeCandidate =>
      w.experimental && SomeNative(w) && AllReadable(w, files) && AllSatisfied(w) && !SomeUntranslated(w)
    case NativeBackportRequired =>
      SomeNative(w) && !(w.experimental && AllReadable(w, files) && AllSatisfied(w) && !SomeUntranslated(w))
    case StatusUnresolved => !SomeNative(w) && !(AllReadable(w, files) && AllSatisfied(w))
    case LocalizationRequired => !SomeNative(w) && AllReadable(w, files) && AllSatisfied(w) && SomeUntranslated(w)
    case CompatibleCandidate => !SomeNative(w) && AllReadable(w, files) && AllSatisfied(w) && !SomeUntranslated(w)
  }

  /** The five verdicts exclude each other, so each holds exactly under its condition. */
  lemma VerdictOnce(w: World, files: seq<Option<seq<byte>>>, a: Status, b: Status)
    requires Verdict(w, files, a) && Verdict(w, files, b)
    ensures a == b
  {
    hide AllReadable, AllSatisfied, SomeNative, SomeUntranslated;
  }

  lemma ReferenceSatisfied(w: World, k: string, i: nat)
    requires ValidWorld(w) && k in Reach(w) && i < |Candidates(w, w.source.records[k])|
    ensures var resolution := ResolveFrom(w, w.source.records[k], Candidates(w, w.source.records[k])[i]);
            Satisfied(w, resolution) <==> !resolution.Unresolved?
  {
    hide InEvery, FoldPath, Attempts, Reach;
    ReachKnown(w);
    var r := w.source.records[k];
    var cs := Candidates(w, r);
    match ResolveFrom(w, r, cs[i]) {
      case ToSource(path) =>
        FoundHas(w, r, cs, i);
        NeedsInReach(w, k, path);
      case ToTarget(path) =>
        TargetHas(w.target, Attempts(r.virtualPath, w.prefix, cs[i]));
      case Unresolved =>
    }
  }

  lemma SatisfiedExactly(w: World)
    requires ValidWorld(w)
    ensures Reach(w) <= w.source.records.Keys
    ensures AllSatisfied(w) <==> forall k :: k in Reach(w) ==> !Dangling(w, w.source.records[k])
  {
    hide Reach, ResolveFrom, Satisfied, Candidates;
    ReachKnown(w);
    forall k, i | k in Reach(w) && 0 <= i < |Candidates(w, w.source.records[k])|
      ensures var resolution := ResolveFrom(w, w.source.records[k], Candidates(w, w.source.records[k])[i]);
              Satisfied(w, resolution) <==> !resolution.Unresolved?
    {
      ReferenceSatisfied(w, k, i);
    }
    if k :| k in Reach(w) && Dangling(w, w.source.records[k]) {
      var r := w.source.records[k];
      var i :| 0 <= i < |Candidates(w, r)| && ResolveFrom(w, r, Candidates(w, r)[i]).Unresolved?;
      assert !Satisfied(w, ResolveFrom(w, r, Candidates(w, r)[i]));
    }
  }

  lemma ReadableExactly(w: World, files: seq<Option<seq<byte>>>, r: AssetRecord)
    requires !Bad(w, files, r)
    ensures Readable(w, files, r) <==> !BadFormat(w, files, r)
  {
    hide OneS, DirectScan;
    if OneS(r) {
      DirectScanExactly(files, w.content[r].signature);
    }
  }

  /** The status of the findings is the verdict on the closure. */
  lemma VerdictOf(w: World, files: seq<Option<seq<byte>>>, flags: Flags)
    requires ValidWorld(w) && Reach(w) <= w.source.records.Keys && FlagsTell(w, files, flags, Reach(w))
    requires forall k :: k in Reach(w) ==> !Bad(w, files, w.source.records[k])
    ensures Verdict(w, files, StatusOf(flags, w.experimental))
  {
    hide Reach, Bad, BadFormat, Readable, Dangling, AllSatisfied, Native, Localized;
    SatisfiedExactly(w);
    forall k | k in Reach(w)
      ensures Readable(w, files, w.source.records[k]) <==> !BadFormat(w, files, w.source.records[k])
    {
      ReadableExactly(w, files, w.source.records[k]);
    }
    assert AllReadable(w, files) <==> !flags.format;
    assert AllSatisfied(w) <==> !flags.dangling;
    MarksTell(w);
  }

  lemma MarksTell(w: World)
    requires Reach(w) <= w.source.records.Keys
    ensures SomeNative(w) <==> exists k :: k in Reach(w) && Native(w, w.source.records[k])
    ensures SomeUntranslated(w) <==> exists k :: k in Reach(w) && Localized(w, w.source.records[k])
  {
    hide Reach;
    if k :| k in Reach(w) && Native(w, w.source.records[k]) { assert w.source.records[k] in w.content; }
    if k :| k in Reach(w) && Localized(w, w.source.records[k]) { assert w.source.records[k] in w.content; }
    if SomeNative(w) {
      var k :| k in Reach(w) && k in w.source.records && w.source.records[k] in w.content
               && w.content[w.source.records[k]].native;
      assert Native(w, w.source.records[k]);
    }
    if SomeUntranslated(w) {
      var k :| k in Reach(w) && k in w.source.records && w.source.records[k] in w.content
               && w.content[w.source.records[k]].localized;
      assert Localized(w, w.source.records[k]);
    }
  }

  /**
   A plan called compatible is complete: every reference of every listed file leads to a listed file
   or to one the target already has, and nothing in it is native-only, unreadable or untranslated.
   */
  lemma CompatibleMeansComplete(w: World, files: seq<Option<seq<byte>>>, flags: Flags, k: string, i: nat)
    requires ValidWorld(w) && FlagsTell(w, files, flags, Reach(w))
    requires StatusOf(flags, w.experimental) == CompatibleCandidate
    requires k in Reach(w) && i < |Candidates(w, w.source.records[k])|
    ensures Satisfied(w, ResolveFrom(w, w.source.records[k], Candidates(w, w.source.records[k])[i]))
    ensures var r := w.source.records[k]; !Native(w, r) && !BadFormat(w, files, r) && !Localized(w, r)
  {
    hide Native, BadFormat, Localized, Reach, ResolveFrom, Satisfied;
    ReachKnown(w);
    assert !Dangling(w, w.source.records[k]);
    ReferenceSatisfied(w, k, i);
  }

  lemma {:induction false} FoundHas(w: World, r: AssetRecord, cs: seq<string>, i: nat)
    requires i < |cs| && ResolveFrom(w, r, cs[i]).ToSource?
    ensures ResolveFrom(w, r, cs[i]).path in Found(w, r, cs)
    decreases cs
  {
    hide ResolveFrom;
    if i > 0 { FoundHas(w, r, cs[1..], i - 1); }
  }

  lemma NeedsInReach(w: World, k: string, p: string)
    requires ValidWorld(w) && k in Reach(w) && p in Needs(w, k)
    ensures FoldPath(p) in Reach(w)
  {
    hide FoldPath, InEvery;
    NeedsInEvery(w, k, p);
    FoundKnown(w, w.source.records[k], Candidates(w, w.source.records[k]));
    KnownKey(w, p);
  }

  lemma {:induction false} TargetHas(v: View, attempts: seq<string>)
    requires ValidView(v)
    ensures FirstFound(attempts, v).Some? ==> FoldPath(FirstFound(attempts, v).value.virtualPath) in v.records
  {
    hide FoldPath;
    if attempts != [] { TargetHas(v, attempts[1..]); }
  }

  /** The reachable set is the least closed one: it holds the seeds, is closed, and lies in every such set. */
  lemma ReachIsLeast(w: World, s: set<string>)
    requires ValidWorld(w)
    ensures Seeds(w) <= Reach(w) && ClosedUnder(w, Reach(w))
    ensures Seeds(w) <= s && ClosedUnder(w, s) ==> Reach(w) <= s
  {
    hide FoldPath, IsSeed, Needs;
    forall k | k in Seeds(w)
      ensures k in Reach(w)
    {
    }
    forall k, p | k in Reach(w) && p in Needs(w, k)
      ensures FoldPath(p) in Reach(w)
    {
      NeedsInReach(w, k, p);
    }
  }

  /** The effective records of a record map, one for each folded path. */
  function EffectiveRecords(m: RecordMap): map<string, AssetRecord> {
    map k | k in m && m[k] != [] :: m[k][|m[k]| - 1]
  }

  lemma GroupLast(rs: seq<AssetRecord>, k: string)
    ensures var g := Group(Grouped(map[], rs), k); g != [] ==> FoldPath(g[|g| - 1].virtualPath) == k
  {
    hide FoldPath, Grouped;
    GroupedAt(map[], rs, k);
    AtKeyIn(rs, k);
    assert [] + AtKey(rs, k) == AtKey(rs, k);
    var g := AtKey(rs, k);
    if g != [] { assert g[|g| - 1] in g; }
  }

  /** The planner works on views of scanned indexes: each effective record stands at its own folded path. */
  lemma ScannedViewIsValid(rs: seq<AssetRecord>, listing: seq<AssetRecord>)
    requires var e := EffectiveRecords(Grouped(map[], rs));
             && (forall k :: k in e ==> e[k] in listing)
             && (forall r :: r in listing ==> exists k :: k in e && e[k] == r)
    ensures ValidView(View(EffectiveRecords(Grouped(map[], rs)), listing))
  {
    hide FoldPath, Grouped;
    var e := EffectiveRecords(Grouped(map[], rs));
    forall k | k in e
      ensures FoldPath(e[k].virtualPath) == k
    {
      GroupLast(rs, k);
    }
  }
}
