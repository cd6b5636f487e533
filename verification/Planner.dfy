/** Dependency planning for one asset group: reference resolution and what the plan must contain. */
module Planner {
  import opened Text
  import opened Paths
  import opened LittleEndian
  import opened AssetIndex

  // ------------------------------------------------------------------- views

  /** The effective records of one client by folded path, and the order in which they are listed. */
  datatype View = View(records: map<string, AssetRecord>, listing: seq<AssetRecord>)

  predicate ValidView(v: View) {
    && (forall k :: k in v.records ==> FoldPath(v.records[k].virtualPath) == k)
    && (forall k :: k in v.records ==> v.records[k] in v.listing)
    && (forall r :: r in v.listing ==> FoldPath(r.virtualPath) in v.records && v.records[FoldPath(r.virtualPath)] == r)
  }

  function Find(v: View, path: string): Option<AssetRecord> {
    if FoldPath(path) in v.records then Some(v.records[FoldPath(path)]) else None
  }

  /** What extraction and analysis of one record yield; the parsers behind them are not part of this model. */
  datatype Content = Content(
    length: nat, parseFailed: bool, native: bool, localized: bool, candidates: seq<string>, signature: seq<byte>)

  // ------------------------------------------------------------------- sorting

  /** Sorting and removing repeats, one string at a time. */
  function Insert(s: string, sorted: seq<string>): seq<string> {
    if sorted == [] then [s]
    else if s == sorted[0] then sorted
    else if LexLess(s, sorted[0]) then [s] + sorted
    else [sorted[0]] + Insert(s, sorted[1..])
  }

  function Sort(ss: seq<string>): seq<string> {
    if ss == [] then [] else Insert(ss[0], Sort(ss[1..]))
  }

  predicate Ascending(ss: seq<string>) {
    forall i, j :: 0 <= i < j < |ss| ==> LexLess(ss[i], ss[j])
  }

  lemma {:induction false} InsertAscending(s: string, sorted: seq<string>)
    requires Ascending(sorted)
    ensures Ascending(Insert(s, sorted))
    ensures forall x :: x in Insert(s, sorted) <==> x == s || x in sorted
  {
    hide LexLess;
    if sorted != [] && s != sorted[0] {
      var rest := sorted[1..];
      assert sorted == [sorted[0]] + rest;
      LexTotal(s, sorted[0]);
      if LexLess(s, sorted[0]) {
        forall j | 0 <= j < |sorted|
          ensures LexLess(s, sorted[j])
        {
          if j > 0 { LexTransitive(s, sorted[0], sorted[j]); }
        }
      } else {
        InsertAscending(s, rest);
        var r := Insert(s, rest);
        forall j | 0 <= j < |r|
          ensures LexLess(sorted[0], r[j])
        {
          assert r[j] in r;
          if r[j] != s {
            var k :| 0 <= k < |rest| && rest[k] == r[j];
            assert rest[k] == sorted[k + 1];
          }
        }
      }
    }
  }

  lemma {:induction false} SortAscending(ss: seq<string>)
    ensures Ascending(Sort(ss))
    ensures forall x :: x in Sort(ss) <==> x in ss
  {
    hide Ascending, Insert;
    if ss == [] {
      AscendingEmpty();
    } else {
      SortAscending(ss[1..]);
      InsertAscending(ss[0], Sort(ss[1..]));
      assert ss == [ss[0]] + ss[1..];
    }
  }

  lemma AscendingEmpty()
    ensures Ascending([])
  {
  }

  // ---------------------------------------------------- reference resolution

  function LastSlash(s: string): (i: nat)
    ensures i <= |s| && (i < |s| ==> s[i] == '/') && (i == |s| ==> '/' !in s)
  {
    if s == "" then 0
    else if '/' in s[1..] then 1 + LastSlash(s[1..])
    else if s[0] == '/' then 0
    else |s|
  }

  function FirstSlash(s: string): (i: nat)
    ensures i <= |s|
  {
    if s == "" || s[0] == '/' then 0 else 1 + FirstSlash(s[1..])
  }

  /** `rsplit_once('/')`, the part before it. */
  function Parent(path: string): string {
    var i := LastSlash(path);
    if i < |path| then path[..i] else ""
  }

  function GroupRoot(prefix: string): string {
    var i := FirstSlash(prefix);
    if i < |prefix| then prefix[..i] else ""
  }

  predicate AssetRoot(root: string) {
    Lower(root) in {"kart_", "kart", "track_", "track", "character_", "character", "rider_", "rider",
                    "pet", "pet_", "flyingpet", "flyingpet_"}
  }

  function Some1(o: Option<string>): seq<string> {
    if o.Some? then [o.value] else []
  }

  /** The normalised places where a reference may lead, in order and without repeats. */
  function Attempts(from: string, prefix: string, candidate: string): seq<string> {
    Sort(
      (if AssetRoot(Split(candidate)[0]) then Some1(Normalize(candidate)) else [])
      + Some1(Normalize(Parent(from) + "/" + candidate))
      + Some1(Normalize(prefix + "/" + candidate))
      + Some1(Normalize(GroupRoot(prefix) + "/" + candidate)))
  }

  /**
   The places tried for a reference: beside the file that holds it, below the group, and below the group's root folder;
   and as it stands, when it starts with a folder of assets. `dir/file` is the path of the file, `root/rest` the group.
   */
  lemma AttemptsExactly(dir: string, file: string, root: string, rest: string, head: string, tail: seq<string>,
                        candidate: string, a: string)
    requires '/' !in file && '/' !in root && Split(candidate) == [head] + tail
    ensures a in Attempts(dir + "/" + file, root + "/" + rest, candidate) <==>
              || Normalize(dir + "/" + candidate) == Some(a)
              || Normalize(root + "/" + rest + "/" + candidate) == Some(a)
              || Normalize(root + "/" + candidate) == Some(a)
              || (Normalize(candidate) == Some(a)
                  && Lower(head) in {"kart_", "kart", "track_", "track", "character_", "character", "rider_", "rider",
                                     "pet", "pet_", "flyingpet", "flyingpet_"})
  {
    hide Normalize, Sort, LastSlash, FirstSlash;
    LastSlashAt(dir, file);
    FirstSlashAt(root, rest);
    assert (dir + "/" + file)[..|dir|] == dir && (root + "/" + rest)[..|root|] == root;
    SortAscending(
      (if AssetRoot(head) then Some1(Normalize(candidate)) else [])
      + Some1(Normalize(dir + "/" + candidate))
      + Some1(Normalize(root + "/" + rest + "/" + candidate))
      + Some1(Normalize(root + "/" + candidate)));
  }

  lemma {:induction false} LastSlashAt(dir: string, file: string)
    requires '/' !in file
    ensures LastSlash(dir + "/" + file) == |dir|
  {
    var s := dir + "/" + file;
    if dir == "" {
      assert s[1..] == file && s[0] == '/';
    } else {
      assert s[1..] == dir[1..] + "/" + file;
      assert s[1..][|dir| - 1] == '/';
      LastSlashAt(dir[1..], file);
    }
  }

  lemma {:induction false} FirstSlashAt(root: string, rest: string)
    requires '/' !in root
    ensures FirstSlash(root + "/" + rest) == |root|
  {
    var s := root + "/" + rest;
    if root != "" {
      assert s[0] == root[0] && s[1..] == root[1..] + "/" + rest;
      FirstSlashAt(root[1..], rest);
    }
  }

  function FirstFound(attempts: seq<string>, v: View): Option<AssetRecord> {
    if attempts == [] then None
    else
      var r := Find(v, attempts[0]);
      if r.Some? then r else FirstFound(attempts[1..], v)
  }

  datatype Resolution = ToSource(path: string) | ToTarget(path: string) | Unresolved

  function Resolve(source: View, target: View, from: string, prefix: string, candidate: string): Resolution {
    var attempts := Attempts(from, prefix, candidate);
    var own := FirstFound(attempts, source);
    if own.Some? then ToSource(own.value.virtualPath)
    else
      var other := FirstFound(attempts, target);
      if other.Some? then ToTarget(other.value.virtualPath) else Unresolved
  }

  lemma {:induction false} FirstFoundLeast(attempts: seq<string>, v: View)
    requires Ascending(attempts)
    ensures FirstFound(attempts, v).None? <==> forall a :: a in attempts ==> Find(v, a).None?
    ensures FirstFound(attempts, v).Some? ==>
              exists a :: && a in attempts && Find(v, a) == FirstFound(attempts, v)
                          && forall b :: b in attempts && Find(v, b).Some? ==> a == b || LexLess(a, b)
  {
    hide LexLess, Find;
    if attempts != [] {
      var head, rest := attempts[0], attempts[1..];
      assert attempts == [head] + rest;
      if Find(v, head).Some? {
        forall b | b in attempts
          ensures head == b || LexLess(head, b)
        {
          var j :| 0 <= j < |attempts| && attempts[j] == b;
        }
      } else {
        FirstFoundLeast(rest, v);
      }
    }
  }

  /** `path` is where the least attempt known to the view leads. */
  ghost predicate LeastHit(attempts: seq<string>, v: View, path: string) {
    exists a ::
      && a in attempts && Find(v, a).Some? && Find(v, a).value.virtualPath == path
      && forall b :: b in attempts && Find(v, b).Some? ==> a == b || LexLess(a, b)
  }

  predicate NoHit(attempts: seq<string>, v: View) {
    forall a :: a in attempts ==> Find(v, a).None?
  }

  /** A reference leads to the least attempt the source has; only when it has none, to the least the target has. */
  lemma ResolveLeast(source: View, target: View, from: string, prefix: string, candidate: string)
    ensures var attempts := Attempts(from, prefix, candidate);
            match Resolve(source, target, from, prefix, candidate)
            case ToSource(path) => LeastHit(attempts, source, path)
            case ToTarget(path) => NoHit(attempts, source) && LeastHit(attempts, target, path)
            case Unresolved => NoHit(attempts, source) && NoHit(attempts, target)
  {
    hide LexLess, Find, Normalize, AssetRoot, Split;
    var attempts := Attempts(from, prefix, candidate);
    SortAscending(
      (if AssetRoot(Split(candidate)[0]) then Some1(Normalize(candidate)) else [])
      + Some1(Normalize(Parent(from) + "/" + candidate))
      + Some1(Normalize(prefix + "/" + candidate))
      + Some1(Normalize(GroupRoot(prefix) + "/" + candidate)));
    FirstFoundLeast(attempts, source);
    FirstFoundLeast(attempts, target);
  }

  // --------------------------------------------------------- the format memo

  /** Looks for a two-byte signature among target files, stopping at the first match or failed extraction. */
  function DirectScan(files: seq<Option<seq<byte>>>, signature: seq<byte>): Option<bool> {
    if files == [] then Some(false)
    else if files[0].None? then None
    else if files[0].value == signature then Some(true)
    else DirectScan(files[1..], signature)
  }

  lemma {:induction false} ScanReaches(files: seq<Option<seq<byte>>>, i: nat)
    requires i < |files| && forall j :: 0 <= j <= i ==> files[j].Some?
    ensures DirectScan(files, files[i].value) == Some(true)
  {
    if i > 0 { ScanReaches(files[1..], i - 1); }
  }

  /** A scan that comes to an answer says whether some file has the signature. */
  lemma {:induction false} DirectScanExactly(files: seq<Option<seq<byte>>>, signature: seq<byte>)
    ensures var seen := DirectScan(files, signature);
            && (seen.Some? ==> seen.value == (Some(signature) in files))
            && (seen.None? ==> None in files)
    ensures None !in files ==> DirectScan(files, signature).Some?
  {
    if files != [] {
      DirectScanExactly(files[1..], signature);
      assert files == [files[0]] + files[1..];
    }
  }

  /** It stops at the first file that has the signature or cannot be extracted. */
  lemma {:induction false} DirectScanStops(files: seq<Option<seq<byte>>>, signature: seq<byte>, i: nat)
    requires i < |files| && forall j :: 0 <= j < i ==> files[j].Some? && files[j] != Some(signature)
    ensures files[i] == Some(signature) ==> DirectScan(files, signature) == Some(true)
    ensures files[i] == None ==> DirectScan(files, signature) == None
  {
    if i > 0 {
      assert files[0].Some?;
      DirectScanStops(files[1..], signature, i - 1);
    }
  }

  /** The signatures seen so far in the target, shared by all lookups. */
  class FormatMemo {
    /** The leading bytes of the target's `.1s` files in listing order, at most 128; None where extraction fails. */
    const files: seq<Option<seq<byte>>>
    var known: set<seq<byte>>

    ghost predicate Valid()
      reads this
    {
      |files| <= 128 && forall s :: s in known ==> DirectScan(files, s) == Some(true)
    }

    constructor (all: seq<Option<seq<byte>>>)
      ensures Valid() && files == if |all| > 128 then all[..128] else all
    {
      files := if |all| > 128 then all[..128] else all;
      known := {};
    }

    /** `target_format_seen`: whatever was asked before, the answer is that of a direct scan. */
    method Seen(signature: seq<byte>) returns (r: Option<bool>)
      requires Valid()
      modifies this
      ensures Valid() && r == DirectScan(files, signature)
    {
      if signature in known {
        return Some(true);
      }
      var signatures := known;
      known := {};
      var found := false;
      var i := 0;
      assert files[0..] == files;
      while i < |files| && !found
        invariant 0 <= i <= |files|
        invariant forall j :: 0 <= j < i ==> files[j].Some?
        invariant forall s :: s in signatures ==> DirectScan(files, s) == Some(true)
        invariant DirectScan(files, signature) == if found then Some(true) else DirectScan(files[i..], signature)
        invariant known == {}
      {
        assert files[i..][1..] == files[i + 1..];
        if files[i].None? {
          return None;
        }
        var candidate := files[i].value;
        ScanReaches(files, i);
        found := candidate == signature;
        signatures := signatures + {candidate};
        i := i + 1;
      }
      known := signatures;
      r := Some(found);
    }
  }
}
