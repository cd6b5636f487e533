/** Virtual asset paths: folding, splitting, and the normaliser that walks their components. */
module Paths {
  import opened Text

  /** `replace('\\', "/")`. */
  function Slashed(s: string): (r: string)
    ensures |r| == |s|
    ensures forall i :: 0 <= i < |s| ==> r[i] == if s[i] == '\\' then '/' else s[i]
  {
    seq(|s|, i requires 0 <= i < |s| => if s[i] == '\\' then '/' else s[i])
  }

  /** `split('/')`: the text between slashes, always at least one piece. */
  function Split(s: string): (r: seq<string>)
    ensures |r| >= 1
  {
    if s == "" then [""]
    else
      var rest := Split(s[1..]);
      if s[0] == '/' then [""] + rest else [[s[0]] + rest[0]] + rest[1..]
  }

  function Join(parts: seq<string>): string {
    if parts == [] then "" else if |parts| == 1 then parts[0] else parts[0] + "/" + Join(parts[1..])
  }

  datatype Step = Stay | Up | Enter

  function StepOf(part: string): Step {
    if part == "" || part == "." then Stay else if part == ".." then Up else Enter
  }

  /** Walks the components from a directory; climbing above the root gives nothing. */
  function Walk(directory: seq<string>, parts: seq<string>): Option<seq<string>>
    decreases parts
  {
    if parts == [] then Some(directory)
    else
      match StepOf(parts[0])
      case Stay => Walk(directory, parts[1..])
      case Up => if directory == [] then None else Walk(directory[..|directory| - 1], parts[1..])
      case Enter => Walk(directory + [parts[0]], parts[1..])
  }

  predicate Rejected(value: string) {
    ':' in value || (value != "" && (value[0] == '/' || value[0] == '\\'))
  }

  function Normalize(value: string): Option<string> {
    if Rejected(value) then None
    else
      var walked := Walk([], Split(Slashed(value)));
      if walked.None? || walked.value == [] then None else Some(Join(walked.value))
  }

  /** How far below its start a list of components ends. */
  function Depth(parts: seq<string>): int {
    if parts == [] then 0
    else
      var last := parts[|parts| - 1];
      Depth(parts[..|parts| - 1]) + if last == ".." then -1 else if last == "" || last == "." then 0 else 1
  }

  predicate Plain(part: string) {
    part != "" && part != "." && part != ".." && '/' !in part
  }

  predicate AllPlain(parts: seq<string>) {
    forall i :: 0 <= i < |parts| ==> Plain(parts[i])
  }

  // ------------------------------------------------------------ split and join

  lemma {:induction false} SplitAppend(a: string, b: string)
    ensures Split(a + "/" + b) == Split(a) + Split(b)
  {
    if a == "" {
      assert a + "/" + b == "/" + b;
      assert ("/" + b)[1..] == b;
    } else {
      var s := a + "/" + b;
      assert s[0] == a[0] && s[1..] == a[1..] + "/" + b;
      SplitAppend(a[1..], b);
    }
  }

  lemma {:induction false} SplitPlain(s: string)
    requires '/' !in s
    ensures Split(s) == [s]
  {
    if s != "" {
      assert '/' !in s[1..];
      SplitPlain(s[1..]);
      assert [s[0]] + s[1..] == s;
    }
  }

  lemma {:induction false} SplitJoin(parts: seq<string>)
    requires parts != [] && forall i :: 0 <= i < |parts| ==> '/' !in parts[i]
    ensures Split(Join(parts)) == parts
  {
    SplitPlain(parts[0]);
    if |parts| > 1 {
      SplitAppend(parts[0], Join(parts[1..]));
      SplitJoin(parts[1..]);
      assert [parts[0]] + parts[1..] == parts;
    }
  }

  lemma {:induction false} SplitNoSlash(s: string)
    ensures forall i :: 0 <= i < |Split(s)| ==> '/' !in Split(s)[i]
    ensures forall i, c :: 0 <= i < |Split(s)| && c in Split(s)[i] ==> c in s
  {
    if s != "" {
      SplitNoSlash(s[1..]);
      var rest := Split(s[1..]);
      assert s == [s[0]] + s[1..];
      forall i, c | 0 <= i < |Split(s)| && c in Split(s)[i]
        ensures c in s
      {
        if s[0] == '/' {
          assert c in rest[i - 1];
        } else if i > 0 {
          assert c in rest[i];
        } else if c != s[0] {
          assert c in rest[0];
        }
      }
    }
  }

  lemma {:induction false} JoinChars(parts: seq<string>, c: char)
    requires c in Join(parts)
    ensures c == '/' || exists i :: 0 <= i < |parts| && c in parts[i]
  {
    if |parts| == 1 {
      assert c in parts[0];
    } else if |parts| > 1 {
      if c !in parts[0] && c != '/' {
        JoinChars(parts[1..], c);
        var i :| 0 <= i < |parts[1..]| && c in parts[1..][i];
        assert c in parts[i + 1];
      }
    }
  }

  // ------------------------------------------------------------------ walking

  lemma {:induction false} WalkAppend(directory: seq<string>, a: seq<string>, b: seq<string>)
    ensures Walk(directory, a + b)
         == var middle := Walk(directory, a); if middle.None? then None else Walk(middle.value, b)
    decreases a
  {
    if a == [] {
      assert a + b == b;
    } else {
      assert (a + b)[1..] == a[1..] + b;
      match StepOf(a[0]) {
        case Stay => WalkAppend(directory, a[1..], b);
        case Up => if directory != [] { WalkAppend(directory[..|directory| - 1], a[1..], b); }
        case Enter => WalkAppend(directory + [a[0]], a[1..], b);
      }
    }
  }

  lemma {:induction false} WalkPlain(directory: seq<string>, parts: seq<string>)
    requires AllPlain(parts)
    ensures Walk(directory, parts) == Some(directory + parts)
    decreases parts
  {
    if parts == [] {
      assert directory + [] == directory;
    } else {
      WalkPlain(directory + [parts[0]], parts[1..]);
      assert directory + [parts[0]] + parts[1..] == directory + parts;
    }
  }

  predicate NeverAbove(parts: seq<string>) {
    forall i :: 0 <= i <= |parts| ==> Depth(parts[..i]) >= 0
  }

  lemma DepthNext(parts: seq<string>, part: string)
    ensures Depth(parts + [part])
         == Depth(parts) + match StepOf(part) case Stay => 0 case Up => -1 case Enter => 1
  {
    assert (parts + [part])[..|parts|] == parts;
  }

  lemma WalkNext(parts: seq<string>, part: string)
    ensures Walk([], parts + [part])
         == var w := Walk([], parts);
            match StepOf(part)
            case Stay => w
            case Up => if w.None? || w.value == [] then None else Some(w.value[..|w.value| - 1])
            case Enter => if w.None? then None else Some(w.value + [part])
  {
    WalkAppend([], parts, [part]);
    assert [part][1..] == [];
  }

  lemma NeverAboveNext(parts: seq<string>, part: string)
    ensures NeverAbove(parts + [part]) <==> NeverAbove(parts) && Depth(parts + [part]) >= 0
  {
    hide Depth;
    var all := parts + [part];
    assert all[..|all|] == all;
    forall i | 0 <= i <= |parts|
      ensures parts[..i] == all[..i]
    {
    }
  }

  /** A walk from the root survives exactly when no prefix climbs above it, and ends at the net depth. */
  lemma {:induction false} WalkExactly(parts: seq<string>)
    requires forall i :: 0 <= i < |parts| ==> '/' !in parts[i]
    ensures Walk([], parts).Some? <==> NeverAbove(parts)
    ensures Walk([], parts).Some? ==> |Walk([], parts).value| == Depth(parts) && AllPlain(Walk([], parts).value)
    ensures Walk([], parts).Some? ==> forall p :: p in Walk([], parts).value ==> p in parts
    decreases |parts|
  {
    if parts != [] {
      hide Walk, Depth, NeverAbove, StepOf, Plain;
      var init, last := parts[..|parts| - 1], parts[|parts| - 1];
      WalkExactly(init);
      assert parts == init + [last];
      WalkNext(init, last);
      DepthNext(init, last);
      NeverAboveNext(init, last);
      EnterIsPlain(last);
      if NeverAbove(init) { DepthAbove(init); }
    }
  }

  lemma DepthAbove(parts: seq<string>)
    requires NeverAbove(parts)
    ensures Depth(parts) >= 0
  {
    assert parts[..|parts|] == parts;
  }

  /** The component that ends at a level of the directory: entered there, and never left again. */
  predicate Survives(parts: seq<string>, i: nat, level: nat) {
    && i < |parts| && Plain(parts[i]) && Depth(parts[..i]) == level
    && forall j :: i < j <= |parts| ==> Depth(parts[..j]) > level
  }

  /** A walk from the root ends in exactly the components that survive, level by level. */
  lemma {:induction false} WalkPlaces(parts: seq<string>, level: nat)
    requires forall i :: 0 <= i < |parts| ==> '/' !in parts[i]
    requires Walk([], parts).Some? && level < |Walk([], parts).value|
    ensures exists i: nat :: Survives(parts, i, level) && Walk([], parts).value[level] == parts[i]
    decreases |parts|
  {
    hide Walk, Depth, NeverAbove, StepOf, Plain;
    WalkExactly(parts);
    if parts == [] {
      NothingWalked();
    } else {
      var n := |parts| - 1;
      var init, last := parts[..n], parts[n];
      assert parts == init + [last] && parts[..|parts|] == parts;
      WalkExactly(init);
      WalkNext(init, last);
      DepthNext(init, last);
      forall j | 0 <= j <= n
        ensures init[..j] == parts[..j]
      {
      }
      if level < |Walk([], init).value| {
        WalkPlaces(init, level);
        var i: nat :| Survives(init, i, level) && Walk([], init).value[level] == init[i];
        assert Survives(parts, i, level);
      } else {
        EnterIsPlain(last);
        assert Survives(parts, n, level);
      }
    }
  }

  lemma NothingWalked()
    ensures Walk([], []) == Some([])
  {
  }

  lemma EnterIsPlain(part: string)
    ensures Plain(part) <==> StepOf(part) == Enter && '/' !in part
  {
  }

  // ------------------------------------------------------------- the theorems

  lemma NormalizeParts(value: string)
    requires Normalize(value).Some?
    ensures var parts := Walk([], Split(Slashed(value))).value;
            && AllPlain(parts) && parts != [] && Split(Normalize(value).value) == parts
            && ':' !in Normalize(value).value && '\\' !in Normalize(value).value
  {
    var slashed := Slashed(value);
    var all := Split(slashed);
    SplitNoSlash(slashed);
    WalkExactly(all);
    var parts := Walk([], all).value;
    SplitJoin(parts);
    forall c | c in Join(parts)
      ensures c != ':' && c != '\\'
    {
      JoinChars(parts, c);
      if c != '/' {
        var i :| 0 <= i < |parts| && c in parts[i];
        assert parts[i] in parts;
        var j :| 0 <= j < |all| && all[j] == parts[i];
        assert c in all[j] && c in slashed;
        var k :| 0 <= k < |slashed| && slashed[k] == c;
        assert value[k] in value;
      }
    }
  }

  /** Exactly which paths the normaliser refuses. */
  lemma RefusedExactly(value: string)
    ensures var parts := Split(Slashed(value));
            Normalize(value) == None <==>
              ':' in value || (value != "" && value[0] in {'/', '\\'}) || !NeverAbove(parts) || Depth(parts) == 0
  {
    SplitNoSlash(Slashed(value));
    WalkExactly(Split(Slashed(value)));
  }

  lemma PlainSlashed(s: string)
    requires '\\' !in s
    ensures Slashed(s) == s
  {
  }

  lemma JoinFirst(parts: seq<string>)
    requires parts != [] && AllPlain(parts)
    ensures Join(parts) != "" && Join(parts)[0] == parts[0][0]
    ensures Join(parts)[0] != '/'
  {
  }

  /** A normalised path is its own normal form, and its components are real names. */
  lemma NormalizeIdempotent(value: string)
    requires Normalize(value).Some?
    ensures Normalize(Normalize(value).value) == Normalize(value)
    ensures AllPlain(Split(Normalize(value).value))
  {
    var out := Normalize(value).value;
    NormalizeParts(value);
    var parts := Walk([], Split(Slashed(value))).value;
    PlainSlashed(out);
    JoinFirst(parts);
    assert out[0] in out;
    WalkPlain([], parts);
    assert [] + parts == parts;
  }

  lemma SlashedAppend(a: string, b: string)
    ensures Slashed(a + "/" + b) == Slashed(a) + "/" + Slashed(b)
  {
  }

  /** Normalising a prefix first does not change where a path leads. */
  lemma NormalizePrefix(prefix: string, rest: string)
    requires Normalize(prefix).Some?
    ensures Normalize(prefix + "/" + rest) == Normalize(Normalize(prefix).value + "/" + rest)
  {
    var out := Normalize(prefix).value;
    NormalizeParts(prefix);
    NormalizeIdempotent(prefix);
    var parts := Walk([], Split(Slashed(prefix))).value;
    JoinFirst(parts);
    PlainSlashed(out);
    assert prefix != "";
    assert out[0] in out;
    SlashedAppend(prefix, rest);
    SlashedAppend(out, rest);
    SplitAppend(Slashed(prefix), Slashed(rest));
    SplitAppend(out, Slashed(rest));
    WalkAppend([], Split(Slashed(prefix)), Split(Slashed(rest)));
    WalkAppend([], parts, Split(Slashed(rest)));
    WalkPlain([], parts);
    assert [] + parts == parts;
    assert Rejected(prefix + "/" + rest) <==> ':' in rest;
    assert Rejected(out + "/" + rest) <==> ':' in rest;
  }

  /** The normaliser as it runs: a stack of components, popped by `..`. */
  method NormalizeVirtual(value: string) returns (r: Option<string>)
    ensures r == Normalize(value)
  {
    if Rejected(value) {
      return None;
    }
    var components: seq<string> := [];
    var parts := Split(Slashed(value));
    assert parts[0..] == parts;
    for i := 0 to |parts|
      invariant Walk([], parts) == Walk(components, parts[i..])
    {
      assert parts[i..][0] == parts[i] && parts[i..][1..] == parts[i + 1..];
      match StepOf(parts[i]) {
        case Stay =>
        case Up =>
          if components == [] {
            return None;
          }
          components := components[..|components| - 1];
        case Enter =>
          components := components + [parts[i]];
      }
    }
    r := if components == [] then None else Some(Join(components));
  }
}
