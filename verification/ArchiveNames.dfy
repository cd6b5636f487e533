/** Names of consecutive archives: a prefix, a zero-padded number, and the archive suffix. */
module ArchiveNames {
  import opened Text

  const SUFFIX := ".rho5"
  const UPPER_SUFFIX := ".RHO5"
  const U32_MAX: nat := 0xFFFF_FFFF

  function DigitOf(n: nat): char
    requires n < 10
  {
    ('0' as int + n) as char
  }

  /** The decimal digits of a number, at least one. */
  function Decimal(n: nat): string {
    if n < 10 then [DigitOf(n)] else Decimal(n / 10) + [DigitOf(n % 10)]
  }

  function Zeros(k: nat): string {
    seq(k, _ => '0')
  }

  /** `{number:0width$}`. */
  function Padded(n: nat, width: nat): string {
    var d := Decimal(n);
    if |d| < width then Zeros(width - |d|) + d else d
  }

  function LastUnderscore(s: string): Option<nat> {
    if s == "" then None
    else if s[|s| - 1] == '_' then Some(|s| - 1)
    else LastUnderscore(s[..|s| - 1])
  }

  lemma {:induction false} LastUnderscoreIs(s: string, i: nat)
    requires i < |s| && s[i] == '_' && forall j :: i < j < |s| ==> s[j] != '_'
    ensures LastUnderscore(s) == Some(i)
  {
    if i < |s| - 1 { LastUnderscoreIs(s[..|s| - 1], i); }
  }

  lemma {:induction false} LastUnderscoreFits(s: string)
    requires LastUnderscore(s).Some?
    ensures LastUnderscore(s).value < |s| && s[LastUnderscore(s).value] == '_'
  {
    if s[|s| - 1] != '_' { LastUnderscoreFits(s[..|s| - 1]); }
  }

  function Stem(name: string): Option<string> {
    if |name| >= 5 && (name[|name| - 5..] == SUFFIX || name[|name| - 5..] == UPPER_SUFFIX) then Some(name[..|name| - 5])
    else None
  }

  datatype Parts = Parts(prefix: string, digits: string)

  /** What a name is made of, if it ends in an underscore, a decimal sequence and the suffix. */
  function Split(name: string): Option<Parts> {
    var stem := Stem(name);
    if stem.None? || LastUnderscore(stem.value).None? then None
    else
      var i := LastUnderscore(stem.value).value;
      LastUnderscoreFits(stem.value);
      var digits := stem.value[i + 1..];
      if digits == "" || !AllDigits(digits) then None else Some(Parts(stem.value[..i], digits))
  }

  lemma SplitDigits(name: string)
    requires Split(name).Some?
    ensures Split(name).value.digits != "" && AllDigits(Split(name).value.digits)
  {
  }

  function NameOf(prefix: string, number: nat, width: nat): string {
    prefix + "_" + Padded(number, width) + SUFFIX
  }

  // ------------------------------------------------------------- numbers back

  lemma {:induction false} DecimalDigits(n: nat)
    ensures Decimal(n) != "" && AllDigits(Decimal(n)) && DecimalValue(Decimal(n)) == n
  {
    var d := Decimal(n);
    if n >= 10 {
      DecimalDigits(n / 10);
      assert d[..|d| - 1] == Decimal(n / 10);
    } else {
      assert d[..0] == "";
    }
  }

  lemma {:induction false} ZerosValue(k: nat, d: string)
    requires AllDigits(d)
    ensures AllDigits(Zeros(k) + d) && DecimalValue(Zeros(k) + d) == DecimalValue(d)
    decreases |d|, k
  {
    var s := Zeros(k) + d;
    if d != "" {
      assert s[..|s| - 1] == Zeros(k) + d[..|d| - 1];
      ZerosValue(k, d[..|d| - 1]);
    } else if k > 0 {
      assert s[..|s| - 1] == Zeros(k - 1) + d;
      ZerosValue(k - 1, d);
    } else {
      assert s == "";
    }
  }

  lemma PaddedValue(n: nat, width: nat)
    ensures Padded(n, width) != "" && AllDigits(Padded(n, width)) && DecimalValue(Padded(n, width)) == n
  {
    DecimalDigits(n);
    if |Decimal(n)| < width { ZerosValue(width - |Decimal(n)|, Decimal(n)); }
  }

  /** Padding the value of a digit string to its own length gives the string back. */
  lemma {:induction false} PaddedBack(s: string)
    requires s != "" && AllDigits(s)
    ensures Padded(DecimalValue(s), |s|) == s
    decreases |s|
  {
    var front, last := s[..|s| - 1], s[|s| - 1] as int - '0' as int;
    assert Digit(s[|s| - 1]) && DigitOf(last) == s[|s| - 1];
    assert front + [s[|s| - 1]] == s;
    if front == "" {
      assert DecimalValue(front) == 0;
    } else {
      hide Padded;
      PaddedBack(front);
      PaddedLonger(DecimalValue(front), last, |front|);
    }
  }

  /** One more digit at the end is one more column. */
  lemma PaddedLonger(n: nat, last: nat, width: nat)
    requires last < 10 && width > 0
    ensures Padded(10 * n + last, width + 1) == Padded(n, width) + [DigitOf(last)]
  {
    var d := Decimal(n);
    if n > 0 {
      DecimalLonger(n, last);
      if |d| < width { assert Zeros(width - |d|) + (d + [DigitOf(last)]) == Zeros(width - |d|) + d + [DigitOf(last)]; }
    } else {
      assert d == "0";
      assert Zeros(width) == Zeros(width - 1) + "0";
      assert Zeros(width) + [DigitOf(last)] == Padded(n, width) + [DigitOf(last)];
    }
  }

  lemma DecimalLonger(n: nat, last: nat)
    requires n > 0 && last < 10
    ensures Decimal(10 * n + last) == Decimal(n) + [DigitOf(last)]
  {
    assert (10 * n + last) / 10 == n && (10 * n + last) % 10 == last;
  }

  // ------------------------------------------------------------------ the names

  datatype Result = Names(names: seq<string>) | NoSuffix | NoSequence | Overflow

  /** The whole sequence, or why there is none. */
  function Sequential(first: string, count: nat): Result {
    if Stem(first).None? then NoSuffix
    else if Split(first).None? then NoSequence
    else
      var p := Split(first).value;
      SplitDigits(first);
      var number := DecimalValue(p.digits);
      if number > U32_MAX || (count > 0 && number + count - 1 > U32_MAX) then Overflow
      else Names(seq(count, i requires 0 <= i < count => NameOf(p.prefix, number + i, |p.digits|)))
  }

  predicate Suffixed(name: string) {
    |name| >= 5 && (name[|name| - 5..] == ".rho5" || name[|name| - 5..] == ".RHO5")
  }

  /** What the parts of a well-formed name give: the names in order with one width, or an overflow. */
  lemma NamesExactly(prefix: string, digits: string, suffix: string, count: nat, i: nat)
    requires digits != "" && AllDigits(digits) && (suffix == ".rho5" || suffix == ".RHO5")
    ensures var r, n := Sequential(prefix + "_" + digits + suffix, count), DecimalValue(digits);
            if n > 0xFFFF_FFFF || n + count > 0x1_0000_0000 then r == Overflow
            else
              && r.Names? && |r.names| == count
              && (i < count ==> r.names[i] == prefix + "_" + Padded(n + i, |digits|) + ".rho5")
  {
    hide Padded, LastUnderscore, AllDigits;
    SplitsInto(prefix, digits, suffix);
    var r, n := Sequential(prefix + "_" + digits + suffix, count), DecimalValue(digits);
    if r.Names? && i < count { assert r.names[i] == NameOf(prefix, n + i, |digits|); }
  }

  lemma SplitsInto(prefix: string, digits: string, suffix: string)
    requires digits != "" && AllDigits(digits) && (suffix == ".rho5" || suffix == ".RHO5")
    ensures var first := prefix + "_" + digits + suffix;
            Stem(first) == Some(prefix + "_" + digits) && Split(first) == Some(Parts(prefix, digits))
  {
    var stem := prefix + "_" + digits;
    assert (stem + suffix)[|stem|..] == suffix && (stem + suffix)[..|stem|] == stem;
    forall j | |prefix| < j < |stem|
      ensures stem[j] != '_'
    {
      assert stem[j] == digits[j - |prefix| - 1];
    }
    LastUnderscoreIs(stem, |prefix|);
    assert stem[..|prefix|] == prefix && stem[|prefix| + 1..] == digits;
  }

  /** What is wrong with a name that gives neither. */
  lemma RefusedExactly(first: string, count: nat)
    ensures Sequential(first, count) == NoSuffix <==> !Suffixed(first)
    ensures Sequential(first, count) == NoSequence <==>
              && Suffixed(first)
              && !exists prefix, digits :: digits != "" && AllDigits(digits)
                                           && first[..|first| - 5] == prefix + "_" + digits
  {
    hide LastUnderscore, AllDigits, Padded;
    if Suffixed(first) {
      var stem, suffix := first[..|first| - 5], first[|first| - 5..];
      assert stem + suffix == first;
      if Split(first).Some? {
        LastUnderscoreFits(stem);
        var p := Split(first).value;
        assert stem == p.prefix + "_" + p.digits;
      }
      if prefix, digits :| digits != "" && AllDigits(digits) && stem == prefix + "_" + digits {
        SplitsInto(prefix, digits, suffix);
      }
    }
  }

  /** A generated name splits into the same prefix and its own number. */
  lemma NameSplits(prefix: string, number: nat, width: nat)
    ensures Split(NameOf(prefix, number, width)) == Some(Parts(prefix, Padded(number, width)))
    ensures AllDigits(Padded(number, width)) && DecimalValue(Padded(number, width)) == number
  {
    PaddedValue(number, width);
    var digits, name := Padded(number, width), NameOf(prefix, number, width);
    var stem := prefix + "_" + digits;
    assert name == stem + SUFFIX;
    assert name[|name| - 5..] == SUFFIX && name[..|name| - 5] == stem;
    forall j | |prefix| < j < |stem|
      ensures stem[j] != '_'
    {
      assert stem[j] == digits[j - |prefix| - 1];
    }
    LastUnderscoreIs(stem, |prefix|);
    assert stem[..|prefix|] == prefix && stem[|prefix| + 1..] == digits;
  }

  /** The `i`-th name parses back to the first number plus `i`. */
  lemma NamesParseBack(first: string, count: nat, i: nat)
    requires Sequential(first, count).Names? && i < count
    ensures var p := Split(first).value;
            var q := Split(Sequential(first, count).names[i]);
            && q.Some? && q.value.prefix == p.prefix && AllDigits(p.digits) && AllDigits(q.value.digits)
            && DecimalValue(q.value.digits) == DecimalValue(p.digits) + i <= U32_MAX
  {
    hide Split, NameOf;
    SplitDigits(first);
    var p := Split(first).value;
    NameSplits(p.prefix, DecimalValue(p.digits) + i, |p.digits|);
  }

  /** The names are pairwise distinct. */
  lemma NamesDistinct(first: string, count: nat, i: nat, j: nat)
    requires Sequential(first, count).Names? && i < j < count
    ensures Sequential(first, count).names[i] != Sequential(first, count).names[j]
  {
    hide Sequential, Split;
    NamesParseBack(first, count, i);
    NamesParseBack(first, count, j);
  }

  /** The first name is the given one, zero padding included, with the suffix in lower case. */
  lemma FirstNameIsGiven(first: string, count: nat)
    requires Sequential(first, count).Names? && count > 0
    ensures Sequential(first, count).names[0] == Stem(first).value + SUFFIX
  {
    hide Padded, LastUnderscore;
    SplitDigits(first);
    var p, stem := Split(first).value, Stem(first).value;
    PaddedBack(p.digits);
    LastUnderscoreFits(stem);
    var i := LastUnderscore(stem).value;
    assert p.prefix == stem[..i] && p.digits == stem[i + 1..];
    assert stem == p.prefix + "_" + p.digits;
    assert Sequential(first, count).names[0] == NameOf(p.prefix, DecimalValue(p.digits) + 0, |p.digits|);
    assert NameOf(p.prefix, DecimalValue(p.digits), |p.digits|) == p.prefix + "_" + p.digits + SUFFIX;
  }

  method SequentialArchiveNames(first: string, count: nat) returns (r: Result)
    ensures r == Sequential(first, count)
  {
    hide NameOf, LastUnderscore;
    if Stem(first).None? { return NoSuffix; }
    var parts := Split(first);
    if parts.None? { return NoSequence; }
    SplitDigits(first);
    var number := DecimalValue(parts.value.digits);
    if number > U32_MAX { return Overflow; }
    var names: seq<string> := [];
    for i := 0 to count
      invariant i > 0 ==> number + i - 1 <= U32_MAX
      invariant names == seq(i, k requires 0 <= k < i => NameOf(parts.value.prefix, number + k, |parts.value.digits|))
    {
      if number + i > U32_MAX { return Overflow; }
      names := names + [NameOf(parts.value.prefix, number + i, |parts.value.digits|)];
    }
    r := Names(names);
  }
}
