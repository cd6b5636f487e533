/** Packing entries into archives, in order and below a size limit: the greedy packing needs the fewest archives. */
module Packing {

  const LIMIT: nat := 40 * 1024 * 1024
  const USIZE_MAX: nat := 0xFFFF_FFFF_FFFF_FFFF

  datatype Entry = Entry(path: string, size: nat)

  type Chunk = seq<Entry>

  function Size(entries: seq<Entry>): nat {
    if entries == [] then 0 else entries[0].size + Size(entries[1..])
  }

  /** A chunk holds something, and more than the limit only if it is a single entry. */
  predicate ChunkOk(c: Chunk) {
    c != [] && (Size(c) <= LIMIT || |c| == 1)
  }

  function Concat(chunks: seq<Chunk>): seq<Entry> {
    if chunks == [] then [] else chunks[0] + Concat(chunks[1..])
  }

  /** An order-preserving packing under the size rule. */
  predicate Packs(chunks: seq<Chunk>, entries: seq<Entry>) {
    Concat(chunks) == entries && forall i :: 0 <= i < |chunks| ==> ChunkOk(chunks[i])
  }

  function SaturatingAdd(a: nat, b: nat): nat {
    if a + b > USIZE_MAX then USIZE_MAX else a + b
  }

  /** How many more entries fit behind `used` bytes. */
  function Fill(entries: seq<Entry>, used: nat): (n: nat)
    ensures n <= |entries|
  {
    if entries == [] || used + entries[0].size > LIMIT then 0
    else 1 + Fill(entries[1..], used + entries[0].size)
  }

  /** The greedy packing: every chunk takes all that fits. */
  function Greedy(entries: seq<Entry>): seq<Chunk>
    decreases |entries|
  {
    if entries == [] then []
    else
      var n := 1 + Fill(entries[1..], entries[0].size);
      [entries[..n]] + Greedy(entries[n..])
  }

  lemma {:induction false} SizeAppend(a: seq<Entry>, b: seq<Entry>)
    ensures Size(a + b) == Size(a) + Size(b)
  {
    if a == [] {
      assert a + b == b;
    } else {
      assert (a + b)[1..] == a[1..] + b;
      SizeAppend(a[1..], b);
    }
  }

  lemma {:induction false} FillFits(entries: seq<Entry>, used: nat)
    ensures var n := Fill(entries, used); n > 0 ==> used + Size(entries[..n]) <= LIMIT
  {
    if entries != [] && used + entries[0].size <= LIMIT {
      var rest := Fill(entries[1..], used + entries[0].size);
      FillFits(entries[1..], used + entries[0].size);
      assert entries[..rest + 1][1..] == entries[1..][..rest];
      if rest == 0 { assert entries[..1][1..] == []; }
    }
  }

  /** A prefix that fits is never longer than what the greedy packing takes. */
  lemma {:induction false} FillMost(entries: seq<Entry>, used: nat, k: nat)
    requires k <= |entries| && used + Size(entries[..k]) <= LIMIT
    ensures k <= Fill(entries, used)
  {
    if k > 0 {
      assert entries[..k][1..] == entries[1..][..k - 1];
      FillMost(entries[1..], used + entries[0].size, k - 1);
    }
  }

  lemma {:induction false} GreedyPacks(entries: seq<Entry>)
    ensures Packs(Greedy(entries), entries)
    decreases |entries|
  {
    hide Size, Fill, ChunkOk;
    if entries != [] {
      var n := 1 + Fill(entries[1..], entries[0].size);
      FirstChunkOk(entries);
      GreedyPacks(entries[n..]);
      assert Greedy(entries) == [entries[..n]] + Greedy(entries[n..]);
      assert entries[..n] + entries[n..] == entries;
    }
  }

  lemma FirstChunkOk(entries: seq<Entry>)
    requires entries != []
    ensures var n := 1 + Fill(entries[1..], entries[0].size); ChunkOk(entries[..n])
  {
    var n := 1 + Fill(entries[1..], entries[0].size);
    FillFits(entries[1..], entries[0].size);
    assert entries[..n][1..] == entries[1..][..n - 1];
  }

  lemma SuffixOk(c: Chunk, d: nat)
    requires ChunkOk(c) && d < |c|
    ensures ChunkOk(c[d..])
  {
    SizeAppend(c[..d], c[d..]);
    assert c[..d] + c[d..] == c;
  }

  lemma GreedyTakesChunk(entries: seq<Entry>, k: nat)
    requires k <= |entries| && ChunkOk(entries[..k])
    ensures k <= 1 + Fill(entries[1..], entries[0].size)
  {
    if k > 1 {
      assert entries[..k][1..] == entries[1..][..k - 1];
      FillMost(entries[1..], entries[0].size, k - 1);
    }
  }

  lemma PacksRest(chunks: seq<Chunk>, entries: seq<Entry>)
    requires Packs(chunks, entries) && chunks != []
    ensures ChunkOk(chunks[0]) && |chunks[0]| <= |entries| && entries[..|chunks[0]|] == chunks[0]
    ensures Packs(chunks[1..], entries[|chunks[0]|..])
  {
    hide ChunkOk;
    assert entries == chunks[0] + Concat(chunks[1..]);
  }

  /** Dropping `d` entries and then more is dropping the first chunk and what is left to drop behind it. */
  lemma DropsMeet(entries: seq<Entry>, m: nat, d: nat, n: nat)
    requires m <= d + n && d + n <= |entries|
    ensures entries[d..][n..] == entries[m..][d + n - m..]
  {
  }

  /** What a dropped prefix leaves of the first chunk is a prefix of the rest. */
  lemma ChunkLeft(entries: seq<Entry>, m: nat, d: nat)
    requires d < m <= |entries|
    ensures entries[d..][..m - d] == entries[..m][d..]
  {
  }

  /** The greedy packing stays ahead: it never needs more chunks for less than any packing has left. */
  lemma {:induction false} GreedyAhead(entries: seq<Entry>, other: seq<Chunk>, d: nat)
    requires Packs(other, entries) && d <= |entries|
    ensures |Greedy(entries[d..])| <= |other|
    decreases |other|
  {
    hide ChunkOk, Fill, Packs, Greedy;
    var left := entries[d..];
    if d == |entries| {
      NoEntries(left);
    } else {
      assert other != [] by { SomeChunk(other, entries); }
      PacksRest(other, entries);
      var c, rest := other[0], other[1..];
      var m := |c|;
      if d >= m {
        DropsMeet(entries, m, d, 0);
        GreedyAhead(entries[m..], rest, d - m);
      } else {
        SuffixOk(c, d);
        ChunkLeft(entries, m, d);
        GreedyTakesChunk(left, m - d);
        var n := 1 + Fill(left[1..], left[0].size);
        GreedyStep(left, n);
        DropsMeet(entries, m, d, n);
        GreedyAhead(entries[m..], rest, d + n - m);
      }
    }
  }

  lemma SomeChunk(chunks: seq<Chunk>, entries: seq<Entry>)
    requires Packs(chunks, entries) && entries != []
    ensures chunks != []
  {
  }

  /** No packing of the same entries in the same order has fewer chunks. */
  lemma GreedyOptimal(entries: seq<Entry>, other: seq<Chunk>)
    requires Packs(other, entries)
    ensures |Greedy(entries)| <= |other|
  {
    GreedyAhead(entries, other, 0);
    assert entries[0..] == entries;
  }

  /** So the check against the supplied archive slots passes exactly when some packing fits into them. */
  lemma SlotCheckExact(entries: seq<Entry>, slots: nat)
    ensures |Greedy(entries)| <= slots <==> exists other :: Packs(other, entries) && |other| <= slots
  {
    hide Packs, Greedy;
    GreedyPacks(entries);
    if other :| Packs(other, entries) && |other| <= slots {
      GreedyOptimal(entries, other);
    }
  }

  // ------------------------------------------------------------- the loop

  /** What the loop still produces from its current chunk and the entries to come. */
  function Onward(rest: seq<Entry>, current: Chunk, used: nat): seq<Chunk>
    decreases rest
  {
    if rest == [] then if current == [] then [] else [current]
    else if current != [] && SaturatingAdd(used, rest[0].size) > LIMIT then
      [current] + Onward(rest[1..], [rest[0]], SaturatingAdd(0, rest[0].size))
    else Onward(rest[1..], current + [rest[0]], SaturatingAdd(used, rest[0].size))
  }

  lemma {:induction false} OnwardIsGreedy(rest: seq<Entry>, current: Chunk, used: nat, total: nat)
    requires current != [] && used == (if total > USIZE_MAX then USIZE_MAX else total)
    ensures var n := Fill(rest, total); Onward(rest, current, used) == [current + rest[..n]] + Greedy(rest[n..])
    decreases rest
  {
    hide Greedy;
    if rest == [] {
      assert current + rest[..0] == current;
      NoEntries(rest[0..]);
    } else {
      var e := rest[0];
      if total + e.size > LIMIT {
        OnwardIsGreedy(rest[1..], [e], SaturatingAdd(0, e.size), e.size);
        var n := 1 + Fill(rest[1..], e.size);
        GreedyStep(rest, n);
        assert [e] + rest[1..][..n - 1] == rest[..n];
        assert rest[1..][n - 1..] == rest[n..];
        assert current + rest[..0] == current && rest[0..] == rest;
      } else {
        var n := Fill(rest[1..], total + e.size);
        OnwardIsGreedy(rest[1..], current + [e], SaturatingAdd(used, e.size), total + e.size);
        assert current + [e] + rest[1..][..n] == current + rest[..n + 1];
        assert rest[1..][n..] == rest[n + 1..];
      }
    }
  }

  lemma NoEntries(entries: seq<Entry>)
    requires entries == []
    ensures Greedy(entries) == []
  {
  }

  lemma GreedyStep(entries: seq<Entry>, n: nat)
    requires entries != [] && n == 1 + Fill(entries[1..], entries[0].size)
    ensures Greedy(entries) == [entries[..n]] + Greedy(entries[n..])
  {
  }

  lemma LoopIsGreedy(entries: seq<Entry>)
    ensures Onward(entries, [], 0) == Greedy(entries)
  {
    if entries != [] {
      var e := entries[0];
      OnwardIsGreedy(entries[1..], [e], SaturatingAdd(0, e.size), e.size);
      var n := 1 + Fill(entries[1..], e.size);
      assert [] + [e] == [e];
      assert [e] + entries[1..][..n - 1] == entries[..n];
      assert entries[1..][n - 1..] == entries[n..];
      GreedyStep(entries, n);
    }
  }

  /** Two entries share an archive exactly when they have at most 40 MiB together. */
  lemma TwoTogether(a: Entry, b: Entry)
    ensures |Greedy([a, b])| == if a.size + b.size <= 41_943_040 then 1 else 2
  {
    assert [a, b][1..] == [b] && [b][1..] == [];
    assert [a, b][2..] == [];
    GreedyStep([b], 1);
    NoEntries([b][1..]);
  }

  lemma PacksWithin(chunks: seq<Chunk>, entries: seq<Entry>)
    requires Packs(chunks, entries)
    ensures forall i :: 0 <= i < |chunks| ==> chunks[i] != [] && (|chunks[i]| == 1 || Size(chunks[i]) <= 41_943_040)
  {
  }

  method PartitionEntries(entries: seq<Entry>) returns (chunks: seq<Chunk>)
    ensures Packs(chunks, entries)
    ensures forall i :: 0 <= i < |chunks| ==> chunks[i] != [] && (|chunks[i]| == 1 || Size(chunks[i]) <= 41_943_040)
    ensures forall other :: Packs(other, entries) ==> |chunks| <= |other|
  {
    hide Greedy, Packs;
    chunks := [];
    var current: Chunk := [];
    var currentBytes: nat := 0;
    assert entries[0..] == entries;
    assert [] + Onward(entries, [], 0) == Onward(entries, [], 0);
    for i := 0 to |entries|
      invariant chunks + Onward(entries[i..], current, currentBytes) == Onward(entries, [], 0)
    {
      var entry := entries[i];
      assert entries[i..][0] == entry && entries[i..][1..] == entries[i + 1..];
      if current != [] && SaturatingAdd(currentBytes, entry.size) > LIMIT {
        assert chunks + ([current] + Onward(entries[i + 1..], [entry], SaturatingAdd(0, entry.size)))
            == chunks + [current] + Onward(entries[i + 1..], [entry], SaturatingAdd(0, entry.size));
        chunks := chunks + [current];
        current := [];
        currentBytes := 0;
        assert [] + [entry] == [entry];
      }
      currentBytes := SaturatingAdd(currentBytes, entry.size);
      current := current + [entry];
    }
    assert entries[|entries|..] == [] && chunks + [] == chunks;
    if current != [] { chunks := chunks + [current]; }
    LoopIsGreedy(entries);
    GreedyPacks(entries);
    PacksWithin(chunks, entries);
    forall other | Packs(other, entries)
      ensures |chunks| <= |other|
    {
      GreedyOptimal(entries, other);
    }
  }
}
