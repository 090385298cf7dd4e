/** What the index may rely on: nothing lost or reordered, no chunk over the cap, line numbers that fit together. */
module ChunkTheorems {
  import opened Wrappers
  import opened Utf8
  import opened BoundedSearch
  import opened SearchTheorems
  import opened Units
  import opened Chunker

  function Joined(chunks: seq<Chunk>): seq<Byte> {
    if chunks == [] then [] else Joined(chunks[..|chunks| - 1]) + chunks[|chunks| - 1].content
  }

  ghost function Reached(pieces: seq<Span>, to: nat): nat
    requires to <= |pieces|
  {
    if to == 0 then 0 else pieces[to - 1].end
  }

  lemma ChunkText(g: Setting, pieces: seq<Span>, a: nat, b: nat, c: Chunk)
    requires InText(g, pieces) && a < b <= |pieces| && IsChunk(g, pieces, a, b, c)
    ensures Reached(pieces, a) < Reached(pieces, b) <= |g.content| &&
      c.content == g.content[Reached(pieces, a)..Reached(pieces, b)]
    ensures c.startLine == LineAt(g.content, Reached(pieces, a)) &&
      c.endLine == LineAt(g.content, Reached(pieces, b) - 1)
  {
    TilesOrdered(pieces, 0, |g.content|, a, b - 1);
    if a > 0 { assert Adjacent(pieces, a - 1); }
  }

  /** Chunk k is the text between the offsets k and k + 1. */
  ghost predicate SliceAt(text: seq<Byte>, chunks: seq<Chunk>, offsets: seq<nat>, k: nat) {
    k < |chunks| && k + 1 < |offsets| && offsets[k] <= offsets[k + 1] <= |text| &&
      chunks[k].content == text[offsets[k]..offsets[k + 1]]
  }

  ghost predicate Slices(text: seq<Byte>, chunks: seq<Chunk>, offsets: seq<nat>) {
    |offsets| == |chunks| + 1 && offsets[0] <= |text| &&
      forall k: nat :: k < |chunks| ==> SliceAt(text, chunks, offsets, k)
  }

  lemma SlicesInit(text: seq<Byte>, chunks: seq<Chunk>, offsets: seq<nat>)
    requires chunks != [] && Slices(text, chunks, offsets)
    ensures Slices(text, chunks[..|chunks| - 1], offsets[..|chunks|])
  {
    var init, front := chunks[..|chunks| - 1], offsets[..|chunks|];
    forall k: nat | k < |init| ensures SliceAt(text, init, front, k) {
      assert SliceAt(text, chunks, offsets, k);
    }
  }

  lemma SlicesMeet(text: seq<Byte>, a: nat, b: nat, c: nat)
    requires a <= b <= c <= |text|
    ensures text[a..b] + text[b..c] == text[a..c]
  {}

  /** Consecutive slices of a text join to the text between the first offset and the last. */
  lemma {:induction false} JoinedSlices(text: seq<Byte>, chunks: seq<Chunk>, offsets: seq<nat>)
    requires Slices(text, chunks, offsets)
    ensures offsets[0] <= offsets[|chunks|] <= |text| && Joined(chunks) == text[offsets[0]..offsets[|chunks|]]
    decreases |chunks|
  {
    if chunks == [] {
    } else {
      var n := |chunks| - 1;
      SlicesInit(text, chunks, offsets);
      JoinedSlices(text, chunks[..n], offsets[..n + 1]);
      assert SliceAt(text, chunks, offsets, n);
      SlicesMeet(text, offsets[0], offsets[n], offsets[n + 1]);
    }
  }

  ghost function Offsets(pieces: seq<Span>, cuts: seq<nat>): seq<nat> {
    seq(|cuts|, k requires 0 <= k < |cuts| => if cuts[k] <= |pieces| then Reached(pieces, cuts[k]) else 0)
  }

  lemma ChunksAreSlices(g: Setting, pieces: seq<Span>, cuts: seq<nat>, chunks: seq<Chunk>)
    requires InText(g, pieces) && Packing(g, pieces, cuts, chunks, |pieces|)
    ensures Slices(g.content, chunks, Offsets(pieces, cuts))
  {
    forall k: nat | k < |chunks| ensures SliceAt(g.content, chunks, Offsets(pieces, cuts), k) {
      assert PackedAt(g, pieces, cuts, chunks, k);
      ChunkText(g, pieces, cuts[k], cuts[k + 1], chunks[k]);
    }
  }

  /** Every byte of the file appears exactly once, in order. */
  lemma {:induction false} ChunksRebuildTheFile(g: Setting, pieces: seq<Span>, cuts: seq<nat>, chunks: seq<Chunk>)
    requires InText(g, pieces) && Packing(g, pieces, cuts, chunks, |pieces|)
    ensures Joined(chunks) == g.content
  {
    ChunksAreSlices(g, pieces, cuts, chunks);
    JoinedSlices(g.content, chunks, Offsets(pieces, cuts));
    assert g.content[..|g.content|] == g.content;
  }

  lemma {:induction false} SumBounds(g: Setting, pieces: seq<Span>, a: nat, b: nat)
    requires InText(g, pieces) && a < b <= |pieces| && Subadditive(g.counter)
    ensures pieces[a].start <= pieces[b - 1].end <= |g.content|
    ensures g.counter(g.content[pieces[a].start..pieces[b - 1].end]) <= Sum(g.content, g.counter, pieces[a..b])
    decreases b - a
  {
    TilesOrdered(pieces, 0, |g.content|, a, b - 1);
    SumNext(g, pieces, a, b - 1);
    if a == b - 1 {
      assert Sum(g.content, g.counter, pieces[a..a]) == 0;
    } else {
      SumBounds(g, pieces, a, b - 1);
      assert Adjacent(pieces, b - 2);
      CountMeets(g, pieces[a].start, pieces[b - 1].start, pieces[b - 1].end);
    }
  }

  lemma CountMeets(g: Setting, a: nat, b: nat, c: nat)
    requires a <= b <= c <= |g.content| && Subadditive(g.counter)
    ensures g.counter(g.content[a..c]) <= g.counter(g.content[a..b]) + g.counter(g.content[b..c])
  {
    SlicesMeet(g.content, a, b, c);
    var front, back := g.content[a..b], g.content[b..c];
    assert g.counter(front + back) <= g.counter(front) + g.counter(back);
  }

  /** With a subadditive counter no chunk counts more than the maximum: a sum of parts bounds the whole. */
  lemma NoChunkOverTheCap(g: Setting, pieces: seq<Span>, cuts: seq<nat>, chunks: seq<Chunk>, k: nat)
    requires InText(g, pieces) && Packing(g, pieces, cuts, chunks, |pieces|) && Subadditive(g.counter) && k < |chunks|
    ensures chunks[k].tokenCount <= g.maximum
  {
    assert PackedAt(g, pieces, cuts, chunks, k);
    SumBounds(g, pieces, cuts[k], cuts[k + 1]);
  }

  lemma {:induction false} NewlinesSplit(a: seq<Byte>, b: seq<Byte>)
    ensures Newlines(a + b) == Newlines(a) + Newlines(b)
  {
    if b == [] {
      assert a + b == a;
    } else {
      assert (a + b)[..|a + b| - 1] == a + b[..|b| - 1];
      NewlinesSplit(a, b[..|b| - 1]);
    }
  }

  lemma LineSteps(text: seq<Byte>, a: nat, b: nat)
    requires a < b <= |text|
    ensures LineAt(text, a) <= LineAt(text, b - 1)
    ensures LineAt(text, b) == LineAt(text, b - 1) + if text[b - 1] == NEWLINE then 1 else 0
  {
    assert text[..b - 1] == text[..a] + text[a..b - 1];
    NewlinesSplit(text[..a], text[a..b - 1]);
    assert text[..b][..|text[..b]| - 1] == text[..b - 1];
  }

  /**
   The first chunk starts on line 1; each next one starts on the line its predecessor ended on, or on the
   next if that ended in a newline.
   */
  lemma LinesFitTogether(g: Setting, pieces: seq<Span>, cuts: seq<nat>, chunks: seq<Chunk>, k: nat)
    requires InText(g, pieces) && Packing(g, pieces, cuts, chunks, |pieces|) && k < |chunks|
    ensures chunks[k].content != [] && chunks[k].startLine <= chunks[k].endLine
    ensures k == 0 ==> chunks[k].startLine == 1
    ensures k + 1 < |chunks| ==>
      chunks[k + 1].startLine ==
        chunks[k].endLine + if chunks[k].content[|chunks[k].content| - 1] == 10 then 1 else 0
  {
    assert PackedAt(g, pieces, cuts, chunks, k);
    ChunkLines(g, pieces, cuts[k], cuts[k + 1], chunks[k]);
    if k + 1 < |chunks| { StartsWhereCut(g, pieces, cuts, chunks, k + 1); }
  }

  lemma ChunkLines(g: Setting, pieces: seq<Span>, a: nat, b: nat, c: Chunk)
    requires InText(g, pieces) && a < b <= |pieces| && IsChunk(g, pieces, a, b, c)
    ensures Reached(pieces, b) <= |g.content| && c.content != [] && c.startLine <= c.endLine
    ensures a == 0 ==> c.startLine == 1
    ensures LineAt(g.content, Reached(pieces, b)) ==
      c.endLine + if c.content[|c.content| - 1] == NEWLINE then 1 else 0
  {
    ChunkText(g, pieces, a, b, c);
    LineSteps(g.content, Reached(pieces, a), Reached(pieces, b));
  }

  lemma StartsWhereCut(g: Setting, pieces: seq<Span>, cuts: seq<nat>, chunks: seq<Chunk>, k: nat)
    requires InText(g, pieces) && Packing(g, pieces, cuts, chunks, |pieces|) && k < |chunks|
    ensures cuts[k] < |pieces| && Reached(pieces, cuts[k]) <= |g.content|
    ensures chunks[k].startLine == LineAt(g.content, Reached(pieces, cuts[k]))
  {
    assert PackedAt(g, pieces, cuts, chunks, k);
    ChunkText(g, pieces, cuts[k], cuts[k + 1], chunks[k]);
  }

  /** The built-in counter never makes chunking fail on ASCII text, and keeps every chunk under any cap. */
  lemma BuiltInCounterIsFriendly(content: seq<Byte>, maximum: int)
    requires Ascii(content) && maximum >= 1
    ensures Friendly(content, maximum, ApproximateCount) && Subadditive(ApproximateCount)
  {
    ApproximateIsNice();
  }

  lemma ExampleCounts()
    ensures ApproximateCount([0x61, 0x20]) == 1 && ApproximateCount([0x61, 0x20, 0xC3, 0xA9]) == 2
  {
    assert [0x61][..0] == [] && [0x61, 0x20][..1] == [0x61];
    assert [0x61, 0x20, 0xC3][..2] == [0x61, 0x20] && [0x61, 0x20, 0xC3, 0xA9][..3] == [0x61, 0x20, 0xC3];
    assert ApproximateCount([0x61]) == 1;
    assert ApproximateCount([0x61, 0x20]) == 1;
    assert ApproximateCount([0x61, 0x20, 0xC3]) == 2;
  }

  /** The chunker never comes to an end on the file without symbols. */
  ghost predicate RunsForEver(c: Chunker, path: string, content: seq<Byte>) {
    var g := Effective(c, path, content);
    g.minimum <= g.maximum && forall budget: nat :: Endless(g, [], budget)
  }

  lemma NeverChunked(c: Chunker, path: string, t: Task)
    requires IsCall(t) && !Ends(t) && t.start == 0 && t.limit == |t.content|
    requires var g := Effective(c, path, t.content);
      g.counter == t.counter && g.maximum == t.maximum && g.minimum <= g.maximum
    ensures RunsForEver(c, path, t.content)
  {
    var g := Effective(c, path, t.content);
    assert t == Task(g.content, 0, |g.content|, g.maximum, g.counter);
    forall budget: nat ensures Endless(g, [], budget) {
      assert End(t, budget) == None;
      assert StuckSymbol(g, Symbol("", 0, |g.content|), budget);
    }
  }

  lemma {:induction false} ExampleValid(text: seq<Byte>)
    requires text == [0x61, 0x20, 0xC3, 0xA9]
    ensures Valid(text)
  {
    assert text[1..] == [0x20, 0xC3, 0xA9] && text[1..][1..] == [0xC3, 0xA9];
    assert Valid([]) && text[1..][1..][2..] == [];
    assert RuneSize(text[1..][1..]) == 2 && RuneSize(text[1..]) == 1 && RuneSize(text) == 1;
    assert Valid(text[1..][1..]) && Valid(text[1..]);
  }

  /** "a é" as bytes, under a cap of one token: chunking it with the built-in counter's numbers never ends. */
  lemma {:induction false} MultiByteTextCanRunForever(text: seq<Byte>, path: string)
    requires text == [0x61, 0x20, 0xC3, 0xA9]
    ensures Valid(text) && !Ends(Task(text, 0, 4, 1, ApproximateCount))
    ensures RunsForEver(Chunker(None, 1, 1), path, text)
  {
    var t := Task(text, 0, 4, 1, ApproximateCount);
    ExampleValid(text);
    ExampleCounts();
    assert text[0..4] == text && text[0..2] == [0x61, 0x20];
    ApproximateIsNice();
    PrefixMonotoneIsMonotone(t);
    DivergesAtLongCharacter(t, 2, 4);
    NeverChunked(Chunker(None, 1, 1), path, t);
  }

  lemma EndsOnSomeBudget(g: Setting)
    requires Ascii(g.content)
    ensures !Endless(g, [], |g.content|)
  {
    if g.content != [] { AsciiSearchEnds(Task(g.content, 0, |g.content|, g.maximum, g.counter), |g.content|); }
  }

  /** A chunker that works with this cap and counts two tokens a byte. */
  function Doubling(maximum: int): Chunker {
    Chunker(Some(DoubleLength), 1, maximum)
  }

  lemma DoublingRunsForEver(path: string, content: seq<Byte>, p: nat, n: nat) returns (c: Chunker)
    requires Valid(content) && content != [] && LongCharacter(content, 0, p, n)
    ensures RunsForEver(c, path, content)
  {
    var t := EndlessWhole(content, p, n);
    c := Doubling(t.maximum);
    NeverChunked(c, path, t);
  }

  /** On a file without symbols some chunker runs for ever if and only if the file is not ASCII. */
  lemma {:induction false} SomeChunkerRunsForEverIff(path: string, content: seq<Byte>)
    requires Valid(content) && content != []
    ensures (exists c :: RunsForEver(c, path, content)) <==> !Ascii(content)
  {
    if Ascii(content) {
      forall c ensures !RunsForEver(c, path, content) {
        var g := Effective(c, path, content);
        EndsOnSomeBudget(g);
      }
    } else {
      var i :| 0 <= i < |content| && content[i] >= 0x80;
      var p, n := CharacterAround(content, 0, i);
      var c := DoublingRunsForEver(path, content, p, n);
    }
  }

  // ---- Greedy packing ----

  /** The tokens of pieces a to b, counted one by one. */
  ghost function Total(g: Setting, pieces: seq<Span>, a: nat, b: nat): int
    requires InText(g, pieces) && a <= b <= |pieces|
    decreases b
  {
    if a == b then 0 else Total(g, pieces, a, b - 1) + g.counter(g.content[pieces[b - 1].start..pieces[b - 1].end])
  }

  lemma {:induction false} TotalIsSum(g: Setting, pieces: seq<Span>, a: nat, b: nat)
    requires InText(g, pieces) && a <= b <= |pieces|
    ensures Total(g, pieces, a, b) == Sum(g.content, g.counter, pieces[a..b])
    decreases b
  {
    if a == b {
      assert pieces[a..b] == [];
    } else {
      TotalIsSum(g, pieces, a, b - 1);
      SumNext(g, pieces, a, b - 1);
    }
  }

  /**
   What a chunk holds: its path and token count, and so many pieces that the cap is kept, that fewer would not have
   reached the minimum, and that it is reached unless the next piece would break the cap or there is none.
   */
  lemma {:induction false} ChunksAreGreedy(g: Setting, pieces: seq<Span>, cuts: seq<nat>, chunks: seq<Chunk>, k: nat)
    requires InText(g, pieces) && Packing(g, pieces, cuts, chunks, |pieces|) && k < |chunks|
    ensures cuts[0] == 0 && cuts[|chunks|] == |pieces| && cuts[k] < cuts[k + 1] <= |pieces|
    ensures Total(g, pieces, cuts[k], cuts[k + 1]) <= g.maximum
    ensures forall m :: cuts[k] < m < cuts[k + 1] ==> Total(g, pieces, cuts[k], m) < g.minimum
    ensures cuts[k + 1] < |pieces| && Total(g, pieces, cuts[k], cuts[k + 1]) < g.minimum ==>
      Total(g, pieces, cuts[k], cuts[k + 1] + 1) > g.maximum
    ensures chunks[k].path == g.path && chunks[k].tokenCount == g.counter(chunks[k].content)
  {
    assert PackedAt(g, pieces, cuts, chunks, k);
    TotalIsSum(g, pieces, cuts[k], cuts[k + 1]);
    forall m | cuts[k] < m < cuts[k + 1] ensures Total(g, pieces, cuts[k], m) < g.minimum {
      TotalIsSum(g, pieces, cuts[k], m);
    }
  }
}
