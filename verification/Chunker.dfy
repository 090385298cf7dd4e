/** The retrieval chunker (chunk.go): symbol units, split where too long, packed greedily into chunks. */
module Chunker {
  import opened Wrappers
  import opened Utf8
  import opened BoundedSearch
  import opened SearchTheorems
  import opened SymbolNames
  import opened Units

  // ---- The built-in counter ----

  /** unicode.IsSpace or unicode.IsPunct, for ASCII. */
  predicate IsSeparator(b: Byte) {
    9 <= b <= 13 || b == 32
    || (33 <= b <= 47 && b != 36 && b != 43) || b == 58 || b == 59 || b == 63 || b == 64
    || 91 <= b <= 93 || b == 95 || b == 123 || b == 125
  }

  /** strings.FieldsFunc, counted: the maximal runs of bytes that are no separators. */
  function ApproximateCount(text: seq<Byte>): int {
    if text == [] then 0
    else
      var last := |text| - 1;
      ApproximateCount(text[..last]) +
      if !IsSeparator(text[last]) && (last == 0 || IsSeparator(text[last - 1])) then 1 else 0
  }

  ghost predicate Subadditive(counter: Counter) {
    forall a, b :: counter(a + b) <= counter(a) + counter(b)
  }

  ghost predicate PrefixMonotone(counter: Counter) {
    forall a, b :: counter(a) <= counter(a + b)
  }

  /** A word begins at x behind the text. */
  predicate BeginsWord(text: seq<Byte>, x: Byte) {
    !IsSeparator(x) && (text == [] || IsSeparator(text[|text| - 1]))
  }

  lemma {:induction false} CountOneMore(text: seq<Byte>, x: Byte)
    ensures ApproximateCount(text + [x]) == ApproximateCount(text) + if BeginsWord(text, x) then 1 else 0
  {
    assert (text + [x])[..|text|] == text;
  }

  /** A word reaches from one text into the other. */
  predicate CutsWord(a: seq<Byte>, b: seq<Byte>) {
    a != [] && b != [] && !IsSeparator(a[|a| - 1]) && !IsSeparator(b[0])
  }

  lemma CutStays(a: seq<Byte>, init: seq<Byte>, x: Byte)
    ensures (if BeginsWord(a + init, x) then 1 else 0) - (if CutsWord(a, init) then 1 else 0) ==
      (if BeginsWord(init, x) then 1 else 0) - (if CutsWord(a, init + [x]) then 1 else 0)
  {
    if init == [] { assert a + init == a; } else { assert (a + init)[|a + init| - 1] == init[|init| - 1]; }
  }

  ghost predicate CountsWords(f: seq<Byte> -> int) {
    f([]) == 0 && forall text, x :: f(text + [x]) == f(text) + if BeginsWord(text, x) then 1 else 0
  }

  lemma {:induction false} WordsJoin(f: seq<Byte> -> int, a: seq<Byte>, b: seq<Byte>)
    requires CountsWords(f)
    ensures f(a + b) == f(a) + f(b) - if CutsWord(a, b) then 1 else 0
    decreases |b|
  {
    if b == [] {
      assert a + b == a;
    } else {
      var init, x := b[..|b| - 1], b[|b| - 1];
      WordsJoin(f, a, init);
      CutStays(a, init, x);
      assert b == init + [x] && a + b == (a + init) + [x];
      assert f((a + init) + [x]) == f(a + init) + if BeginsWord(a + init, x) then 1 else 0;
    }
  }

  /** The count of two texts together is the sum of their counts, less the word that is cut, if one is. */
  lemma {:induction false} CountsJoin(a: seq<Byte>, b: seq<Byte>)
    ensures ApproximateCount(a + b) == ApproximateCount(a) + ApproximateCount(b) - if CutsWord(a, b) then 1 else 0
  {
    forall text, x
      ensures ApproximateCount(text + [x]) == ApproximateCount(text) + if BeginsWord(text, x) then 1 else 0
    {
      CountOneMore(text, x);
    }
    WordsJoin(ApproximateCount, a, b);
  }

  lemma {:induction false} WordCounts(b: seq<Byte>)
    ensures ApproximateCount(b) >= if b != [] && !IsSeparator(b[0]) then 1 else 0
    decreases |b|
  {
    if |b| <= 1 {
    } else {
      WordCounts(b[..|b| - 1]);
    }
  }

  lemma {:induction false} ApproximateAppend(a: seq<Byte>, b: seq<Byte>)
    ensures ApproximateCount(a) <= ApproximateCount(a + b) <= ApproximateCount(a) + ApproximateCount(b)
    ensures ApproximateCount(a + b) == ApproximateCount(a) + ApproximateCount(b) - if CutsWord(a, b) then 1 else 0
  {
    CountsJoin(a, b);
    WordCounts(b);
  }

  lemma ApproximateIsNice()
    ensures Subadditive(ApproximateCount) && PrefixMonotone(ApproximateCount)
    ensures forall b :: ApproximateCount([b]) <= 1
  {
    forall a, b ensures ApproximateCount(a) <= ApproximateCount(a + b) <= ApproximateCount(a) + ApproximateCount(b) {
      ApproximateAppend(a, b);
    }
  }

  /** The separators of ASCII: white space, and punctuation as Unicode classifies it. */
  lemma SeparatorsAre(b: Byte)
    requires b < 0x80
    ensures IsSeparator(b) <==>
      b in {9, 10, 11, 12, 13} || b as char in " !\"#%&'()*,-./:;?@[\\]_{}"
  {}

  /** A word begins at i: no separator, and none but a separator before it. */
  predicate StartsWord(text: seq<Byte>, i: nat)
    requires i < |text|
  {
    !IsSeparator(text[i]) && (i == 0 || IsSeparator(text[i - 1]))
  }

  ghost function WordStarts(text: seq<Byte>): set<nat> {
    set i: nat | i < |text| && StartsWord(text, i)
  }

  lemma WordStartsNext(text: seq<Byte>, x: Byte)
    ensures WordStarts(text + [x]) ==
      WordStarts(text) + if StartsWord(text + [x], |text|) then {|text|} else {}
  {
    forall i: nat | i < |text| ensures StartsWord(text + [x], i) == StartsWord(text, i) {}
  }

  /** The built-in counter counts words. */
  lemma {:induction false} ApproximateCountsWords(text: seq<Byte>)
    ensures ApproximateCount(text) == |WordStarts(text)|
  {
    if text == [] {
      assert WordStarts(text) == {};
    } else {
      var init, x := text[..|text| - 1], text[|text| - 1];
      ApproximateCountsWords(init);
      WordStartsNext(init, x);
      CountOneMore(init, x);
      assert text == init + [x];
    }
  }

  // ---- Splitting ----

  /** The token count a piece carries: always that of its own text. */
  function Weight(content: seq<Byte>, counter: Counter, p: Span): int
    requires p.start <= p.end <= |content|
  {
    counter(content[p.start..p.end])
  }

  /** Every span ends between two characters. */
  ghost predicate EndsAligned(content: seq<Byte>, spans: seq<Span>) {
    forall k :: 0 <= k < |spans| ==> Aligned(content, spans[k].end)
  }

  ghost predicate AllFit(content: seq<Byte>, maximum: int, counter: Counter, pieces: seq<Span>) {
    forall k :: 0 <= k < |pieces| ==>
      pieces[k].start <= pieces[k].end <= |content| && Weight(content, counter, pieces[k]) <= maximum
  }

  /** A piece of an over-long unit: it ends where boundedEnd cuts what is left of the unit. */
  ghost predicate IsCut(content: seq<Byte>, unit: Span, maximum: int, counter: Counter, budget: nat, p: Span) {
    && unit.start <= p.start < p.end <= unit.end <= |content| && p.symbol == unit.symbol
    && End(Task(content, p.start, unit.end, maximum, counter), budget) == Some(p.end)
  }

  /** A unit that fits is its own piece. */
  ghost predicate IsPieceOf(content: seq<Byte>, unit: Span, maximum: int, counter: Counter, budget: nat, p: Span)
    requires unit.start < unit.end <= |content|
  {
    if Weight(content, counter, unit) <= maximum then p == unit
    else IsCut(content, unit, maximum, counter, budget, p)
  }

  /** What splitting a unit yields: consecutive pieces of it, cut between characters if the unit itself is. */
  ghost predicate IsSplit(content: seq<Byte>, unit: Span, maximum: int, counter: Counter, budget: nat,
                          pieces: seq<Span>) {
    && unit.start < unit.end <= |content| && Tiles(pieces, unit.start, unit.end)
    && (forall p :: p in pieces ==> IsPieceOf(content, unit, maximum, counter, budget, p))
    && (Valid(content) && Aligned(content, unit.start) && Aligned(content, unit.end) ==> EndsAligned(content, pieces))
  }

  /** From this start on, some search for the next cut does not end within the budget. */
  ghost predicate Stops(content: seq<Byte>, start: nat, end: nat, maximum: int, counter: Counter, budget: nat)
    requires start <= end <= |content|
    decreases end - start
  {
    start < end &&
      match End(Task(content, start, end, maximum, counter), budget)
      case None => true
      case Some(cut) => Stops(content, cut, end, maximum, counter, budget)
  }

  /** The unit is over the cap, and some search in it does not end within the budget. */
  ghost predicate Overruns(content: seq<Byte>, unit: Span, maximum: int, counter: Counter, budget: nat)
    requires unit.start < unit.end <= |content|
  {
    Weight(content, counter, unit) > maximum && Stops(content, unit.start, unit.end, maximum, counter, budget)
  }

  lemma {:induction false} AsciiNeverStops(content: seq<Byte>, start: nat, end: nat, maximum: int, counter: Counter,
                                           budget: nat)
    requires start <= end <= |content| && Ascii(content) && budget >= |content|
    ensures !Stops(content, start, end, maximum, counter, budget)
    decreases end - start
  {
    if start == end {
    } else {
      var t := Task(content, start, end, maximum, counter);
      AsciiSearchEnds(t, budget);
      AsciiNeverStops(content, End(t, budget).value, end, maximum, counter, budget);
    }
  }

  /** All searches come to an end on cuts that fit, or behind a single byte. */
  ghost predicate Searchable(content: seq<Byte>, counter: Counter) {
    Ascii(content) && PrefixMonotone(counter)
  }

  /** All searches come to an end on cuts that fit. */
  ghost predicate Friendly(content: seq<Byte>, maximum: int, counter: Counter) {
    Searchable(content, counter) && forall b :: counter([b]) <= maximum
  }

  /** The piece fits, or it is a single byte. */
  ghost predicate Short(content: seq<Byte>, maximum: int, counter: Counter, p: Span) {
    p.start <= p.end <= |content| && (Weight(content, counter, p) <= maximum || p.end == p.start + 1)
  }

  ghost predicate AllShort(content: seq<Byte>, maximum: int, counter: Counter, pieces: seq<Span>) {
    forall k :: 0 <= k < |pieces| ==> Short(content, maximum, counter, pieces[k])
  }

  lemma ShortFits(content: seq<Byte>, maximum: int, counter: Counter, pieces: seq<Span>)
    requires AllShort(content, maximum, counter, pieces) && Friendly(content, maximum, counter)
    ensures AllFit(content, maximum, counter, pieces)
  {
    forall k | 0 <= k < |pieces| ensures Short(content, maximum, counter, pieces[k])
      && Weight(content, counter, pieces[k]) <= maximum
    {
      var p := pieces[k];
      if p.end == p.start + 1 { assert content[p.start..p.end] == [content[p.start]]; }
    }
  }

  lemma PrefixMonotoneIsMonotone(t: Task)
    requires t.Ok() && PrefixMonotone(t.counter)
    ensures t.Monotone()
  {
    forall a: nat, b: nat | t.start <= a <= b <= t.limit ensures t.Grows(a, b) {
      assert t.content[t.start..b] == t.content[t.start..a] + t.content[a..b];
    }
  }

  lemma SearchableIsEasy(t: Task)
    requires t.Ok() && Searchable(t.content, t.counter)
    ensures Easy(t) && DecodeSize(t.content[t.start..t.limit]) == 1
  {
    PrefixMonotoneIsMonotone(t);
    assert AlignForward(t, t.start + 1) == t.start + 1;
  }

  lemma SearchEnds(t: Task, budget: nat)
    requires t.Ok() && Searchable(t.content, t.counter) && budget >= |t.content|
    ensures End(t, budget).Some? && (t.Fits(End(t, budget).value) || End(t, budget).value == t.start + 1)
  {
    SearchableIsEasy(t);
    var longest := BoundedEndTotal(t, budget);
  }

  lemma AsciiSearchEnds(t: Task, budget: nat)
    requires t.Ok() && Ascii(t.content) && budget >= |t.content|
    ensures End(t, budget).Some?
  {
    EndsOnAscii(t, budget);
  }

  /** The unit is over the cap, and the search for its first cut does not end within the budget. */
  ghost predicate Stuck(content: seq<Byte>, unit: Span, maximum: int, counter: Counter, budget: nat)
    requires unit.start < unit.end <= |content|
  {
    Weight(content, counter, unit) > maximum &&
      End(Task(content, unit.start, unit.end, maximum, counter), budget) == None
  }

  lemma PieceIsShort(content: seq<Byte>, unit: Span, maximum: int, counter: Counter, budget: nat, p: Span)
    requires unit.start < unit.end <= |content| && Searchable(content, counter) && budget >= |content|
    requires IsPieceOf(content, unit, maximum, counter, budget, p)
    ensures Short(content, maximum, counter, p)
  {
    if Weight(content, counter, unit) > maximum {
      SearchEnds(Task(content, p.start, unit.end, maximum, counter), budget);
    }
  }

  method NextPiece(content: seq<Byte>, unit: Span, start: nat, maximum: int, counter: Counter, budget: nat)
    returns (r: Option<Span>)
    requires unit.start <= start < unit.end <= |content|
    ensures r == None <==> End(Task(content, start, unit.end, maximum, counter), budget) == None
    ensures r.Some? ==> r.value.start == start && IsCut(content, unit, maximum, counter, budget, r.value)
  {
    var cut := BoundedEnd(Task(content, start, unit.end, maximum, counter), budget);
    if cut.None? {
      return None;
    }
    r := Some(Span(start, cut.value, unit.symbol));
  }

  /** The pieces of the unit before start. */
  ghost predicate Splitting(content: seq<Byte>, unit: Span, start: nat, maximum: int, counter: Counter, budget: nat,
                            pieces: seq<Span>) {
    && unit.start <= start <= unit.end <= |content|
    && Tiles(pieces, unit.start, start)
    && (forall p :: p in pieces ==> IsCut(content, unit, maximum, counter, budget, p))
    && (Valid(content) && Aligned(content, unit.start) && Aligned(content, unit.end) ==>
      Aligned(content, start) && EndsAligned(content, pieces))
    && (Stops(content, unit.start, unit.end, maximum, counter, budget) <==>
      Stops(content, start, unit.end, maximum, counter, budget))
  }

  lemma SplitStep(content: seq<Byte>, unit: Span, start: nat, maximum: int, counter: Counter, budget: nat,
                  pieces: seq<Span>, p: Span)
    requires Splitting(content, unit, start, maximum, counter, budget, pieces)
    requires p.start == start && IsCut(content, unit, maximum, counter, budget, p)
    ensures Splitting(content, unit, p.end, maximum, counter, budget, pieces + [p])
  {
    TilesAppend(pieces, [p], unit.start, start, p.end);
    if Valid(content) && Aligned(content, start) && Aligned(content, unit.end) {
      CutsBetweenCharacters(Task(content, start, unit.end, maximum, counter), budget);
    }
  }

  method SplitPiece(content: seq<Byte>, unit: Span, maximum: int, counter: Counter, budget: nat)
    returns (r: Option<seq<Span>>)
    requires unit.start < unit.end <= |content|
    ensures r == None <==> Overruns(content, unit, maximum, counter, budget)
    ensures r.Some? ==> IsSplit(content, unit, maximum, counter, budget, r.value)
    ensures Weight(content, counter, unit) <= maximum ==> r == Some([unit])
  {
    if counter(content[unit.start..unit.end]) <= maximum {
      return Some([unit]);
    }
    var pieces: seq<Span> := [];
    var start := unit.start;
    while start < unit.end
      invariant Splitting(content, unit, start, maximum, counter, budget, pieces)
      decreases unit.end - start
    {
      var next := NextPiece(content, unit, start, maximum, counter, budget);
      if next.None? {
        return None;
      }
      SplitStep(content, unit, start, maximum, counter, budget, pieces, next.value);
      pieces := pieces + [next.value];
      start := next.value.end;
    }
    r := Some(pieces);
  }

  // ---- Packing ----

  /** Symbols holds the names that the source joins with ", ". */
  datatype Chunk = Chunk(path: string, symbols: seq<string>, startLine: int, endLine: int, content: seq<Byte>,
                         tokenCount: int)
  datatype Chunker = Chunker(counter: Option<Counter>, minTokens: int, maxTokens: int)
  datatype Outcome =
    | Chunks(chunks: seq<Chunk>)
    | Failed(reason: string)
    | Searching  // some search of boundedEnd has not come to an end within its budget

  function Newlines(text: seq<Byte>): nat {
    if text == [] then 0 else Newlines(text[..|text| - 1]) + if text[|text| - 1] == NEWLINE then 1 else 0
  }

  function LineAt(content: seq<Byte>, offset: nat): int
    requires offset <= |content|
  {
    1 + Newlines(content[..offset])
  }

  function Sum(content: seq<Byte>, counter: Counter, pieces: seq<Span>): int
    requires forall k :: 0 <= k < |pieces| ==> pieces[k].start <= pieces[k].end <= |content|
  {
    if pieces == [] then 0
    else Sum(content, counter, pieces[..|pieces| - 1]) + Weight(content, counter, pieces[|pieces| - 1])
  }

  /** What a run of the chunker works with once its defaults are in place. */
  datatype Setting = Setting(path: string, content: seq<Byte>, counter: Counter, minimum: int, maximum: int)

  ghost predicate InText(g: Setting, pieces: seq<Span>) {
    Tiles(pieces, 0, |g.content|)
  }

  /** No proper beginning of pieces a..b reaches the minimum. */
  ghost predicate Below(g: Setting, pieces: seq<Span>, a: nat, b: nat)
    requires InText(g, pieces) && b <= |pieces|
  {
    forall m :: a < m < b ==> Sum(g.content, g.counter, pieces[a..m]) < g.minimum
  }

  /** Pieces a..b are packed: they stay under the maximum, stop at the minimum, and stop early only for lack of room. */
  ghost predicate Packed(g: Setting, pieces: seq<Span>, a: nat, b: nat)
    requires InText(g, pieces)
  {
    && a < b <= |pieces|
    && Sum(g.content, g.counter, pieces[a..b]) <= g.maximum
    && Below(g, pieces, a, b)
    && (b == |pieces| || Sum(g.content, g.counter, pieces[a..b]) >= g.minimum
        || Sum(g.content, g.counter, pieces[a..b]) + Weight(g.content, g.counter, pieces[b]) > g.maximum)
  }

  ghost predicate IsChunk(g: Setting, pieces: seq<Span>, a: nat, b: nat, c: Chunk)
    requires InText(g, pieces) && a < b <= |pieces|
  {
    TilesOrdered(pieces, 0, |g.content|, a, b - 1);
    var text := g.content[pieces[a].start..pieces[b - 1].end];
    c == Chunk(g.path, Names(pieces[a..b]), LineAt(g.content, pieces[a].start),
               LineAt(g.content, pieces[b - 1].end - 1), text, g.counter(text))
  }

  /** cuts[k]..cuts[k + 1] are the pieces of chunk k; the first `to` pieces have been packed. */
  ghost predicate Packing(g: Setting, pieces: seq<Span>, cuts: seq<nat>, chunks: seq<Chunk>, to: nat)
    requires InText(g, pieces)
  {
    && |cuts| == |chunks| + 1 && cuts[0] == 0 && cuts[|chunks|] == to
    && (forall k: nat :: k < |chunks| ==> PackedAt(g, pieces, cuts, chunks, k))
  }

  ghost predicate PackedAt(g: Setting, pieces: seq<Span>, cuts: seq<nat>, chunks: seq<Chunk>, k: nat)
    requires InText(g, pieces) && k < |chunks| < |cuts|
  {
    Packed(g, pieces, cuts[k], cuts[k + 1]) && IsChunk(g, pieces, cuts[k], cuts[k + 1], chunks[k])
  }

  lemma SumNext(g: Setting, pieces: seq<Span>, a: nat, i: nat)
    requires InText(g, pieces) && a <= i < |pieces|
    ensures Sum(g.content, g.counter, pieces[a..i + 1]) ==
      Sum(g.content, g.counter, pieces[a..i]) + Weight(g.content, g.counter, pieces[i])
  {
    assert pieces[a..i + 1][..i - a] == pieces[a..i];
  }

  /** The state of the inner loop at piece i. */
  ghost predicate Filling(g: Setting, pieces: seq<Span>, start: nat, i: nat, tokens: int)
    requires InText(g, pieces)
  {
    && start <= i <= |pieces| && tokens == Sum(g.content, g.counter, pieces[start..i])
    && (i > start ==> tokens <= g.maximum)
    && Below(g, pieces, start, i)
  }

  lemma FillStep(g: Setting, pieces: seq<Span>, start: nat, i: nat, tokens: int)
    requires InText(g, pieces) && Filling(g, pieces, start, i, tokens) && (i > start ==> tokens < g.minimum)
    requires i < |pieces| && tokens + Weight(g.content, g.counter, pieces[i]) <= g.maximum
    ensures Filling(g, pieces, start, i + 1, tokens + Weight(g.content, g.counter, pieces[i]))
  {
    SumNext(g, pieces, start, i);
  }

  /**
   The inner loop: how far a chunk that begins at piece `start` reaches; `start` itself if its first piece is too long.
   */
  method Fill(g: Setting, pieces: seq<Span>, start: nat) returns (i: nat)
    requires InText(g, pieces) && start < |pieces|
    ensures i == start ==> Weight(g.content, g.counter, pieces[start]) > g.maximum
    ensures i != start ==> Packed(g, pieces, start, i)
  {
    i := start;
    var tokens := 0;
    while i < |pieces| && tokens + Weight(g.content, g.counter, pieces[i]) <= g.maximum
      invariant Filling(g, pieces, start, i, tokens) && (i > start ==> tokens < g.minimum)
    {
      FillStep(g, pieces, start, i, tokens);
      tokens := tokens + Weight(g.content, g.counter, pieces[i]);
      i := i + 1;
      if tokens >= g.minimum {
        break;
      }
    }
  }

  method MakeChunk(g: Setting, pieces: seq<Span>, a: nat, b: nat) returns (c: Chunk)
    requires InText(g, pieces) && a < b <= |pieces|
    ensures IsChunk(g, pieces, a, b, c)
  {
    TilesOrdered(pieces, 0, |g.content|, a, b - 1);
    var first, last := pieces[a], pieces[b - 1];
    var text := g.content[first.start..last.end];
    var symbols, _ := JoinedSymbols(pieces[a..b]);
    var lastByte := if first.start >= last.end - 1 then first.start else last.end - 1;
    c := Chunk(g.path, symbols, LineAt(g.content, first.start), LineAt(g.content, lastByte), text, g.counter(text));
  }

  lemma PackingStep(g: Setting, pieces: seq<Span>, cuts: seq<nat>, chunks: seq<Chunk>, a: nat, b: nat, c: Chunk)
    requires InText(g, pieces) && Packing(g, pieces, cuts, chunks, a) && Packed(g, pieces, a, b)
    requires IsChunk(g, pieces, a, b, c)
    ensures Packing(g, pieces, cuts + [b], chunks + [c], b)
  {
    forall k: nat | k < |chunks| ensures PackedAt(g, pieces, cuts + [b], chunks + [c], k) {
      assert PackedAt(g, pieces, cuts, chunks, k);
    }
    assert PackedAt(g, pieces, cuts + [b], chunks + [c], |chunks|);
  }

  ghost predicate NeverNegative(counter: Counter) { forall text :: counter(text) >= 0 }

  ghost predicate FitUntil(g: Setting, pieces: seq<Span>, n: nat)
    requires InText(g, pieces) && n <= |pieces|
  {
    forall k :: 0 <= k < n ==> Weight(g.content, g.counter, pieces[k]) <= g.maximum
  }

  /** No piece counts more than the sum. */
  lemma {:induction false} WithinSum(g: Setting, pieces: seq<Span>, a: nat, b: nat)
    requires InText(g, pieces) && a <= b <= |pieces| && NeverNegative(g.counter)
    ensures 0 <= Sum(g.content, g.counter, pieces[a..b])
    ensures forall k :: a <= k < b ==>
      Weight(g.content, g.counter, pieces[k]) <= Sum(g.content, g.counter, pieces[a..b])
    decreases b
  {
    if a == b {
      assert pieces[a..b] == [];
    } else {
      WithinSum(g, pieces, a, b - 1);
      SumNext(g, pieces, a, b - 1);
    }
  }

  method Pack(g: Setting, pieces: seq<Span>) returns (r: Option<seq<Chunk>>, ghost cuts: seq<nat>)
    requires InText(g, pieces)
    ensures r.Some? ==> Packing(g, pieces, cuts, r.value, |pieces|)
    ensures AllFit(g.content, g.maximum, g.counter, pieces) ==> r.Some?
    ensures r.Some? && NeverNegative(g.counter) ==> AllFit(g.content, g.maximum, g.counter, pieces)
  {
    var chunks: seq<Chunk> := [];
    cuts := [0];
    var i := 0;
    while i < |pieces|
      invariant i <= |pieces| && Packing(g, pieces, cuts, chunks, i)
      invariant NeverNegative(g.counter) ==> FitUntil(g, pieces, i)
      decreases |pieces| - i
    {
      var start := i;
      i := Fill(g, pieces, start);
      if i == start {
        return None, cuts;
      }
      var c := MakeChunk(g, pieces, start, i);
      PackingStep(g, pieces, cuts, chunks, start, i, c);
      if NeverNegative(g.counter) { WithinSum(g, pieces, start, i); }
      chunks, cuts := chunks + [c], cuts + [i];
    }
    r := Some(chunks);
  }

  // ---- The chunker ----

  /** Of the first n units, none overruns the budget. */
  ghost predicate NoneOverruns(g: Setting, units: seq<Span>, n: nat, budget: nat)
    requires n <= |units| && Tiles(units, 0, |g.content|)
  {
    forall k :: 0 <= k < n ==> !Overruns(g.content, units[k], g.maximum, g.counter, budget)
  }

  /** The piece belongs to one of the first n units. */
  ghost predicate InOneOf(g: Setting, units: seq<Span>, n: nat, budget: nat, p: Span)
    requires n <= |units| && Tiles(units, 0, |g.content|)
  {
    exists k :: 0 <= k < n && IsPieceOf(g.content, units[k], g.maximum, g.counter, budget, p)
  }

  ghost predicate FirstFit(g: Setting, units: seq<Span>, n: nat)
    requires n <= |units| && Tiles(units, 0, |g.content|)
  {
    forall k :: 0 <= k < n ==> Weight(g.content, g.counter, units[k]) <= g.maximum
  }

  /** The pieces of the first n units. */
  ghost predicate SplitUntil(g: Setting, units: seq<Span>, n: nat, budget: nat, pieces: seq<Span>)
    requires n <= |units| && Tiles(units, 0, |g.content|)
  {
    && Tiles(pieces, 0, if n == 0 then 0 else units[n - 1].end)
    && (Valid(g.content) && EndsAligned(g.content, units) ==> EndsAligned(g.content, pieces))
    && NoneOverruns(g, units, n, budget)
    && (forall p :: p in pieces ==> InOneOf(g, units, n, budget, p))
    && (FirstFit(g, units, n) ==> pieces == units[..n])
  }

  lemma SplitNext(g: Setting, units: seq<Span>, n: nat, budget: nat, pieces: seq<Span>, split: seq<Span>)
    requires Tiles(units, 0, |g.content|) && n < |units| && SplitUntil(g, units, n, budget, pieces)
    requires IsSplit(g.content, units[n], g.maximum, g.counter, budget, split)
    requires Weight(g.content, g.counter, units[n]) <= g.maximum ==> split == [units[n]]
    requires !Overruns(g.content, units[n], g.maximum, g.counter, budget)
    ensures SplitUntil(g, units, n + 1, budget, pieces + split)
  {
    if Valid(g.content) && EndsAligned(g.content, units) {
      StartAligned(g.content, units, n);
      AlignedAppend(g.content, pieces, split);
    }
    UnitFollows(units, |g.content|, n);
    NoneOverrunsNext(g, units, n, budget);
    InOneOfNext(g, units, n, budget, pieces, split);
    if FirstFit(g, units, n + 1) { FitNext(g, units, n); }
    TilesAppend(pieces, split, 0, units[n].start, units[n].end);
  }

  lemma FitNext(g: Setting, units: seq<Span>, n: nat)
    requires n < |units| && Tiles(units, 0, |g.content|) && FirstFit(g, units, n + 1)
    ensures FirstFit(g, units, n) && Weight(g.content, g.counter, units[n]) <= g.maximum
    ensures units[..n + 1] == units[..n] + [units[n]]
  {}

  lemma NoneOverrunsNext(g: Setting, units: seq<Span>, n: nat, budget: nat)
    requires n < |units| && Tiles(units, 0, |g.content|) && NoneOverruns(g, units, n, budget)
    requires !Overruns(g.content, units[n], g.maximum, g.counter, budget)
    ensures NoneOverruns(g, units, n + 1, budget)
  {}

  lemma InOneOfNext(g: Setting, units: seq<Span>, n: nat, budget: nat, pieces: seq<Span>, split: seq<Span>)
    requires n < |units| && Tiles(units, 0, |g.content|)
    requires forall p :: p in pieces ==> InOneOf(g, units, n, budget, p)
    requires forall p :: p in split ==> IsPieceOf(g.content, units[n], g.maximum, g.counter, budget, p)
    ensures forall p :: p in pieces + split ==> InOneOf(g, units, n + 1, budget, p)
  {
    forall p | p in pieces + split ensures InOneOf(g, units, n + 1, budget, p) {
      if p in split {
        assert IsPieceOf(g.content, units[n], g.maximum, g.counter, budget, p);
      } else {
        var k :| 0 <= k < n && IsPieceOf(g.content, units[k], g.maximum, g.counter, budget, p);
      }
    }
  }

  lemma AlignedAppend(content: seq<Byte>, a: seq<Span>, b: seq<Span>)
    requires EndsAligned(content, a) && EndsAligned(content, b)
    ensures EndsAligned(content, a + b)
  {}

  lemma UnitFollows(units: seq<Span>, length: nat, n: nat)
    requires Tiles(units, 0, length) && n < |units|
    ensures units[n].start == (if n == 0 then 0 else units[n - 1].end) && units[n].start < units[n].end <= length
  {
    if n > 0 { assert Adjacent(units, n - 1); }
  }

  /** All units split, one after the other. */
  method SplitAll(g: Setting, units: seq<Span>, budget: nat) returns (r: Option<seq<Span>>)
    requires Tiles(units, 0, |g.content|)
    ensures r.Some? ==> SplitUntil(g, units, |units|, budget, r.value)
    ensures r == None ==> !NoneOverruns(g, units, |units|, budget)
  {
    var pieces: seq<Span> := [];
    for i := 0 to |units|
      invariant SplitUntil(g, units, i, budget, pieces)
    {
      var split := SplitPiece(g.content, units[i], g.maximum, g.counter, budget);
      if split.None? {
        return None;
      }
      SplitNext(g, units, i, budget, pieces, split.value);
      pieces := pieces + split.value;
    }
    r := Some(pieces);
  }

  lemma {:induction false} StartAligned(content: seq<Byte>, units: seq<Span>, i: nat)
    requires Tiles(units, 0, |content|) && Valid(content) && EndsAligned(content, units) && i < |units|
    ensures Aligned(content, units[i].start)
  {
    if i > 0 { assert Adjacent(units, i - 1); }
  }

  /** The settings a chunker works with once its defaults are filled in. */
  function Effective(c: Chunker, path: string, content: seq<Byte>): (g: Setting)
    ensures g.minimum > 0 && g.maximum > 0
    ensures c.minTokens > 0 ==> g.minimum == c.minTokens
    ensures c.minTokens <= 0 ==> g.minimum == 200
    ensures c.maxTokens > 0 ==> g.maximum == c.maxTokens
    ensures c.maxTokens <= 0 ==> g.maximum == 800
  {
    Setting(path, content,
      if c.counter.None? then ApproximateCount else c.counter.value,
      if c.minTokens <= 0 then 200 else c.minTokens,
      if c.maxTokens <= 0 then 800 else c.maxTokens)
  }

  /** What Chunk does not refuse. */
  ghost predicate Proper(g: Setting, symbols: seq<Symbol>) {
    Valid(g.content) && g.minimum <= g.maximum && Disjoint(|g.content|, symbols)
  }

  /** The chunks are a greedy packing of consecutive pieces, cut between characters if the symbols are. */
  ghost predicate IsChunking(g: Setting, symbols: seq<Symbol>, pieces: seq<Span>, cuts: seq<nat>, chunks: seq<Chunk>) {
    && Proper(g, symbols) && InText(g, pieces) && Packing(g, pieces, cuts, chunks, |pieces|)
    && (AllAligned(g.content, symbols) ==> EndsAligned(g.content, pieces))
  }

  ghost predicate AllAligned(content: seq<Byte>, symbols: seq<Symbol>) {
    forall s :: s in symbols ==> Aligned(content, s.start) && Aligned(content, s.end)
  }

  /** A symbol of the file, or a stretch between symbols. */
  ghost predicate UnitOf(g: Setting, symbols: seq<Symbol>, u: Span) {
    u.start < u.end <= |g.content| && IsUnit(|g.content|, u, symbols)
  }

  ghost predicate OverrunsIn(g: Setting, symbols: seq<Symbol>, budget: nat, u: Span) {
    UnitOf(g, symbols, u) && Overruns(g.content, u, g.maximum, g.counter, budget)
  }

  /** In some unit over the cap, some search does not end within the budget. */
  ghost predicate SomeOverruns(g: Setting, symbols: seq<Symbol>, budget: nat) {
    exists u :: OverrunsIn(g, symbols, budget, u)
  }

  ghost predicate AllUnitsFit(g: Setting, symbols: seq<Symbol>) {
    forall u :: UnitOf(g, symbols, u) ==> Weight(g.content, g.counter, u) <= g.maximum
  }

  ghost predicate PieceIn(g: Setting, symbols: seq<Symbol>, budget: nat, p: Span, u: Span) {
    UnitOf(g, symbols, u) && IsPieceOf(g.content, u, g.maximum, g.counter, budget, p)
  }

  /** The pieces tile the file, and each is a unit that fits or a cut of one that does not. */
  ghost predicate ArePieces(g: Setting, symbols: seq<Symbol>, budget: nat, pieces: seq<Span>) {
    && InText(g, pieces)
    && (forall p :: p in pieces ==> exists u :: PieceIn(g, symbols, budget, p, u))
    && (AllUnitsFit(g, symbols) ==> forall u :: u in pieces <==> UnitOf(g, symbols, u))
  }

  /** Packing fails only for a piece over the cap, and does unless counts may be negative. */
  ghost predicate PacksIfFit(g: Setting, pieces: seq<Span>, r: Outcome) {
    && (AllFit(g.content, g.maximum, g.counter, pieces) ==> r.Chunks?)
    && (NeverNegative(g.counter) && r.Chunks? ==> AllFit(g.content, g.maximum, g.counter, pieces))
  }

  ghost predicate StuckSymbol(g: Setting, s: Symbol, budget: nat) {
    0 <= s.start < s.end <= |g.content| &&
      Stuck(g.content, Span(s.start, s.end, s.name), g.maximum, g.counter, budget)
  }

  /** The first search in some symbol does not end within the budget, or that in a file without symbols. */
  ghost predicate Endless(g: Setting, symbols: seq<Symbol>, budget: nat) {
    || (exists s :: s in symbols && StuckSymbol(g, s, budget))
    || (symbols == [] && StuckSymbol(g, Symbol("", 0, |g.content|), budget))
  }

  lemma EndlessOverruns(g: Setting, symbols: seq<Symbol>, budget: nat)
    requires Endless(g, symbols, budget)
    ensures SomeOverruns(g, symbols, budget)
  {
    var s: Symbol;
    if symbols == [] {
      s := Symbol("", 0, |g.content|);
      assert IsWholeGap(|g.content|, Span(s.start, s.end, s.name), symbols);
    } else {
      s :| s in symbols && StuckSymbol(g, s, budget);
      assert IsSymbol(Span(s.start, s.end, s.name), symbols);
    }
    assert OverrunsIn(g, symbols, budget, Span(s.start, s.end, s.name));
  }

  lemma OverrunsIff(g: Setting, symbols: seq<Symbol>, units: seq<Span>, budget: nat)
    requires Proper(g, symbols) && Tiles(units, 0, |g.content|) && Covers(|g.content|, units, symbols)
    ensures SomeOverruns(g, symbols, budget) <==> !NoneOverruns(g, units, |units|, budget)
  {
    forall u ensures u in units <==> UnitOf(g, symbols, u) { UnitsAre(|g.content|, units, symbols, u); }
    if SomeOverruns(g, symbols, budget) {
      var u :| OverrunsIn(g, symbols, budget, u);
      var k :| 0 <= k < |units| && units[k] == u;
      assert Overruns(g.content, units[k], g.maximum, g.counter, budget);
    }
    if k :| 0 <= k < |units| && Overruns(g.content, units[k], g.maximum, g.counter, budget) {
      assert units[k] in units;
      assert OverrunsIn(g, symbols, budget, units[k]);
    }
  }

  lemma PiecesOfUnits(g: Setting, symbols: seq<Symbol>, units: seq<Span>, budget: nat, pieces: seq<Span>)
    requires Proper(g, symbols) && Tiles(units, 0, |g.content|) && Covers(|g.content|, units, symbols)
    requires SplitUntil(g, units, |units|, budget, pieces)
    ensures ArePieces(g, symbols, budget, pieces)
  {
    forall u ensures u in units <==> UnitOf(g, symbols, u) { UnitsAre(|g.content|, units, symbols, u); }
    forall p | p in pieces ensures exists u :: PieceIn(g, symbols, budget, p, u) {
      var k :| 0 <= k < |units| && IsPieceOf(g.content, units[k], g.maximum, g.counter, budget, p);
      assert units[k] in units;
      assert PieceIn(g, symbols, budget, p, units[k]);
    }
    if AllUnitsFit(g, symbols) { UnitsFitFirst(g, symbols, units); }
  }

  lemma UnitsFitFirst(g: Setting, symbols: seq<Symbol>, units: seq<Span>)
    requires Tiles(units, 0, |g.content|) && (forall u :: u in units ==> UnitOf(g, symbols, u))
    requires AllUnitsFit(g, symbols)
    ensures FirstFit(g, units, |units|) && units[..|units|] == units
  {
    forall k | 0 <= k < |units| ensures UnitOf(g, symbols, units[k]) { assert units[k] in units; }
  }

  /**
   Chunk: it refuses what is not proper, searches on exactly where some search in some over-long unit does not end, and
   otherwise packs the pieces of the units.
   */
  method ChunkFile(c: Chunker, path: string, content: seq<Byte>, symbols: seq<Symbol>, budget: nat)
    returns (r: Outcome, ghost pieces: seq<Span>, ghost cuts: seq<nat>)
    ensures !Proper(Effective(c, path, content), symbols) ==> r.Failed?
    ensures var g := Effective(c, path, content);
      r == Searching <==> Proper(g, symbols) && SomeOverruns(g, symbols, budget)
    ensures var g := Effective(c, path, content);
      Proper(g, symbols) && r != Searching ==> ArePieces(g, symbols, budget, pieces) && PacksIfFit(g, pieces, r)
    ensures r.Chunks? ==> IsChunking(Effective(c, path, content), symbols, pieces, cuts, r.chunks)
  {
    pieces, cuts := [], [];
    if !Valid(content) {
      return Failed("chunk input must be UTF-8 text"), pieces, cuts;
    }
    var g := Effective(c, path, content);
    if g.minimum > g.maximum {
      return Failed("minimum chunk size exceeds maximum"), pieces, cuts;
    }
    var units := SymbolUnits(|content|, symbols);
    if units.None? {
      return Failed("invalid or overlapping symbol"), pieces, cuts;
    }
    OverrunsIff(g, symbols, units.value, budget);
    var split := SplitAll(g, units.value, budget);
    if split.None? {
      return Searching, pieces, cuts;
    }
    pieces := split.value;
    PiecesOfUnits(g, symbols, units.value, budget, pieces);
    if AllAligned(content, symbols) { UnitsAligned(content, symbols, units.value); }
    var packed;
    packed, cuts := Pack(g, split.value);
    if packed.None? {
      return Failed("unable to produce a bounded chunk"), pieces, cuts;
    }
    r := Chunks(packed.value);
  }

  // ---- Where the chunker succeeds ----

  /** Where all symbols and all stretches between them fit, no search is made and every piece fits. */
  lemma FittingUnits(g: Setting, symbols: seq<Symbol>, budget: nat, pieces: seq<Span>)
    requires AllUnitsFit(g, symbols)
    ensures !SomeOverruns(g, symbols, budget)
    ensures ArePieces(g, symbols, budget, pieces) ==> AllFit(g.content, g.maximum, g.counter, pieces)
  {
    if ArePieces(g, symbols, budget, pieces) {
      forall k | 0 <= k < |pieces| ensures UnitOf(g, symbols, pieces[k]) { assert pieces[k] in pieces; }
    }
  }

  /** On ASCII text the chunker always comes to an end, with any counter. */
  lemma AsciiNeverOverruns(g: Setting, symbols: seq<Symbol>, budget: nat)
    requires Ascii(g.content) && budget >= |g.content|
    ensures !SomeOverruns(g, symbols, budget)
  {
    forall u ensures !OverrunsIn(g, symbols, budget, u) {
      if UnitOf(g, symbols, u) { AsciiNeverStops(g.content, u.start, u.end, g.maximum, g.counter, budget); }
    }
  }

  /** And with a prefix-monotone counter, every piece fits or is a single byte. */
  lemma AsciiPiecesAreShort(g: Setting, symbols: seq<Symbol>, budget: nat, pieces: seq<Span>)
    requires Searchable(g.content, g.counter) && budget >= |g.content| && ArePieces(g, symbols, budget, pieces)
    ensures AllShort(g.content, g.maximum, g.counter, pieces)
    ensures Friendly(g.content, g.maximum, g.counter) ==> AllFit(g.content, g.maximum, g.counter, pieces)
  {
    forall k | 0 <= k < |pieces| ensures Short(g.content, g.maximum, g.counter, pieces[k]) {
      assert pieces[k] in pieces;
      var u :| PieceIn(g, symbols, budget, pieces[k], u);
      PieceIsShort(g.content, u, g.maximum, g.counter, budget, pieces[k]);
    }
    if Friendly(g.content, g.maximum, g.counter) { ShortFits(g.content, g.maximum, g.counter, pieces); }
  }

  lemma UnitsAligned(content: seq<Byte>, symbols: seq<Symbol>, units: seq<Span>)
    requires Tiles(units, 0, |content|) && Covers(|content|, units, symbols)
    requires AllAligned(content, symbols)
    ensures EndsAligned(content, units)
  {
    forall k | 0 <= k < |units| ensures Aligned(content, units[k].end) {
      assert units[k] in units;
    }
  }
}
