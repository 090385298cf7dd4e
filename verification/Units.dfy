/**
 symbolUnits of chunk.go: a file cut into its symbols and the gaps between them. The input may come in any order;
 sorting it and walking a cursor over it finds every overlap.
 */
module Units {
  import opened Wrappers
  import opened Order

  datatype Symbol = Symbol(name: string, start: int, end: int)
  /** A byteUnit: content[start..end], with the symbol it came from or "". */
  datatype Span = Span(start: nat, end: nat, symbol: string)

  /** Non-empty spans that follow each other without gap or overlap. */
  ghost predicate Tiles(spans: seq<Span>, from: int, to: int) {
    && (forall k :: 0 <= k < |spans| ==> from <= spans[k].start < spans[k].end <= to)
    && (forall k :: 0 <= k < |spans| - 1 ==> Adjacent(spans, k))
    && (if spans == [] then from == to else spans[0].start == from && spans[|spans| - 1].end == to)
  }

  ghost predicate Adjacent(spans: seq<Span>, k: int)
    requires 0 <= k < |spans| - 1
  {
    spans[k].end == spans[k + 1].start
  }

  lemma TilesAppend(a: seq<Span>, b: seq<Span>, from: int, mid: int, to: int)
    requires Tiles(a, from, mid) && Tiles(b, mid, to)
    ensures Tiles(a + b, from, to)
  {
    forall k | 0 <= k < |a + b| - 1 ensures Adjacent(a + b, k) {
      if k < |a| - 1 { assert Adjacent(a, k); }
      if k >= |a| { assert Adjacent(b, k - |a|); }
    }
  }

  lemma {:induction false} TilesOrdered(spans: seq<Span>, from: int, to: int, a: nat, b: nat)
    requires Tiles(spans, from, to) && a <= b < |spans|
    ensures spans[a].start <= spans[b].start && (a < b ==> spans[a].end <= spans[b].start)
    decreases b - a
  {
    if a == b {
    } else {
      TilesOrdered(spans, from, to, a, b - 1);
      assert Adjacent(spans, b - 1);
    }
  }

  predicate InRange(length: nat, s: Symbol) { 0 <= s.start < s.end <= length }

  predicate Apart(a: Symbol, b: Symbol) { a.end <= b.start || b.end <= a.start }

  /** Non-empty, in range, and pairwise disjoint; in any order. */
  ghost predicate Disjoint(length: nat, symbols: seq<Symbol>) {
    && (forall k :: 0 <= k < |symbols| ==> InRange(length, symbols[k]))
    && (forall k, l :: 0 <= k < l < |symbols| ==> Apart(symbols[k], symbols[l]))
  }

  predicate Before(a: Symbol, b: Symbol) { a.start < b.start }

  lemma DisjointPermuted(length: nat, a: seq<Symbol>, b: seq<Symbol>)
    requires multiset(a) == multiset(b) && Disjoint(length, a)
    ensures Disjoint(length, b)
  {
    var from := Rearrangement(a, b);
    forall k, l | 0 <= k < l < |b| ensures Apart(b[k], b[l]) {
      assert from[k] < from[l] || from[l] < from[k];
    }
  }

  /** Sorted and each behind the one before it: the form the loop over the sorted symbols accepts. */
  ghost predicate Laid(length: nat, sorted: seq<Symbol>, n: nat)
    requires n <= |sorted|
  {
    && (forall k :: 0 <= k < n ==> InRange(length, sorted[k]))
    && (forall k :: 0 < k < n ==> sorted[k - 1].end <= sorted[k].start)
  }

  lemma LaidIsDisjoint(length: nat, sorted: seq<Symbol>)
    requires Laid(length, sorted, |sorted|)
    ensures Disjoint(length, sorted)
  {
    forall k, l | 0 <= k < l < |sorted| ensures sorted[k].end <= sorted[l].start { LaidApart(length, sorted, k, l); }
  }

  lemma LaidApart(length: nat, sorted: seq<Symbol>, k: nat, l: nat)
    requires Laid(length, sorted, |sorted|) && k < l < |sorted|
    ensures sorted[k].end <= sorted[l].start
  {
    if k == l - 1 {
    } else {
      LaidApart(length, sorted, k, l - 1);
    }
  }

  lemma DisjointIsLaid(length: nat, sorted: seq<Symbol>, n: nat)
    requires SortedBy(sorted, Before) && Disjoint(length, sorted) && n <= |sorted|
    ensures Laid(length, sorted, n)
  {
    forall k | 0 < k < n ensures sorted[k - 1].end <= sorted[k].start {
      assert Apart(sorted[k - 1], sorted[k]) && !Before(sorted[k], sorted[k - 1]);
    }
  }

  function Cursor(sorted: seq<Symbol>, i: nat): int
    requires i <= |sorted|
  {
    if i == 0 then 0 else sorted[i - 1].end
  }

  /** The units are the symbols, each exactly, and unnamed gaps that meet no symbol and reach up to the next one. */
  ghost predicate Covers(length: nat, units: seq<Span>, symbols: seq<Symbol>) {
    && (forall s :: s in symbols ==> s.start >= 0 && s.end >= 0 && Span(s.start, s.end, s.name) in units)
    && (forall u :: u in units ==> IsSymbol(u, symbols) || IsGap(length, u, symbols))
  }

  ghost predicate IsSymbol(u: Span, symbols: seq<Symbol>) {
    Symbol(u.symbol, u.start, u.end) in symbols
  }

  ghost predicate IsGap(length: nat, u: Span, symbols: seq<Symbol>) {
    && u.symbol == "" && (forall s :: s in symbols ==> s.end <= u.start || u.end <= s.start)
    && (u.end == length || exists s :: s in symbols && s.start == u.end)
  }

  /** Succeeds exactly on disjoint symbols in range, whatever their order, and then tiles the file. */
  method SymbolUnits(length: nat, symbols: seq<Symbol>) returns (r: Option<seq<Span>>)
    ensures r.Some? <==> Disjoint(length, symbols)
    ensures r.Some? ==> Tiles(r.value, 0, length) && Covers(length, r.value, symbols)
  {
    var sorted := Sort(symbols, Before);
    var units: seq<Span> := [];
    var cursor := 0;
    for i := 0 to |sorted|
      invariant cursor == Cursor(sorted, i) && Placed(length, units, sorted, i)
    {
      var symbol := sorted[i];
      if symbol.start < cursor || symbol.start < 0 || symbol.end <= symbol.start || symbol.end > length {
        NotDisjoint(length, symbols, sorted, i);
        return None;
      }
      units := Place(length, units, cursor, sorted, i);
      cursor := symbol.end;
    }
    PlacedAll(length, units, sorted, symbols);
    if cursor < length {
      units := units + [Span(cursor, length, "")];
    }
    r := Some(units);
  }

  /** The gap before a symbol, if there is one, and the symbol. */
  method Place(length: nat, units: seq<Span>, cursor: nat, sorted: seq<Symbol>, i: nat) returns (r: seq<Span>)
    requires i < |sorted| && Placed(length, units, sorted, i) && cursor == Cursor(sorted, i)
    requires cursor <= sorted[i].start && InRange(length, sorted[i])
    ensures Placed(length, r, sorted, i + 1)
  {
    PlaceStep(length, units, sorted, i);
    var symbol := sorted[i];
    r := units;
    if symbol.start > cursor {
      r := r + [Span(cursor, symbol.start, "")];
    }
    r := r + [Span(symbol.start, symbol.end, symbol.name)];
    assert r == WithSymbol(units, cursor, symbol);
  }

  ghost predicate Placed(length: nat, units: seq<Span>, sorted: seq<Symbol>, i: nat)
    requires i <= |sorted|
  {
    Laid(length, sorted, i) && 0 <= Cursor(sorted, i) <= length && Tiles(units, 0, Cursor(sorted, i)) &&
      CoversFirst(length, units, sorted, i)
  }

  lemma PlaceStep(length: nat, units: seq<Span>, sorted: seq<Symbol>, i: nat)
    requires i < |sorted| && Placed(length, units, sorted, i) && Cursor(sorted, i) <= sorted[i].start
    requires InRange(length, sorted[i])
    ensures Placed(length, WithSymbol(units, Cursor(sorted, i), sorted[i]), sorted, i + 1)
  {
    CoverStep(length, units, sorted, i);
    TileStep(units, Cursor(sorted, i), sorted[i]);
    assert Laid(length, sorted, i + 1);
  }

  lemma TileStep(units: seq<Span>, cursor: nat, s: Symbol)
    requires Tiles(units, 0, cursor) && cursor <= s.start < s.end
    ensures Tiles(WithSymbol(units, cursor, s), 0, s.end)
  {
    if s.start > cursor {
      TilesAppend(units, [Span(cursor, s.start, "")], 0, cursor, s.start);
      TilesAppend(units + [Span(cursor, s.start, "")], [Span(s.start, s.end, s.name)], 0, s.start, s.end);
    } else {
      assert units + [] == units;
      TilesAppend(units, [Span(s.start, s.end, s.name)], 0, cursor, s.end);
    }
  }

  ghost function WithLastGap(units: seq<Span>, cursor: nat, length: nat): seq<Span> {
    if cursor < length then units + [Span(cursor, length, "")] else units
  }

  lemma PlacedAll(length: nat, units: seq<Span>, sorted: seq<Symbol>, symbols: seq<Symbol>)
    requires multiset(sorted) == multiset(symbols) && Placed(length, units, sorted, |sorted|)
    ensures Disjoint(length, symbols)
    ensures Tiles(WithLastGap(units, Cursor(sorted, |sorted|), length), 0, length)
    ensures Covers(length, WithLastGap(units, Cursor(sorted, |sorted|), length), symbols)
  {
    LaidIsDisjoint(length, sorted);
    DisjointPermuted(length, sorted, symbols);
    var cursor := Cursor(sorted, |sorted|);
    if cursor < length {
      LastGap(length, units, sorted);
      TilesAppend(units, [Span(cursor, length, "")], 0, cursor, length);
    }
    CoveredAll(length, WithLastGap(units, cursor, length), sorted, symbols);
  }

  /** After i sorted symbols: they are all there, and everything there is one of them or a gap before the cursor. */
  ghost predicate CoversFirst(length: nat, units: seq<Span>, sorted: seq<Symbol>, i: nat)
    requires i <= |sorted|
  {
    && (forall k :: 0 <= k < i ==>
      sorted[k].start >= 0 && sorted[k].end >= 0 && Span(sorted[k].start, sorted[k].end, sorted[k].name) in units)
    && (forall u :: u in units ==> Fits(length, u, sorted, i))
  }

  ghost predicate Fits(length: nat, u: Span, sorted: seq<Symbol>, i: nat)
    requires i <= |sorted|
  {
    u.end <= Cursor(sorted, i) && (IsSymbol(u, sorted) || GapBefore(length, u, sorted, i))
  }

  ghost predicate GapBefore(length: nat, u: Span, sorted: seq<Symbol>, i: nat)
    requires i <= |sorted|
  {
    && u.symbol == "" && (forall k :: 0 <= k < i ==> sorted[k].end <= u.start || u.end <= sorted[k].start)
    && (u.end == length || exists k :: 0 <= k < i && u.end == sorted[k].start)
  }

  lemma NotDisjoint(length: nat, symbols: seq<Symbol>, sorted: seq<Symbol>, i: nat)
    requires SortedBy(sorted, Before) && multiset(sorted) == multiset(symbols) && i < |sorted|
    requires sorted[i].start < Cursor(sorted, i) || !InRange(length, sorted[i])
    ensures !Disjoint(length, symbols)
  {
    if Disjoint(length, symbols) {
      DisjointPermuted(length, symbols, sorted);
      DisjointIsLaid(length, sorted, |sorted|);
      assert false;
    }
  }

  ghost function WithSymbol(units: seq<Span>, cursor: nat, s: Symbol): seq<Span>
    requires 0 <= s.start <= s.end
  {
    units + (if s.start > cursor then [Span(cursor, s.start, "")] else []) + [Span(s.start, s.end, s.name)]
  }

  lemma StillFits(length: nat, u: Span, sorted: seq<Symbol>, i: nat)
    requires i < |sorted| && Laid(length, sorted, i + 1) && Fits(length, u, sorted, i) && Cursor(sorted, i) >= 0
    ensures Fits(length, u, sorted, i + 1)
  {}

  lemma GapFits(length: nat, sorted: seq<Symbol>, i: nat)
    requires i < |sorted| && Laid(length, sorted, i + 1) && 0 <= Cursor(sorted, i) < sorted[i].start
    ensures Fits(length, Span(Cursor(sorted, i), sorted[i].start, ""), sorted, i + 1)
  {
    forall k | 0 <= k < i ensures sorted[k].end <= Cursor(sorted, i) { FirstEnds(length, sorted, i, k); }
  }

  lemma SymbolFits(length: nat, sorted: seq<Symbol>, i: nat)
    requires i < |sorted| && Laid(length, sorted, i + 1) && sorted[i].start >= 0
    ensures Fits(length, Span(sorted[i].start, sorted[i].end, sorted[i].name), sorted, i + 1)
  {
    assert Symbol(sorted[i].name, sorted[i].start, sorted[i].end) == sorted[i];
  }

  lemma CoverStep(length: nat, units: seq<Span>, sorted: seq<Symbol>, i: nat)
    requires i < |sorted| && Laid(length, sorted, i + 1) && CoversFirst(length, units, sorted, i)
    requires Cursor(sorted, i) >= 0
    ensures CoversFirst(length, WithSymbol(units, Cursor(sorted, i), sorted[i]), sorted, i + 1)
  {
    forall u | u in units ensures Fits(length, u, sorted, i + 1) { StillFits(length, u, sorted, i); }
    if Cursor(sorted, i) < sorted[i].start { GapFits(length, sorted, i); }
    SymbolFits(length, sorted, i);
  }

  lemma FirstEnds(length: nat, sorted: seq<Symbol>, i: nat, k: nat)
    requires k < i <= |sorted| && Laid(length, sorted, i)
    ensures sorted[k].end <= Cursor(sorted, i)
  {
    if k == i - 1 {
    } else {
      FirstEnds(length, sorted, i - 1, k);
    }
  }

  lemma LastGap(length: nat, units: seq<Span>, sorted: seq<Symbol>)
    requires Laid(length, sorted, |sorted|) && CoversFirst(length, units, sorted, |sorted|)
    requires 0 <= Cursor(sorted, |sorted|) < length
    ensures forall u :: u in units + [Span(Cursor(sorted, |sorted|), length, "")] ==>
      IsSymbol(u, sorted) || GapBefore(length, u, sorted, |sorted|)
  {
    forall k | 0 <= k < |sorted| ensures sorted[k].end <= Cursor(sorted, |sorted|) {
      FirstEnds(length, sorted, |sorted|, k);
    }
  }

  lemma CoveredAll(length: nat, units: seq<Span>, sorted: seq<Symbol>, symbols: seq<Symbol>)
    requires multiset(sorted) == multiset(symbols)
    requires forall k :: 0 <= k < |sorted| ==>
      sorted[k].start >= 0 && sorted[k].end >= 0 && Span(sorted[k].start, sorted[k].end, sorted[k].name) in units
    requires forall u :: u in units ==> IsSymbol(u, sorted) || GapBefore(length, u, sorted, |sorted|)
    ensures Covers(length, units, symbols)
  {
    forall s ensures s in symbols <==> s in sorted { assert s in multiset(symbols) <==> s in multiset(sorted); }
    forall u | u in units ensures IsSymbol(u, symbols) || IsGap(length, u, symbols) {
      if GapBefore(length, u, sorted, |sorted|) {
        assert forall k :: 0 <= k < |sorted| ==> sorted[k] in symbols;
        forall s | s in symbols ensures s.end <= u.start || u.end <= s.start {
          var k :| 0 <= k < |sorted| && sorted[k] == s;
        }
      }
    }
  }

  // ---- Which units there are ----

  /** A stretch between symbols that nothing can be added to. */
  ghost predicate IsWholeGap(length: nat, u: Span, symbols: seq<Symbol>) {
    && u.symbol == "" && u.start < u.end <= length
    && (forall s :: s in symbols ==> s.end <= u.start || u.end <= s.start)
    && (u.start == 0 || exists s :: s in symbols && s.end == u.start)
    && (u.end == length || exists s :: s in symbols && s.start == u.end)
  }

  ghost predicate IsUnit(length: nat, u: Span, symbols: seq<Symbol>) {
    IsSymbol(u, symbols) || IsWholeGap(length, u, symbols)
  }

  lemma {:induction false} TileAt(spans: seq<Span>, from: int, to: int, x: nat) returns (k: nat)
    requires Tiles(spans, from, to) && from <= x < to
    ensures k < |spans| && spans[k].start <= x < spans[k].end
  {
    k := 0;
    while spans[k].end <= x
      invariant k < |spans| && spans[k].start <= x
      decreases |spans| - k
    {
      assert k < |spans| - 1 ==> Adjacent(spans, k);
      k := k + 1;
    }
  }

  lemma SameTile(spans: seq<Span>, from: int, to: int, i: nat, j: nat)
    requires Tiles(spans, from, to) && i < |spans| && j < |spans| && spans[i].start == spans[j].start
    ensures i == j
  {
    if i < j {
      TilesOrdered(spans, from, to, i, j);
    } else if j < i {
      TilesOrdered(spans, from, to, j, i);
    }
  }

  lemma StartsSymbol(length: nat, units: seq<Span>, symbols: seq<Symbol>, k: nat, s: Symbol)
    requires Tiles(units, 0, length) && Covers(length, units, symbols) && k < |units|
    requires s in symbols && s.start == units[k].start
    ensures IsSymbol(units[k], symbols)
  {
    var j :| 0 <= j < |units| && units[j] == Span(s.start, s.end, s.name);
    SameTile(units, 0, length, j, k);
  }

  lemma GapIsWhole(length: nat, units: seq<Span>, symbols: seq<Symbol>, k: nat)
    requires Tiles(units, 0, length) && Covers(length, units, symbols) && k < |units|
    requires !IsSymbol(units[k], symbols)
    ensures IsWholeGap(length, units[k], symbols)
  {
    var u := units[k];
    assert u in units;
    if k > 0 {
      var before := units[k - 1];
      assert Adjacent(units, k - 1) && before in units;
      forall s | s in symbols ensures s.start != u.start {
        if s.start == u.start { StartsSymbol(length, units, symbols, k, s); }
      }
    }
  }

  /** A whole gap is the unit at its start. */
  lemma GapIsThere(length: nat, units: seq<Span>, symbols: seq<Symbol>, u: Span)
    requires Disjoint(length, symbols) && Tiles(units, 0, length) && Covers(length, units, symbols)
    requires IsWholeGap(length, u, symbols)
    ensures u in units
  {
    forall s | s in symbols ensures s.start < s.end {
      var i :| 0 <= i < |symbols| && symbols[i] == s;
      assert InRange(length, symbols[i]);
    }
    var k := TileAt(units, 0, length, u.start);
    var v := units[k];
    assert v in units;
    assert !IsSymbol(v, symbols);
    GapIsWhole(length, units, symbols, k);
    assert v.start == u.start && v.end == u.end;
  }

  /** The units are the symbols and the whole gaps between them. */
  lemma UnitsAre(length: nat, units: seq<Span>, symbols: seq<Symbol>, u: Span)
    requires Disjoint(length, symbols) && Tiles(units, 0, length) && Covers(length, units, symbols)
    ensures u in units <==> IsUnit(length, u, symbols)
  {
    if u in units {
      var k :| 0 <= k < |units| && units[k] == u;
      if !IsSymbol(u, symbols) { GapIsWhole(length, units, symbols, k); }
    } else if IsWholeGap(length, u, symbols) {
      GapIsThere(length, units, symbols, u);
    }
  }
}
