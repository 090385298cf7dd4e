/**
 The pull-request overlay (overlay.go): base symbols of changed files replaced by parsed head symbols, edges rewired
 along the symbols that survive by path, kind and name.
 */
module Overlay {
  import opened Wrappers
  import opened Order

  datatype Symbol = Symbol(id: int, path: string, kind: string, name: string, signature: string, startLine: int,
                           endLine: int)
  /** `target` is a symbol id or 0; `name` is the unresolved target or "". */
  datatype Edge = Edge(source: int, target: int, name: string, kind: string)
  datatype Snapshot = Snapshot(symbols: seq<Symbol>, edges: seq<Edge>)
  datatype ChangedFile = ChangedFile(path: string, blobSHA: string, content: string, deleted: bool)
  datatype Overlaid = Overlaid(graph: Snapshot, added: seq<Symbol>, removed: seq<Symbol>, modified: seq<Symbol>)
  datatype Parsed = Parsed(symbols: seq<Symbol>, edges: seq<Edge>)
  type HeadParser = ChangedFile -> Result<Parsed>

  const SEPARATOR: string := ['\0']

  function SymbolKey(s: Symbol): string {
    s.path + SEPARATOR + s.kind + SEPARATOR + s.name
  }

  // ---- What the input must look like ----

  predicate ValidChange(c: ChangedFile) {
    c.path != "" && (c.deleted || c.blobSHA != "")
  }

  ghost predicate ValidChanges(changes: seq<ChangedFile>) {
    && (forall i :: 0 <= i < |changes| ==> ValidChange(changes[i]))
    && (forall i, j :: 0 <= i < j < |changes| ==> changes[i].path != changes[j].path)
  }

  predicate ValidSymbol(c: ChangedFile, s: Symbol) {
    s.id > 0 && s.path == c.path && s.kind != "" && s.name != ""
  }

  ghost predicate ValidSymbols(c: ChangedFile, symbols: seq<Symbol>) {
    && (forall i :: 0 <= i < |symbols| ==> ValidSymbol(c, symbols[i]))
    && (forall i, j :: 0 <= i < j < |symbols| ==> symbols[i].id != symbols[j].id)
  }

  /**
   The id of the last of the symbols with this id once they are numbered downwards below `offset`; 0 if there is none.
   */
  function MappedId(symbols: seq<Symbol>, offset: nat, id: int): int {
    if symbols == [] then 0
    else if symbols[|symbols| - 1].id == id then -(offset + |symbols|)
    else MappedId(symbols[..|symbols| - 1], offset, id)
  }

  predicate ValidEdge(symbols: seq<Symbol>, e: Edge) {
    MappedId(symbols, 0, e.source) != 0 && (MappedId(symbols, 0, e.target) != 0 || e.target != 0 || e.name != "")
  }

  ghost predicate ValidParse(c: ChangedFile, p: Parsed) {
    ValidSymbols(c, p.symbols) && forall i :: 0 <= i < |p.edges| ==> ValidEdge(p.symbols, p.edges[i])
  }

  ghost predicate ParsesWell(parser: HeadParser, c: ChangedFile) {
    c.deleted || (parser(c).Success? && ValidParse(c, parser(c).value))
  }

  // ---- What the overlay is made of ----

  ghost function ChangedPaths(changes: seq<ChangedFile>): set<string> {
    set i | 0 <= i < |changes| :: changes[i].path
  }

  function Kept(symbols: seq<Symbol>, changed: set<string>): seq<Symbol> {
    if symbols == [] then []
    else
      var s := symbols[|symbols| - 1];
      Kept(symbols[..|symbols| - 1], changed) + if s.path in changed then [] else [s]
  }

  function RemovedIds(symbols: seq<Symbol>, changed: set<string>): set<int> {
    if symbols == [] then {}
    else
      var s := symbols[|symbols| - 1];
      RemovedIds(symbols[..|symbols| - 1], changed) + if s.path in changed then {s.id} else {}
  }

  /** The base symbols of changed files by key; of several with one key the last. */
  function ByKey(symbols: seq<Symbol>, changed: set<string>): map<string, Symbol> {
    if symbols == [] then map[]
    else
      var s := symbols[|symbols| - 1];
      var before := ByKey(symbols[..|symbols| - 1], changed);
      if s.path in changed then before[SymbolKey(s) := s] else before
  }

  function Renumber(symbols: seq<Symbol>, offset: nat): seq<Symbol> {
    seq(|symbols|, k requires 0 <= k < |symbols| => symbols[k].(id := -(offset + k + 1)))
  }

  function ParsedOf(parser: HeadParser, c: ChangedFile): Parsed {
    if c.deleted || parser(c).Failure? then Parsed([], []) else parser(c).value
  }

  /** All head symbols, numbered -1, -2, ... in the order they are parsed. */
  function Heads(parser: HeadParser, changes: seq<ChangedFile>): seq<Symbol> {
    if changes == [] then []
    else
      var before := Heads(parser, changes[..|changes| - 1]);
      before + Renumber(ParsedOf(parser, changes[|changes| - 1]).symbols, |before|)
  }

  function Remap(symbols: seq<Symbol>, offset: nat, e: Edge): Edge {
    var mapped := MappedId(symbols, offset, e.target);
    e.(source := MappedId(symbols, offset, e.source), target := if mapped != 0 then mapped else e.target)
  }

  function Remapped(symbols: seq<Symbol>, offset: nat, edges: seq<Edge>): seq<Edge> {
    seq(|edges|, k requires 0 <= k < |edges| => Remap(symbols, offset, edges[k]))
  }

  function HeadEdges(parser: HeadParser, changes: seq<ChangedFile>): seq<Edge> {
    if changes == [] then []
    else
      var init, last := changes[..|changes| - 1], ParsedOf(parser, changes[|changes| - 1]);
      HeadEdges(parser, init) + Remapped(last.symbols, |Heads(parser, init)|, last.edges)
  }

  function Keys(heads: seq<Symbol>): set<string> {
    if heads == [] then {} else Keys(heads[..|heads| - 1]) + {SymbolKey(heads[|heads| - 1])}
  }

  /** Which base id has become which head id: the symbols that survive by key. */
  function Replacements(byKey: map<string, Symbol>, heads: seq<Symbol>): map<int, int> {
    if heads == [] then map[]
    else
      var s, before := heads[|heads| - 1], Replacements(byKey, heads[..|heads| - 1]);
      if SymbolKey(s) in byKey then before[byKey[SymbolKey(s)].id := s.id] else before
  }

  function Added(byKey: map<string, Symbol>, heads: seq<Symbol>): seq<Symbol> {
    if heads == [] then []
    else
      var s := heads[|heads| - 1];
      Added(byKey, heads[..|heads| - 1]) + if SymbolKey(s) in byKey then [] else [s]
  }

  predicate Differs(was: Symbol, s: Symbol) {
    was.signature != s.signature || was.startLine != s.startLine || was.endLine != s.endLine
  }

  function Modified(byKey: map<string, Symbol>, heads: seq<Symbol>): seq<Symbol> {
    if heads == [] then []
    else
      var s := heads[|heads| - 1];
      Modified(byKey, heads[..|heads| - 1]) +
        if SymbolKey(s) in byKey && Differs(byKey[SymbolKey(s)], s) then [s] else []
  }

  /** The survive-or-replace map on an edge end. */
  function Survivor(removed: set<int>, replaced: map<int, int>, id: int): int {
    if id !in removed then id else if id in replaced then replaced[id] else 0
  }

  /** A base edge in the overlay: dropped when its source is gone, or its target is gone and has no name. */
  function Rewire(removed: set<int>, replaced: map<int, int>, e: Edge): seq<Edge> {
    var r := e.(source := Survivor(removed, replaced, e.source), target := Survivor(removed, replaced, e.target));
    if r.source != 0 && (r.target != 0 || r.name != "") then [r] else []
  }

  function Rewired(removed: set<int>, replaced: map<int, int>, edges: seq<Edge>): seq<Edge> {
    if edges == [] then []
    else Rewired(removed, replaced, edges[..|edges| - 1]) + Rewire(removed, replaced, edges[|edges| - 1])
  }

  // ---- BuildOverlay ----

  method CheckChanges(changes: seq<ChangedFile>) returns (r: Result<set<string>>)
    ensures r.Success? <==> ValidChanges(changes)
    ensures r.Success? ==> r.value == ChangedPaths(changes)
  {
    var changed: set<string> := {};
    for i := 0 to |changes|
      invariant changed == ChangedPaths(changes[..i]) && ValidChanges(changes[..i])
    {
      var c := changes[i];
      if c.path == "" || (!c.deleted && c.blobSHA == "") {
        return Failure("changed files require path and blob SHA");
      }
      if c.path in changed {
        var j :| 0 <= j < i && changes[..i][j].path == c.path;
        assert changes[j].path == changes[i].path;
        return Failure("duplicate changed path");
      }
      assert changes[..i + 1] == changes[..i] + [c];
      assert forall j :: 0 <= j < i ==> changes[..i][j].path in changed;
      changed := changed + {c.path};
    }
    assert changes[..|changes|] == changes;
    r := Success(changed);
  }

  method SplitBase(symbols: seq<Symbol>, changed: set<string>)
    returns (kept: seq<Symbol>, removed: set<int>, byKey: map<string, Symbol>)
    ensures kept == Kept(symbols, changed) && removed == RemovedIds(symbols, changed) &&
      byKey == ByKey(symbols, changed)
  {
    kept, removed, byKey := [], {}, map[];
    for i := 0 to |symbols|
      invariant kept == Kept(symbols[..i], changed) && removed == RemovedIds(symbols[..i], changed)
      invariant byKey == ByKey(symbols[..i], changed)
    {
      assert symbols[..i + 1][..i] == symbols[..i];
      if symbols[i].path in changed {
        removed := removed + {symbols[i].id};
        byKey := byKey[SymbolKey(symbols[i]) := symbols[i]];
        continue;
      }
      kept := kept + [symbols[i]];
    }
    assert symbols[..|symbols|] == symbols;
  }

  /** What the loop over the changed files accumulates: all of it is determined by the head symbols so far. */
  datatype Progress = Progress(heads: seq<Symbol>, edges: seq<Edge>, seen: set<string>, replaced: map<int, int>,
                               added: seq<Symbol>, modified: seq<Symbol>)

  ghost predicate Tracks(byKey: map<string, Symbol>, p: Progress) {
    && p.seen == Keys(p.heads) && p.replaced == Replacements(byKey, p.heads)
    && p.added == Added(byKey, p.heads) && p.modified == Modified(byKey, p.heads)
  }

  method TakeSymbol(byKey: map<string, Symbol>, p: Progress, symbol: Symbol) returns (r: Progress)
    requires Tracks(byKey, p)
    ensures Tracks(byKey, r) && r.edges == p.edges && r.heads == p.heads + [symbol.(id := -(|p.heads| + 1))]
  {
    var s := symbol.(id := -(|p.heads| + 1));
    var key := SymbolKey(s);
    r := p.(heads := p.heads + [s], seen := p.seen + {key});
    assert r.heads[..|r.heads| - 1] == p.heads;
    if key !in byKey {
      r := r.(added := r.added + [s]);
    } else {
      var was := byKey[key];
      r := r.(replaced := r.replaced[was.id := s.id]);
      if was.signature != s.signature || was.startLine != s.startLine || was.endLine != s.endLine {
        r := r.(modified := r.modified + [s]);
      }
    }
  }

  /** idMap, built while the symbols of a file are taken. */
  ghost predicate MapsIds(idMap: map<int, int>, symbols: seq<Symbol>, offset: nat) {
    forall id :: (if id in idMap then idMap[id] else 0) == MappedId(symbols, offset, id)
  }

  /** The first i symbols of the file have been taken. */
  ghost predicate Taking(byKey: map<string, Symbol>, before: Progress, c: ChangedFile, symbols: seq<Symbol>, i: nat,
                         p: Progress, idMap: map<int, int>) {
    && i <= |symbols| && Tracks(byKey, p) && p.edges == before.edges && ValidSymbols(c, symbols[..i])
    && p.heads == before.heads + Renumber(symbols[..i], |before.heads|)
    && MapsIds(idMap, symbols[..i], |before.heads|)
  }

  lemma MapNext(idMap: map<int, int>, symbols: seq<Symbol>, i: nat, offset: nat)
    requires i < |symbols| && MapsIds(idMap, symbols[..i], offset)
    ensures MapsIds(idMap[symbols[i].id := -(offset + i + 1)], symbols[..i + 1], offset)
  {
    assert symbols[..i + 1][..i] == symbols[..i];
  }

  lemma TakingNext(byKey: map<string, Symbol>, before: Progress, c: ChangedFile, symbols: seq<Symbol>, i: nat,
                   p: Progress, idMap: map<int, int>, next: Progress)
    requires Taking(byKey, before, c, symbols, i, p, idMap) && i < |symbols|
    requires ValidSymbol(c, symbols[i]) && MappedId(symbols[..i], |before.heads|, symbols[i].id) == 0
    requires Tracks(byKey, next) && next.edges == p.edges
    requires next.heads == p.heads + [symbols[i].(id := -(|p.heads| + 1))]
    ensures Taking(byKey, before, c, symbols, i + 1, next, idMap[symbols[i].id := -(|before.heads| + i + 1)])
  {
    GoodSymbol(c, symbols, i, |before.heads|);
    MapNext(idMap, symbols, i, |before.heads|);
  }

  method TakeSymbols(byKey: map<string, Symbol>, before: Progress, c: ChangedFile, symbols: seq<Symbol>)
    returns (r: Result<Progress>, idMap: map<int, int>)
    requires Tracks(byKey, before)
    ensures r.Success? <==> ValidSymbols(c, symbols)
    ensures r.Success? ==> Tracks(byKey, r.value) && r.value.edges == before.edges
    ensures r.Success? ==>
      r.value.heads == before.heads + Renumber(symbols, |before.heads|) && MapsIds(idMap, symbols, |before.heads|)
  {
    var p := before;
    idMap := map[];
    for i := 0 to |symbols|
      invariant Taking(byKey, before, c, symbols, i, p, idMap)
    {
      var symbol := symbols[i];
      if symbol.id <= 0 || symbol.path != c.path || symbol.kind == "" || symbol.name == ""
         || (symbol.id in idMap && idMap[symbol.id] != 0) {
        BadSymbol(c, symbols, i, |before.heads|);
        return Failure("overlay parser returned an invalid or duplicate symbol"), idMap;
      }
      var next := TakeSymbol(byKey, p, symbol);
      TakingNext(byKey, before, c, symbols, i, p, idMap, next);
      p, idMap := next, idMap[symbol.id := -(|before.heads| + i + 1)];
    }
    assert symbols[..|symbols|] == symbols;
    r := Success(p);
  }

  lemma {:induction false} MappedIff(symbols: seq<Symbol>, offset: nat, id: int)
    ensures MappedId(symbols, offset, id) != 0 <==> exists j :: 0 <= j < |symbols| && symbols[j].id == id
    ensures MappedId(symbols, offset, id) != 0 ==>
      -(offset + |symbols|) <= MappedId(symbols, offset, id) < 0 - offset &&
        symbols[-MappedId(symbols, offset, id) - offset - 1].id == id
  {
    if symbols == [] {
    } else {
      MappedIff(symbols[..|symbols| - 1], offset, id);
    }
  }

  lemma {:induction false} BadSymbol(c: ChangedFile, symbols: seq<Symbol>, i: nat, offset: nat)
    requires i < |symbols| && (!ValidSymbol(c, symbols[i]) || MappedId(symbols[..i], offset, symbols[i].id) != 0)
    ensures !ValidSymbols(c, symbols)
  {
    MappedIff(symbols[..i], offset, symbols[i].id);
    if j :| 0 <= j < i && symbols[..i][j].id == symbols[i].id { assert symbols[j].id == symbols[i].id; }
  }

  lemma {:induction false} GoodSymbol(c: ChangedFile, symbols: seq<Symbol>, i: nat, offset: nat)
    requires i < |symbols| && ValidSymbols(c, symbols[..i]) && ValidSymbol(c, symbols[i])
    requires MappedId(symbols[..i], offset, symbols[i].id) == 0
    ensures ValidSymbols(c, symbols[..i + 1]) && symbols[..i + 1][..i] == symbols[..i]
    ensures Renumber(symbols[..i + 1], offset) ==
      Renumber(symbols[..i], offset) + [symbols[i].(id := -(offset + i + 1))]
  {
    MappedIff(symbols[..i], offset, symbols[i].id);
    assert symbols[..i + 1] == symbols[..i] + [symbols[i]];
  }

  method TakeEdges(symbols: seq<Symbol>, offset: nat, idMap: map<int, int>, edges: seq<Edge>)
    returns (r: Result<seq<Edge>>)
    requires MapsIds(idMap, symbols, offset)
    ensures r.Success? <==> forall i :: 0 <= i < |edges| ==> ValidEdge(symbols, edges[i])
    ensures r.Success? ==> r.value == Remapped(symbols, offset, edges)
  {
    var taken: seq<Edge> := [];
    for i := 0 to |edges|
      invariant taken == Remapped(symbols, offset, edges[..i])
      invariant forall k :: 0 <= k < i ==> ValidEdge(symbols, edges[k])
    {
      var edge := edges[i];
      MappedIff(symbols, 0, edge.source);
      MappedIff(symbols, offset, edge.source);
      MappedIff(symbols, 0, edge.target);
      MappedIff(symbols, offset, edge.target);
      var source := if edge.source in idMap then idMap[edge.source] else 0;
      if source == 0 {
        return Failure("overlay edge has an unknown source symbol");
      }
      var mapped := if edge.target in idMap then idMap[edge.target] else 0;
      var target := if mapped != 0 then mapped else edge.target;
      if target == 0 && edge.name == "" {
        return Failure("overlay edge requires a resolved or unresolved target");
      }
      taken := taken + [edge.(source := source, target := target)];
      assert edges[..i + 1] == edges[..i] + [edge];
    }
    assert edges[..|edges|] == edges;
    r := Success(taken);
  }

  /** One changed file: parsed, checked, numbered and appended. */
  method TakeFile(parser: HeadParser, byKey: map<string, Symbol>, before: Progress, c: ChangedFile)
    returns (r: Result<Progress>)
    requires Tracks(byKey, before)
    ensures r.Success? <==> ParsesWell(parser, c)
    ensures r.Success? ==> Tracks(byKey, r.value)
    ensures r.Success? ==>
      && r.value.heads == before.heads + Renumber(ParsedOf(parser, c).symbols, |before.heads|)
      && r.value.edges ==
        before.edges + Remapped(ParsedOf(parser, c).symbols, |before.heads|, ParsedOf(parser, c).edges)
  {
    if c.deleted {
      return Success(before);
    }
    var parsed := parser(c);
    if parsed.Failure? {
      return Failure("parse graph overlay");
    }
    var symbols, idMap := TakeSymbols(byKey, before, c, parsed.value.symbols);
    if symbols.Failure? {
      return symbols;
    }
    var edges := TakeEdges(parsed.value.symbols, |before.heads|, idMap, parsed.value.edges);
    if edges.Failure? {
      return Failure(edges.reason);
    }
    r := Success(symbols.value.(edges := before.edges + edges.value));
  }

  method TakeFiles(parser: HeadParser, byKey: map<string, Symbol>, changes: seq<ChangedFile>)
    returns (r: Result<Progress>)
    ensures r.Success? <==> forall i :: 0 <= i < |changes| ==> ParsesWell(parser, changes[i])
    ensures r.Success? ==>
      Tracks(byKey, r.value) && r.value.heads == Heads(parser, changes) && r.value.edges == HeadEdges(parser, changes)
  {
    var p := Progress([], [], {}, map[], [], []);
    for i := 0 to |changes|
      invariant Tracks(byKey, p) && p.heads == Heads(parser, changes[..i]) && p.edges == HeadEdges(parser, changes[..i])
      invariant forall k :: 0 <= k < i ==> ParsesWell(parser, changes[k])
    {
      assert changes[..i + 1][..i] == changes[..i];
      var next := TakeFile(parser, byKey, p, changes[i]);
      if next.Failure? {
        return next;
      }
      p := next.value;
    }
    assert changes[..|changes|] == changes;
    r := Success(p);
  }

  method RewireEdges(removed: set<int>, replaced: map<int, int>, edges: seq<Edge>) returns (r: seq<Edge>)
    ensures r == Rewired(removed, replaced, edges)
  {
    r := [];
    for i := 0 to |edges|
      invariant r == Rewired(removed, replaced, edges[..i])
    {
      assert edges[..i + 1][..i] == edges[..i];
      var edge := edges[i];
      if edge.source in removed {
        edge := edge.(source := if edge.source in replaced then replaced[edge.source] else 0);
      }
      if edge.target in removed {
        edge := edge.(target := if edge.target in replaced then replaced[edge.target] else 0);
      }
      if edge.source != 0 && (edge.target != 0 || edge.name != "") {
        r := r + [edge];
      }
    }
    assert edges[..|edges|] == edges;
  }

  /** The base symbols whose key no head symbol has, each once. */
  ghost predicate IsRemoved(byKey: map<string, Symbol>, seen: set<string>, removed: seq<Symbol>) {
    && (forall s :: s in removed <==> exists k :: k in byKey && k !in seen && byKey[k] == s)
    && (forall i, j :: 0 <= i < j < |removed| ==> removed[i] != removed[j])
  }

  predicate KeyLess(a: Symbol, b: Symbol) { StrLess(SymbolKey(a), SymbolKey(b)) }

  method SortSymbols(symbols: seq<Symbol>) returns (r: seq<Symbol>)
    ensures SortedBy(r, KeyLess) && multiset(r) == multiset(symbols)
  {
    StrLessIsTotal();
    r := Sort(symbols, KeyLess);
  }

  /** Ranging over baseByKey, in any order. */
  method ListRemoved(byKey: map<string, Symbol>, seen: set<string>) returns (removed: seq<Symbol>)
    requires forall k :: k in byKey ==> SymbolKey(byKey[k]) == k
    ensures IsRemoved(byKey, seen, removed)
  {
    removed := [];
    var rest := byKey.Keys;
    while rest != {}
      invariant rest <= byKey.Keys && IsRemoved(byKey, seen + rest, removed)
    {
      var key :| key in rest;
      if key !in seen {
        MeetRemoved(byKey, seen + rest, removed, key);
        assert seen + (rest - {key}) == (seen + rest) - {key};
        removed := removed + [byKey[key]];
      } else {
        assert seen + (rest - {key}) == seen + rest;
      }
      rest := rest - {key};
    }
    assert seen + rest == seen;
  }

  lemma MeetRemoved(byKey: map<string, Symbol>, hidden: set<string>, removed: seq<Symbol>, key: string)
    requires forall k :: k in byKey ==> SymbolKey(byKey[k]) == k
    requires key in byKey && key in hidden && IsRemoved(byKey, hidden, removed)
    ensures IsRemoved(byKey, hidden - {key}, removed + [byKey[key]])
  {
    var next := removed + [byKey[key]];
    assert byKey[key] !in removed;
    forall s ensures s in next <==> exists k :: k in byKey && k !in hidden - {key} && byKey[k] == s {
      if s in removed {
        var k :| k in byKey && k !in hidden && byKey[k] == s;
        assert k !in hidden - {key};
      }
    }
  }

  lemma {:induction false} ByKeyKeys(symbols: seq<Symbol>, changed: set<string>)
    ensures forall k :: k in ByKey(symbols, changed) ==>
      SymbolKey(ByKey(symbols, changed)[k]) == k && ByKey(symbols, changed)[k] in Changed(symbols, changed)
    ensures forall k :: k in ByKey(symbols, changed) <==>
      exists s :: s in Changed(symbols, changed) && SymbolKey(s) == k
  {
    if symbols == [] {
    } else {
      var init, s := symbols[..|symbols| - 1], symbols[|symbols| - 1];
      ByKeyKeys(init, changed);
      assert Changed(symbols, changed) == Changed(init, changed) + if s.path in changed then {s} else {};
    }
  }

  /** The base symbols of changed files. */
  ghost function Changed(symbols: seq<Symbol>, changed: set<string>): set<Symbol> {
    set s | s in symbols && s.path in changed
  }

  /** The overlay a valid input has. */
  ghost predicate IsOverlay(base: Snapshot, changes: seq<ChangedFile>, parser: HeadParser, o: Overlaid) {
    var changed := ChangedPaths(changes);
    var byKey, heads := ByKey(base.symbols, changed), Heads(parser, changes);
    && o.graph.symbols == Kept(base.symbols, changed) + heads
    && o.graph.edges ==
      HeadEdges(parser, changes) + Rewired(RemovedIds(base.symbols, changed), Replacements(byKey, heads), base.edges)
    && SortedBy(o.added, KeyLess) && multiset(o.added) == multiset(Added(byKey, heads))
    && SortedBy(o.modified, KeyLess) && multiset(o.modified) == multiset(Modified(byKey, heads))
    && SortedBy(o.removed, KeyLess) && IsRemoved(byKey, Keys(heads), o.removed)
  }

  /** BuildOverlay refuses exactly the invalid inputs. */
  method BuildOverlay(base: Snapshot, changes: seq<ChangedFile>, parser: Option<HeadParser>)
    returns (r: Result<Overlaid>)
    ensures r.Success? <==>
      parser.Some? && ValidChanges(changes) && forall i :: 0 <= i < |changes| ==> ParsesWell(parser.value, changes[i])
    ensures r.Success? ==> IsOverlay(base, changes, parser.value, r.value)
  {
    if parser.None? {
      return Failure("head graph parser is required");
    }
    var changed := CheckChanges(changes);
    if changed.Failure? {
      return Failure(changed.reason);
    }
    var kept, removedIds, byKey := SplitBase(base.symbols, changed.value);
    var head := TakeFiles(parser.value, byKey, changes);
    if head.Failure? {
      return Failure(head.reason);
    }
    var p := head.value;
    var rewired := RewireEdges(removedIds, p.replaced, base.edges);
    ByKeyKeys(base.symbols, changed.value);
    var gone := ListRemoved(byKey, p.seen);
    var added := SortSymbols(p.added);
    var removed := SortSymbols(gone);
    var modified := SortSymbols(p.modified);
    DistinctMultiset(gone, removed);
    r := Success(Overlaid(Snapshot(kept + p.heads, p.edges + rewired), added, removed, modified));
  }
}
