/** What a reader of an overlay may rely on: a closed graph, fresh ids, surviving edges and an exact delta. */
module OverlayTheorems {
  import opened Wrappers
  import opened Order
  import opened Loops
  import opened JoinedKeys
  import opened Overlay

  ghost predicate HasId(symbols: seq<Symbol>, id: int) {
    exists k :: 0 <= k < |symbols| && symbols[k].id == id
  }

  ghost predicate EndsIn(symbols: seq<Symbol>, e: Edge) {
    HasId(symbols, e.source) && (HasId(symbols, e.target) || (e.target == 0 && e.name != ""))
  }

  /** Every edge starts at a symbol, and ends at one or at an unresolved name. */
  ghost predicate Closed(g: Snapshot) {
    forall e :: e in g.edges ==> EndsIn(g.symbols, e)
  }

  ghost predicate DistinctIds(symbols: seq<Symbol>) {
    forall i, j :: 0 <= i < j < |symbols| ==> symbols[i].id != symbols[j].id
  }

  ghost predicate WellFormedBase(base: Snapshot) {
    DistinctIds(base.symbols) && (forall k :: 0 <= k < |base.symbols| ==> base.symbols[k].id > 0) && Closed(base)
  }

  ghost predicate AllParse(parser: HeadParser, changes: seq<ChangedFile>) {
    forall i :: 0 <= i < |changes| ==> ParsesWell(parser, changes[i])
  }

  /** The target is a symbol of the same file, a base symbol of an unchanged file, a new number, or open. */
  ghost predicate TargetLands(base: Snapshot, changed: set<string>, count: nat, p: Parsed, e: Edge) {
    MappedId(p.symbols, 0, e.target) != 0 || e.target == 0 || HasId(Kept(base.symbols, changed), e.target)
    || 0 - count <= e.target < 0
  }

  ghost predicate TargetsLand(base: Snapshot, changed: set<string>, count: nat, p: Parsed) {
    forall e :: e in p.edges ==> TargetLands(base, changed, count, p, e)
  }

  // ---- Kept and new symbols ----

  lemma {:induction false} KeptIsFilter(symbols: seq<Symbol>, changed: set<string>)
    ensures forall s :: s in Kept(symbols, changed) <==> s in symbols && s.path !in changed
    ensures forall id :: id in RemovedIds(symbols, changed) <==>
      exists s :: s in symbols && s.path in changed && s.id == id
  {
    if symbols == [] {
    } else {
      var init, last := symbols[..|symbols| - 1], symbols[|symbols| - 1];
      KeptIsFilter(init, changed);
      assert forall s :: s in symbols <==> s in init || s == last;
    }
  }

  lemma {:induction false} KeptDistinct(symbols: seq<Symbol>, changed: set<string>)
    requires DistinctIds(symbols)
    ensures DistinctIds(Kept(symbols, changed))
  {
    if symbols == [] {
    } else {
      var init := symbols[..|symbols| - 1];
      KeptDistinct(init, changed);
      KeptIsFilter(init, changed);
      var kept := Kept(init, changed);
      forall k | 0 <= k < |kept| ensures kept[k].id != symbols[|symbols| - 1].id {
        assert kept[k] in init;
      }
    }
  }

  lemma {:induction false} HeadIds(parser: HeadParser, changes: seq<ChangedFile>)
    ensures forall k :: 0 <= k < |Heads(parser, changes)| ==> Heads(parser, changes)[k].id == -(k + 1)
  {
    if changes == [] {
    } else {
      HeadIds(parser, changes[..|changes| - 1]);
    }
  }

  /** All ids are pairwise distinct; kept symbols keep their positive ids, new ones have negative ids. */
  lemma {:induction false} OverlayIdsDistinct(base: Snapshot, changes: seq<ChangedFile>, parser: HeadParser,
                                              o: Overlaid)
    requires IsOverlay(base, changes, parser, o) && WellFormedBase(base)
    ensures DistinctIds(o.graph.symbols)
    ensures forall s :: s in o.graph.symbols ==>
      (s.id > 0 <==> s in base.symbols) && (s.id < 0 <==> s in Heads(parser, changes))
  {
    var changed := ChangedPaths(changes);
    KeptDistinct(base.symbols, changed);
    KeptIsFilter(base.symbols, changed);
    HeadIds(parser, changes);
    var kept := Kept(base.symbols, changed);
    forall k | 0 <= k < |kept| ensures kept[k].id > 0 { assert kept[k] in base.symbols; }
  }

  // ---- The graph is closed ----

  ghost predicate HeadEdgeOk(base: Snapshot, changed: set<string>, count: nat, e: Edge) {
    && 0 - count <= e.source < 0
    && (0 - count <= e.target < 0 || HasId(Kept(base.symbols, changed), e.target) || (e.target == 0 && e.name != ""))
  }

  lemma RemapOk(base: Snapshot, changed: set<string>, p: Parsed, offset: nat, count: nat, e: Edge)
    requires ValidEdge(p.symbols, e) && offset + |p.symbols| <= count
    ensures HeadEdgeOk(base, changed, count, Remap(p.symbols, offset, e)) <==> TargetLands(base, changed, count, p, e)
  {
    MappedIff(p.symbols, 0, e.source);
    MappedIff(p.symbols, offset, e.source);
    MappedIff(p.symbols, 0, e.target);
    MappedIff(p.symbols, offset, e.target);
  }

  ghost predicate HeadEdgesOk(base: Snapshot, changed: set<string>, count: nat, edges: seq<Edge>) {
    forall e :: e in edges ==> HeadEdgeOk(base, changed, count, e)
  }

  lemma {:induction false} RemappedOk(base: Snapshot, changed: set<string>, p: Parsed, offset: nat, count: nat)
    requires offset + |p.symbols| <= count && forall i :: 0 <= i < |p.edges| ==> ValidEdge(p.symbols, p.edges[i])
    ensures HeadEdgesOk(base, changed, count, Remapped(p.symbols, offset, p.edges)) <==>
      TargetsLand(base, changed, count, p)
  {
    var remapped := Remapped(p.symbols, offset, p.edges);
    forall k | 0 <= k < |p.edges|
      ensures HeadEdgeOk(base, changed, count, remapped[k]) <==> TargetLands(base, changed, count, p, p.edges[k])
    {
      RemapOk(base, changed, p, offset, count, p.edges[k]);
    }
    if HeadEdgesOk(base, changed, count, remapped) {
      forall e | e in p.edges ensures TargetLands(base, changed, count, p, e) {
        var k :| 0 <= k < |p.edges| && p.edges[k] == e;
        assert remapped[k] in remapped;
      }
    }
  }

  ghost predicate AllLand(base: Snapshot, changed: set<string>, count: nat, parser: HeadParser,
                          changes: seq<ChangedFile>) {
    forall i :: 0 <= i < |changes| ==> TargetsLand(base, changed, count, ParsedOf(parser, changes[i]))
  }

  lemma {:induction false} AllLandNext(base: Snapshot, changed: set<string>, count: nat, parser: HeadParser,
                                       changes: seq<ChangedFile>)
    requires changes != []
    ensures AllLand(base, changed, count, parser, changes) <==>
      AllLand(base, changed, count, parser, changes[..|changes| - 1]) &&
      TargetsLand(base, changed, count, ParsedOf(parser, changes[|changes| - 1]))
  {
    var init := changes[..|changes| - 1];
    forall i | 0 <= i < |init| ensures init[i] == changes[i] {}
  }

  lemma {:induction false} HeadEdgesOkIff(base: Snapshot, changed: set<string>, count: nat, parser: HeadParser,
                                          changes: seq<ChangedFile>)
    requires AllParse(parser, changes) && |Heads(parser, changes)| <= count
    ensures HeadEdgesOk(base, changed, count, HeadEdges(parser, changes)) <==>
      AllLand(base, changed, count, parser, changes)
    decreases |changes|
  {
    if changes == [] {
    } else {
      var init, last := changes[..|changes| - 1], changes[|changes| - 1];
      var p, offset := ParsedOf(parser, last), |Heads(parser, init)|;
      HeadEdgesOkIff(base, changed, count, parser, init);
      assert ParsesWell(parser, last);
      RemappedOk(base, changed, p, offset, count);
      AllLandNext(base, changed, count, parser, changes);
      assert HeadEdges(parser, changes) == HeadEdges(parser, init) + Remapped(p.symbols, offset, p.edges);
    }
  }

  lemma {:induction false} ReplacedByHeads(byKey: map<string, Symbol>, heads: seq<Symbol>)
    ensures forall id :: id in Replacements(byKey, heads) ==> HasId(heads, Replacements(byKey, heads)[id])
  {
    if heads == [] {
    } else {
      var init := heads[..|heads| - 1];
      ReplacedByHeads(byKey, init);
      assert heads[|heads| - 1].id == heads[|heads| - 1].id;
      forall id | HasId(init, id) ensures HasId(heads, id) {
        var k :| 0 <= k < |init| && init[k].id == id;
        assert heads[k].id == id;
      }
      assert HasId(heads, heads[|heads| - 1].id);
    }
  }

  lemma {:induction false} RewiredFrom(removed: set<int>, replaced: map<int, int>, edges: seq<Edge>)
    ensures forall r :: r in Rewired(removed, replaced, edges) <==>
      exists e :: e in edges && Rewire(removed, replaced, e) == [r]
  {
    if edges == [] {
    } else {
      RewiredFrom(removed, replaced, edges[..|edges| - 1]);
    }
  }

  lemma HasIdLeft(a: seq<Symbol>, b: seq<Symbol>, id: int)
    requires HasId(a, id) || HasId(b, id)
    ensures HasId(a + b, id)
  {
    if HasId(a, id) {
      var k :| 0 <= k < |a| && a[k].id == id;
      assert (a + b)[k].id == id;
    } else {
      var k :| 0 <= k < |b| && b[k].id == id;
      assert (a + b)[|a| + k].id == id;
    }
  }

  /** A base symbol id survives in the overlay as itself or as the head symbol that replaced it, or it becomes 0. */
  lemma {:induction false} SurvivorInOverlay(base: Snapshot, changed: set<string>, heads: seq<Symbol>, id: int)
    requires HasId(base.symbols, id)
    ensures var s := Survivor(RemovedIds(base.symbols, changed), Replacements(ByKey(base.symbols, changed), heads), id);
      s == 0 || HasId(Kept(base.symbols, changed) + heads, s)
  {
    KeptIsFilter(base.symbols, changed);
    ReplacedByHeads(ByKey(base.symbols, changed), heads);
    var k :| 0 <= k < |base.symbols| && base.symbols[k].id == id;
    var kept := Kept(base.symbols, changed);
    if id !in RemovedIds(base.symbols, changed) {
      assert base.symbols[k] in kept;
      var j :| 0 <= j < |kept| && kept[j] == base.symbols[k];
      HasIdLeft(kept, heads, id);
    } else if id in Replacements(ByKey(base.symbols, changed), heads) {
      HasIdLeft(kept, heads, Replacements(ByKey(base.symbols, changed), heads)[id]);
    }
  }

  lemma HeadIdPresent(heads: seq<Symbol>, id: int)
    requires (forall k :: 0 <= k < |heads| ==> heads[k].id == -(k + 1)) && -|heads| <= id < 0
    ensures HasId(heads, id)
  {
    assert heads[-id - 1].id == id;
  }

  /**
   Over a well-formed base, every edge of the overlay starts in it and ends in it or at an unresolved name, if and only
   if all targets of the parser land: BuildOverlay passes an id through that it does not know.
   */
  lemma {:induction false} OverlayClosedIff(base: Snapshot, changes: seq<ChangedFile>, parser: HeadParser, o: Overlaid)
    requires IsOverlay(base, changes, parser, o) && WellFormedBase(base) && AllParse(parser, changes)
    ensures Closed(o.graph) <==> AllLand(base, ChangedPaths(changes), |Heads(parser, changes)|, parser, changes)
  {
    var changed, heads := ChangedPaths(changes), Heads(parser, changes);
    HeadIds(parser, changes);
    HeadEdgesOkIff(base, changed, |heads|, parser, changes);
    forall e | e in HeadEdges(parser, changes)
      ensures EndsIn(o.graph.symbols, e) <==> HeadEdgeOk(base, changed, |heads|, e)
    {
      HeadEdgeSource(parser, changes, e);
      HeadEdgeCloses(base, changed, heads, e);
    }
    RewiredFrom(RemovedIds(base.symbols, changed), Replacements(ByKey(base.symbols, changed), heads), base.edges);
    forall e | e in o.graph.edges && e !in HeadEdges(parser, changes) ensures EndsIn(o.graph.symbols, e) {
      var b :| b in base.edges &&
        Rewire(RemovedIds(base.symbols, changed), Replacements(ByKey(base.symbols, changed), heads), b) == [e];
      BaseEdgeCloses(base, changed, heads, b, e);
    }
  }

  /** Edges of the head parser start at head symbols. */
  lemma {:induction false} HeadEdgeSource(parser: HeadParser, changes: seq<ChangedFile>, e: Edge)
    requires AllParse(parser, changes) && e in HeadEdges(parser, changes)
    ensures -|Heads(parser, changes)| <= e.source < 0
    decreases |changes|
  {
    var init, last := changes[..|changes| - 1], changes[|changes| - 1];
    var p, offset := ParsedOf(parser, last), |Heads(parser, init)|;
    if e in HeadEdges(parser, init) {
      HeadEdgeSource(parser, init, e);
    } else {
      assert ParsesWell(parser, last);
      var k :| 0 <= k < |p.edges| && e == Remap(p.symbols, offset, p.edges[k]);
      MappedIff(p.symbols, 0, p.edges[k].source);
      MappedIff(p.symbols, offset, p.edges[k].source);
    }
  }

  lemma HasIdOf(a: seq<Symbol>, b: seq<Symbol>, id: int)
    ensures HasId(a + b, id) <==> HasId(a, id) || HasId(b, id)
  {
    if HasId(a, id) || HasId(b, id) { HasIdLeft(a, b, id); }
    if k :| 0 <= k < |a + b| && (a + b)[k].id == id {
      if k < |a| { assert a[k].id == id; } else { assert b[k - |a|].id == id; }
    }
  }

  lemma {:induction false} HeadEdgeCloses(base: Snapshot, changed: set<string>, heads: seq<Symbol>, e: Edge)
    requires -|heads| <= e.source < 0 && forall k :: 0 <= k < |heads| ==> heads[k].id == -(k + 1)
    ensures EndsIn(Kept(base.symbols, changed) + heads, e) <==> HeadEdgeOk(base, changed, |heads|, e)
  {
    var kept := Kept(base.symbols, changed);
    HeadIdPresent(heads, e.source);
    HasIdOf(kept, heads, e.source);
    HasIdOf(kept, heads, e.target);
    if -|heads| <= e.target < 0 { HeadIdPresent(heads, e.target); }
  }

  lemma {:induction false} RemovedAreSymbols(symbols: seq<Symbol>, changed: set<string>)
    ensures forall id :: id in RemovedIds(symbols, changed) ==> HasId(symbols, id)
  {
    KeptIsFilter(symbols, changed);
    forall id | id in RemovedIds(symbols, changed) ensures HasId(symbols, id) {
      var s :| s in symbols && s.path in changed && s.id == id;
      var k :| 0 <= k < |symbols| && symbols[k] == s;
    }
  }

  lemma {:induction false} BaseEdgeCloses(base: Snapshot, changed: set<string>, heads: seq<Symbol>, e: Edge, r: Edge)
    requires Closed(base) && e in base.edges
    requires Rewire(RemovedIds(base.symbols, changed), Replacements(ByKey(base.symbols, changed), heads), e) == [r]
    ensures EndsIn(Kept(base.symbols, changed) + heads, r)
  {
    assert EndsIn(base.symbols, e);
    SurvivorInOverlay(base, changed, heads, e.source);
    RemovedAreSymbols(base.symbols, changed);
    if HasId(base.symbols, e.target) { SurvivorInOverlay(base, changed, heads, e.target); }
  }

  // ---- Survival by key ----

  ghost predicate UniqueKeys(symbols: seq<Symbol>) {
    forall i, j :: 0 <= i < j < |symbols| ==> SymbolKey(symbols[i]) != SymbolKey(symbols[j])
  }

  /** The base symbols of changed files, in base order. */
  ghost function ChangedSymbols(symbols: seq<Symbol>, changed: set<string>): seq<Symbol> {
    if symbols == [] then []
    else
      var s := symbols[|symbols| - 1];
      ChangedSymbols(symbols[..|symbols| - 1], changed) + if s.path in changed then [s] else []
  }

  ghost predicate HasKey(symbols: seq<Symbol>, key: string) {
    exists k :: 0 <= k < |symbols| && SymbolKey(symbols[k]) == key
  }

  /** byKey holds exactly these symbols, under their keys. */
  ghost predicate Indexes(byKey: map<string, Symbol>, was: seq<Symbol>) {
    && (forall k :: k in byKey ==> SymbolKey(byKey[k]) == k && byKey[k] in was)
    && (forall s :: s in was ==> SymbolKey(s) in byKey && byKey[SymbolKey(s)] == s)
  }

  lemma {:induction false} ByKeyUnique(symbols: seq<Symbol>, changed: set<string>)
    requires UniqueKeys(ChangedSymbols(symbols, changed))
    ensures Indexes(ByKey(symbols, changed), ChangedSymbols(symbols, changed))
  {
    if symbols == [] {
    } else {
      var init, s := symbols[..|symbols| - 1], symbols[|symbols| - 1];
      var before := ChangedSymbols(init, changed);
      assert ChangedSymbols(symbols, changed)[..|before|] == before;
      ByKeyUnique(init, changed);
      forall t | t in before && s.path in changed ensures SymbolKey(t) != SymbolKey(s) {
        var k :| 0 <= k < |before| && before[k] == t;
        assert ChangedSymbols(symbols, changed)[k] == t && ChangedSymbols(symbols, changed)[|before|] == s;
      }
    }
  }

  lemma {:induction false} ChangedAreSymbols(symbols: seq<Symbol>, changed: set<string>)
    ensures forall s :: s in ChangedSymbols(symbols, changed) <==> s in symbols && s.path in changed
  {
    if symbols == [] {
    } else {
      ChangedAreSymbols(symbols[..|symbols| - 1], changed);
    }
  }

  lemma {:induction false} KeysExactly(heads: seq<Symbol>)
    ensures forall k :: k in Keys(heads) <==> HasKey(heads, k)
  {
    if heads == [] {
    } else {
      var init := heads[..|heads| - 1];
      KeysExactly(init);
      forall k ensures HasKey(heads, k) <==> HasKey(init, k) || k == SymbolKey(heads[|heads| - 1]) {
        if HasKey(init, k) {
          var i :| 0 <= i < |init| && SymbolKey(init[i]) == k;
          assert SymbolKey(heads[i]) == k;
        }
        assert SymbolKey(heads[|heads| - 1]) == SymbolKey(heads[|heads| - 1]);
      }
    }
  }

  /**
   With distinct head keys, exactly the base symbols whose key the head has are replaced, by the
   head symbol of that key.
   */
  lemma {:induction false} ReplacedExactly(byKey: map<string, Symbol>, heads: seq<Symbol>, id: int)
    requires UniqueKeys(heads) && (forall k :: k in byKey ==> SymbolKey(byKey[k]) == k)
    requires forall k, l :: k in byKey && l in byKey && byKey[k].id == byKey[l].id ==> k == l
    ensures var m := Replacements(byKey, heads);
      && (id in m ==> exists h :: h in heads && SymbolKey(h) in byKey && byKey[SymbolKey(h)].id == id && m[id] == h.id)
      && (forall h :: h in heads && SymbolKey(h) in byKey && byKey[SymbolKey(h)].id == id ==> id in m && m[id] == h.id)
  {
    if heads == [] {
    } else {
      var init, last := heads[..|heads| - 1], heads[|heads| - 1];
      ReplacedExactly(byKey, init, id);
      forall h | h in init ensures SymbolKey(h) != SymbolKey(last) {
        var k :| 0 <= k < |init| && init[k] == h;
        assert heads[k] == h;
      }
    }
  }

  /**
   Base edges are rewired along a map that says what it should: a symbol of a changed file survives as the head
   symbol of the same path, kind and name, and is gone if there is none; all other symbols stay themselves.
   */
  lemma {:induction false} SurvivesByKey(base: Snapshot, changed: set<string>, heads: seq<Symbol>, s: Symbol)
    requires WellFormedBase(base) && UniqueKeys(ChangedSymbols(base.symbols, changed)) && UniqueKeys(heads)
    requires s in base.symbols
    ensures var t := Survivor(RemovedIds(base.symbols, changed), Replacements(ByKey(base.symbols, changed), heads),
                              s.id);
      && (s.path !in changed ==> t == s.id)
      && (s.path in changed ==> forall h :: h in heads && SymbolKey(h) == SymbolKey(s) ==> t == h.id)
      && (s.path in changed && !HasKey(heads, SymbolKey(s)) ==> t == 0)
  {
    var byKey := ByKey(base.symbols, changed);
    KeptIsFilter(base.symbols, changed);
    ChangedAreSymbols(base.symbols, changed);
    ByKeyUnique(base.symbols, changed);
    KeyIdsDistinct(base, changed);
    ReplacedExactly(byKey, heads, s.id);
    HasKeyIn(heads, SymbolKey(s));
    forall t | t in base.symbols && t.id == s.id ensures t == s { OneSymbolPerId(base.symbols, s, t); }
  }

  lemma OneSymbolPerId(symbols: seq<Symbol>, s: Symbol, t: Symbol)
    requires DistinctIds(symbols) && s in symbols && t in symbols && s.id == t.id
    ensures s == t
  {
    var i :| 0 <= i < |symbols| && symbols[i] == s;
    var j :| 0 <= j < |symbols| && symbols[j] == t;
  }

  lemma {:induction false} KeyIdsDistinct(base: Snapshot, changed: set<string>)
    requires WellFormedBase(base) && Indexes(ByKey(base.symbols, changed), ChangedSymbols(base.symbols, changed))
    ensures var byKey := ByKey(base.symbols, changed);
      forall k, l :: k in byKey && l in byKey && byKey[k].id == byKey[l].id ==> k == l
  {
    var byKey := ByKey(base.symbols, changed);
    ChangedAreSymbols(base.symbols, changed);
    forall k, l | k in byKey && l in byKey && byKey[k].id == byKey[l].id ensures k == l {
      OneSymbolPerId(base.symbols, byKey[k], byKey[l]);
    }
  }

  // ---- The delta ----

  lemma {:induction false} AddedExactly(byKey: map<string, Symbol>, heads: seq<Symbol>)
    ensures forall s :: s in Added(byKey, heads) <==> s in heads && SymbolKey(s) !in byKey
    ensures forall s :: s in Modified(byKey, heads) <==>
      s in heads && SymbolKey(s) in byKey && Differs(byKey[SymbolKey(s)], s)
  {
    if heads == [] {
    } else {
      AddedExactly(byKey, heads[..|heads| - 1]);
    }
  }

  /**
   The delta is exact: added and removed symbols are the differences of the keys, modified ones have their key on
   both sides and changed signature or lines. Nothing is in two of the lists, and base keys without the removed
   and with the added ones are the head keys.
   */
  ghost predicate ExactDelta(was: seq<Symbol>, heads: seq<Symbol>, o: Overlaid) {
    && (forall s :: s in o.added <==> s in heads && !HasKey(was, SymbolKey(s)))
    && (forall s :: s in o.removed <==> s in was && !HasKey(heads, SymbolKey(s)))
    && (forall s :: s in o.modified <==> s in heads && Changes(was, s))
    && (forall k :: HasKey(heads, k) <==> (HasKey(was, k) && !HasKey(o.removed, k)) || HasKey(o.added, k))
    && (forall k :: !(HasKey(o.added, k) && HasKey(o.modified, k)))
    && (forall k :: !(HasKey(o.added, k) && HasKey(o.removed, k)))
    && (forall k :: !(HasKey(o.modified, k) && HasKey(o.removed, k)))
  }

  /** A symbol of the same path, kind and name was there before, with another signature or other lines. */
  ghost predicate Changes(was: seq<Symbol>, s: Symbol) {
    exists b :: b in was && SymbolKey(b) == SymbolKey(s) && Differs(b, s)
  }

  lemma {:induction false} DeltaExact(base: Snapshot, changes: seq<ChangedFile>, parser: HeadParser, o: Overlaid)
    requires IsOverlay(base, changes, parser, o)
    requires UniqueKeys(ChangedSymbols(base.symbols, ChangedPaths(changes))) && UniqueKeys(Heads(parser, changes))
    ensures ExactDelta(ChangedSymbols(base.symbols, ChangedPaths(changes)), Heads(parser, changes), o)
  {
    var changed := ChangedPaths(changes);
    var was, heads, byKey := ChangedSymbols(base.symbols, changed), Heads(parser, changes),
      ByKey(base.symbols, changed);
    ByKeyUnique(base.symbols, changed);
    KeysExactly(heads);
    AddedExactly(byKey, heads);
    SameMembers(o.added, Added(byKey, heads));
    SameMembers(o.modified, Modified(byKey, heads));
    DeltaKeys(byKey, heads, was, o);
  }

  lemma SameMembers(a: seq<Symbol>, b: seq<Symbol>)
    requires multiset(a) == multiset(b)
    ensures forall s :: s in a <==> s in b
  {
    forall s ensures s in a <==> s in b { assert s in multiset(a) <==> s in multiset(b); }
  }

  lemma HasKeyIn(symbols: seq<Symbol>, key: string)
    ensures HasKey(symbols, key) <==> exists s :: s in symbols && SymbolKey(s) == key
  {
    if s :| s in symbols && SymbolKey(s) == key {
      var k :| 0 <= k < |symbols| && symbols[k] == s;
    }
    if HasKey(symbols, key) {
      var k :| 0 <= k < |symbols| && SymbolKey(symbols[k]) == key;
      assert symbols[k] in symbols;
    }
  }

  lemma {:induction false} DeltaKeys(byKey: map<string, Symbol>, heads: seq<Symbol>, was: seq<Symbol>, o: Overlaid)
    requires Indexes(byKey, was) && (forall k :: k in Keys(heads) <==> HasKey(heads, k))
    requires forall s :: s in o.added <==> s in heads && SymbolKey(s) !in byKey
    requires forall s :: s in o.modified <==> s in heads && SymbolKey(s) in byKey && Differs(byKey[SymbolKey(s)], s)
    requires IsRemoved(byKey, Keys(heads), o.removed)
    ensures ExactDelta(was, heads, o)
  {
    forall k ensures HasKey(was, k) <==> k in byKey { HasKeyIn(was, k); }
    forall k ensures HasKey(o.added, k) <==> HasKey(heads, k) && k !in byKey {
      HasKeyIn(o.added, k);
      HasKeyIn(heads, k);
    }
    forall k ensures HasKey(o.removed, k) <==> k in byKey && k !in Keys(heads) {
      RemovedKey(byKey, heads, was, o.removed, k);
    }
    forall k ensures HasKey(o.modified, k) ==> k in byKey {
      HasKeyIn(o.modified, k);
    }
    forall k ensures HasKey(o.modified, k) ==> HasKey(heads, k) {
      HasKeyIn(o.modified, k);
      HasKeyIn(heads, k);
    }
    forall s ensures Changes(was, s) <==> SymbolKey(s) in byKey && Differs(byKey[SymbolKey(s)], s) {}
  }

  lemma {:induction false} RemovedKey(byKey: map<string, Symbol>, heads: seq<Symbol>, was: seq<Symbol>,
                                      removed: seq<Symbol>, k: string)
    requires Indexes(byKey, was) && IsRemoved(byKey, Keys(heads), removed)
    ensures HasKey(removed, k) <==> k in byKey && k !in Keys(heads)
  {
    HasKeyIn(removed, k);
    if k in byKey && k !in Keys(heads) { assert byKey[k] in removed; }
  }

  // ---- Keys and names ----

  ghost predicate SameSymbol(a: Symbol, b: Symbol) { a.path == b.path && a.kind == b.kind && a.name == b.name }

  /** The joined keys say what they should wherever paths and kinds hold no NUL. */
  lemma KeyMeansPathKindName(a: Symbol, b: Symbol)
    requires Plain(a.path) && Plain(a.kind) && Plain(b.path) && Plain(b.kind)
    ensures SymbolKey(a) == SymbolKey(b) <==> SameSymbol(a, b)
  {
    var u, v := a.kind + "\0" + a.name, b.kind + "\0" + b.name;
    assert SymbolKey(a) == a.path + "\0" + u && SymbolKey(b) == b.path + "\0" + v;
    if SymbolKey(a) == SymbolKey(b) {
      KeysApart(a.path, u, b.path, v);
      KeysApart(a.kind, a.name, b.kind, b.name);
    }
  }

  ghost predicate AllPlain(symbols: seq<Symbol>) {
    forall s :: s in symbols ==> Plain(s.path) && Plain(s.kind)
  }

  /** SurvivesByKey in terms of paths, kinds and names. */
  lemma {:induction false} SurvivesByName(base: Snapshot, changed: set<string>, heads: seq<Symbol>, s: Symbol)
    requires WellFormedBase(base) && UniqueKeys(ChangedSymbols(base.symbols, changed)) && UniqueKeys(heads)
    requires s in base.symbols
    requires AllPlain(base.symbols) && AllPlain(heads)
    ensures var t := Survivor(RemovedIds(base.symbols, changed), Replacements(ByKey(base.symbols, changed), heads),
                              s.id);
      && (s.path !in changed ==> t == s.id)
      && (s.path in changed ==> forall h :: h in heads && SameSymbol(h, s) ==> t == h.id)
      && (s.path in changed && (forall h :: h in heads ==> !SameSymbol(h, s)) ==> t == 0)
  {
    SurvivesByKey(base, changed, heads, s);
    HasKeyIn(heads, SymbolKey(s));
    forall h | h in heads ensures SymbolKey(h) == SymbolKey(s) <==> SameSymbol(h, s) { KeyMeansPathKindName(h, s); }
  }

  // ---- The delta in fields ----

  /** A symbol with another signature, first line or last line. */
  ghost predicate Edited(was: Symbol, s: Symbol) {
    was.signature != s.signature || was.startLine != s.startLine || was.endLine != s.endLine
  }

  lemma ChangesInFields(all: seq<Symbol>, s: Symbol)
    ensures Changes(all, s) <==> exists was :: was in all && SymbolKey(was) == SymbolKey(s) && Edited(was, s)
  {}

  lemma {:induction false} ChangedSymbolsAre(symbols: seq<Symbol>, changed: set<string>)
    ensures forall s :: s in ChangedSymbols(symbols, changed) <==> s in symbols && s.path in changed
  {
    if symbols == [] {
    } else {
      var init, last := symbols[..|symbols| - 1], symbols[|symbols| - 1];
      ChangedSymbolsAre(init, changed);
      assert symbols == init + [last];
    }
  }

  /**
   The delta in fields: a head symbol is added if and only if no base symbol of a changed file is the same by path,
   kind and name. It is modified if and only if one is and has another signature, first line or last line.
   */
  lemma {:induction false} DeltaInFields(base: Snapshot, changes: seq<ChangedFile>, parser: HeadParser, o: Overlaid,
                                         s: Symbol)
    requires IsOverlay(base, changes, parser, o) && AllPlain(base.symbols) && AllPlain(Heads(parser, changes))
    requires UniqueKeys(ChangedSymbols(base.symbols, ChangedPaths(changes))) && UniqueKeys(Heads(parser, changes))
    requires s in Heads(parser, changes)
    ensures s in o.added <==>
      forall was :: was in base.symbols && was.path in ChangedPaths(changes) ==> !SameSymbol(was, s)
    ensures s in o.modified <==>
      exists was :: was in base.symbols && was.path in ChangedPaths(changes) && SameSymbol(was, s) && Edited(was, s)
    ensures (exists was :: was in base.symbols && was.path in ChangedPaths(changes) && SameSymbol(was, s) &&
              !Edited(was, s)) ==> s !in o.added && s !in o.modified
  {
    var changed := ChangedPaths(changes);
    var all := ChangedSymbols(base.symbols, changed);
    DeltaExact(base, changes, parser, o);
    ChangedSymbolsAre(base.symbols, changed);
    forall was | was in base.symbols ensures SymbolKey(was) == SymbolKey(s) <==> SameSymbol(was, s) {
      KeyMeansPathKindName(was, s);
    }
    HasKeyIn(all, SymbolKey(s));
    ChangesInFields(all, s);
  }

  /** A base symbol of a changed file is removed if and only if no head symbol is the same. */
  lemma {:induction false} RemovedInFields(base: Snapshot, changes: seq<ChangedFile>, parser: HeadParser, o: Overlaid,
                                           was: Symbol)
    requires IsOverlay(base, changes, parser, o) && AllPlain(base.symbols) && AllPlain(Heads(parser, changes))
    requires UniqueKeys(ChangedSymbols(base.symbols, ChangedPaths(changes))) && UniqueKeys(Heads(parser, changes))
    requires was in base.symbols && was.path in ChangedPaths(changes)
    ensures was in o.removed <==> forall s :: s in Heads(parser, changes) ==> !SameSymbol(s, was)
  {
    var heads := Heads(parser, changes);
    DeltaExact(base, changes, parser, o);
    ChangedSymbolsAre(base.symbols, ChangedPaths(changes));
    forall s | s in heads ensures SymbolKey(s) == SymbolKey(was) <==> SameSymbol(s, was) {
      KeyMeansPathKindName(s, was);
    }
    HasKeyIn(heads, SymbolKey(was));
  }

  // ---- Edges out of changed files ----

  /**
   Where the end of a base edge goes: a symbol of an unchanged file stays, one of a changed file becomes the head
   symbol of its key, or 0 if there is none; what is no base symbol stays as it is.
   */
  ghost predicate GoesTo(base: Snapshot, changed: set<string>, heads: seq<Symbol>, id: int, to: int) {
    && (forall s :: s in base.symbols && s.id == id ==> SymbolGoesTo(changed, heads, s, to))
    && (!HasId(base.symbols, id) ==> to == id)
  }

  ghost predicate SymbolGoesTo(changed: set<string>, heads: seq<Symbol>, s: Symbol, to: int) {
    if s.path !in changed then to == s.id
    else if HasKey(heads, SymbolKey(s)) then exists h :: h in heads && SymbolKey(h) == SymbolKey(s) && h.id == to
    else to == 0
  }

  lemma {:induction false} GoesToSurvivor(base: Snapshot, changed: set<string>, heads: seq<Symbol>, id: int, to: int)
    requires WellFormedBase(base) && UniqueKeys(ChangedSymbols(base.symbols, changed)) && UniqueKeys(heads)
    ensures GoesTo(base, changed, heads, id, to) <==>
      to == Survivor(RemovedIds(base.symbols, changed), Replacements(ByKey(base.symbols, changed), heads), id)
  {
    if HasId(base.symbols, id) {
      var k :| 0 <= k < |base.symbols| && base.symbols[k].id == id;
      var s := base.symbols[k];
      forall t | t in base.symbols && t.id == id ensures t == s { OneSymbolPerId(base.symbols, s, t); }
      SurvivesByKey(base, changed, heads, s);
      HasKeyIn(heads, SymbolKey(s));
    } else {
      RemovedAreSymbols(base.symbols, changed);
      forall s | s in base.symbols ensures HasId(base.symbols, s.id) {
        var j :| 0 <= j < |base.symbols| && base.symbols[j] == s;
      }
    }
  }

  /**
   r is what a base edge out of a changed file becomes there: its source has a head symbol of the same key, both ends
   have gone where they go, and the target has gone to a symbol or has a name.
   */
  ghost predicate Outlives(base: Snapshot, changed: set<string>, heads: seq<Symbol>, e: Edge, r: Edge) {
    && (exists s :: s in base.symbols && s.id == e.source && s.path in changed && HasKey(heads, SymbolKey(s)))
    && GoesTo(base, changed, heads, e.source, r.source) && GoesTo(base, changed, heads, e.target, r.target)
    && r == e.(source := r.source, target := r.target)
    && (r.target != 0 || r.name != "")
  }

  lemma {:induction false} OutlivesIff(base: Snapshot, changed: set<string>, heads: seq<Symbol>, e: Edge, r: Edge)
    requires WellFormedBase(base) && UniqueKeys(ChangedSymbols(base.symbols, changed)) && UniqueKeys(heads)
    requires e in base.edges && forall k :: 0 <= k < |heads| ==> heads[k].id < 0
    ensures Outlives(base, changed, heads, e, r) <==>
      r.source < 0 &&
        Rewire(RemovedIds(base.symbols, changed), Replacements(ByKey(base.symbols, changed), heads), e) == [r]
  {
    GoesToSurvivor(base, changed, heads, e.source, r.source);
    GoesToSurvivor(base, changed, heads, e.target, r.target);
    assert EndsIn(base.symbols, e);
    var k :| 0 <= k < |base.symbols| && base.symbols[k].id == e.source;
    var s := base.symbols[k];
    assert s in base.symbols && s.id > 0;
    forall t | t in base.symbols && t.id == e.source ensures t == s { OneSymbolPerId(base.symbols, s, t); }
    forall h | h in heads ensures h.id < 0 {}
  }

  ghost predicate IsOutlived(base: Snapshot, changed: set<string>, heads: seq<Symbol>, r: Edge) {
    exists e :: e in base.edges && Outlives(base, changed, heads, e, r)
  }

  lemma {:induction false} OutlivedAreRewired(base: Snapshot, changed: set<string>, heads: seq<Symbol>, r: Edge)
    requires WellFormedBase(base) && UniqueKeys(ChangedSymbols(base.symbols, changed)) && UniqueKeys(heads)
    requires forall k :: 0 <= k < |heads| ==> heads[k].id < 0
    ensures IsOutlived(base, changed, heads, r) <==>
      r.source < 0 &&
        r in Rewired(RemovedIds(base.symbols, changed), Replacements(ByKey(base.symbols, changed), heads), base.edges)
  {
    RewiredFrom(RemovedIds(base.symbols, changed), Replacements(ByKey(base.symbols, changed), heads), base.edges);
    forall e | e in base.edges
      ensures Outlives(base, changed, heads, e, r) <==>
        r.source < 0 &&
          Rewire(RemovedIds(base.symbols, changed), Replacements(ByKey(base.symbols, changed), heads), e) == [r]
    {
      OutlivesIff(base, changed, heads, e, r);
    }
  }

  lemma {:induction false} OverlayEdges(base: Snapshot, changes: seq<ChangedFile>, parser: HeadParser, o: Overlaid,
                                        r: Edge)
    requires IsOverlay(base, changes, parser, o) && WellFormedBase(base)
    requires UniqueKeys(ChangedSymbols(base.symbols, ChangedPaths(changes))) && UniqueKeys(Heads(parser, changes))
    ensures IsOutlived(base, ChangedPaths(changes), Heads(parser, changes), r) ==> r in o.graph.edges && r.source < 0
    ensures r in o.graph.edges && r.source < 0 ==>
      r in HeadEdges(parser, changes) || IsOutlived(base, ChangedPaths(changes), Heads(parser, changes), r)
  {
    HeadIds(parser, changes);
    OutlivedAreRewired(base, ChangedPaths(changes), Heads(parser, changes), r);
  }

  /**
   BuildOverlay says it replaces changed files. Every edge out of a head symbol is one the head parser found if and
   only if each base edge that outlives the change is one of those as well.
   */
  lemma {:induction false} NoStaleEdgesIff(base: Snapshot, changes: seq<ChangedFile>, parser: HeadParser, o: Overlaid)
    requires IsOverlay(base, changes, parser, o) && WellFormedBase(base)
    requires UniqueKeys(ChangedSymbols(base.symbols, ChangedPaths(changes))) && UniqueKeys(Heads(parser, changes))
    ensures (forall r :: r in o.graph.edges && r.source < 0 ==> r in HeadEdges(parser, changes)) <==>
      (forall r :: IsOutlived(base, ChangedPaths(changes), Heads(parser, changes), r) ==>
        r in HeadEdges(parser, changes))
  {
    var changed, heads := ChangedPaths(changes), Heads(parser, changes);
    forall r: Edge
      ensures IsOutlived(base, changed, heads, r) ==> r in o.graph.edges && r.source < 0
      ensures r in o.graph.edges && r.source < 0 ==>
        r in HeadEdges(parser, changes) || IsOutlived(base, changed, heads, r)
    {
      OverlayEdges(base, changes, parser, o, r);
    }
  }

  /** What a base edge becomes: both ends have gone where they go, it starts somewhere, and ends there or at a name. */
  ghost predicate Becomes(base: Snapshot, changed: set<string>, heads: seq<Symbol>, e: Edge, r: Edge) {
    && GoesTo(base, changed, heads, e.source, r.source) && GoesTo(base, changed, heads, e.target, r.target)
    && r == e.(source := r.source, target := r.target) && r.source != 0 && (r.target != 0 || r.name != "")
  }

  lemma {:induction false} BecomesIff(base: Snapshot, changed: set<string>, heads: seq<Symbol>, e: Edge, r: Edge)
    requires WellFormedBase(base) && UniqueKeys(ChangedSymbols(base.symbols, changed)) && UniqueKeys(heads)
    ensures Becomes(base, changed, heads, e, r) <==>
      Rewire(RemovedIds(base.symbols, changed), Replacements(ByKey(base.symbols, changed), heads), e) == [r]
  {
    GoesToSurvivor(base, changed, heads, e.source, r.source);
    GoesToSurvivor(base, changed, heads, e.target, r.target);
  }

  /** The places of the base edges that become r, wherever it starts. */
  ghost function Ancestors(base: Snapshot, changed: set<string>, heads: seq<Symbol>, r: Edge): set<nat> {
    set i: nat | i < |base.edges| && Becomes(base, changed, heads, base.edges[i], r)
  }

  /** How often the overlay lists any edge: as often as the parser, and once for each base edge that becomes it. */
  lemma {:induction false} AnyEdgeCount(base: Snapshot, changes: seq<ChangedFile>, parser: HeadParser, o: Overlaid,
                                        r: Edge)
    requires IsOverlay(base, changes, parser, o) && WellFormedBase(base)
    requires UniqueKeys(ChangedSymbols(base.symbols, ChangedPaths(changes))) && UniqueKeys(Heads(parser, changes))
    ensures multiset(o.graph.edges)[r] ==
      multiset(HeadEdges(parser, changes))[r] + |Ancestors(base, ChangedPaths(changes), Heads(parser, changes), r)|
  {
    var changed, heads := ChangedPaths(changes), Heads(parser, changes);
    var removed, replaced := RemovedIds(base.symbols, changed), Replacements(ByKey(base.symbols, changed), heads);
    RewiredCount(removed, replaced, base.edges, r);
    forall i: nat | i < |base.edges|
      ensures Becomes(base, changed, heads, base.edges[i], r) <==> Rewire(removed, replaced, base.edges[i]) == [r]
    {
      BecomesIff(base, changed, heads, base.edges[i], r);
    }
    assert Ancestors(base, changed, heads, r) == RewiredTo(removed, replaced, base.edges, r);
  }

  /** The edge the parser gave, between the head symbols made of the symbols it names; other targets stay. */
  ghost predicate Renumbers(symbols: seq<Symbol>, offset: nat, e: Edge, r: Edge) {
    && r.name == e.name && r.kind == e.kind
    && (forall j :: 0 <= j < |symbols| && symbols[j].id == e.source ==> r.source == -(offset + j + 1))
    && (forall j :: 0 <= j < |symbols| && symbols[j].id == e.target ==> r.target == -(offset + j + 1))
    && ((forall j :: 0 <= j < |symbols| ==> symbols[j].id != e.target) ==> r.target == e.target)
  }

  /** The edges of a file are those of its parse, one for one, between its head symbols. */
  lemma {:induction false} HeadEdgesRenumber(c: ChangedFile, p: Parsed, offset: nat, k: nat)
    requires ValidParse(c, p) && k < |p.edges|
    ensures |Remapped(p.symbols, offset, p.edges)| == |p.edges|
    ensures Renumbers(p.symbols, offset, p.edges[k], Remapped(p.symbols, offset, p.edges)[k])
  {
    var e := p.edges[k];
    MappedIff(p.symbols, offset, e.source);
    MappedIff(p.symbols, offset, e.target);
  }

  /** The places of the base edges that become r. */
  ghost function Origins(base: Snapshot, changed: set<string>, heads: seq<Symbol>, r: Edge): set<nat> {
    set i: nat | i < |base.edges| && Outlives(base, changed, heads, base.edges[i], r)
  }

  ghost function RewiredTo(removed: set<int>, replaced: map<int, int>, edges: seq<Edge>, r: Edge): set<nat> {
    set i: nat | i < |edges| && Rewire(removed, replaced, edges[i]) == [r]
  }

  lemma RewiredToNext(removed: set<int>, replaced: map<int, int>, edges: seq<Edge>, last: Edge, r: Edge)
    ensures RewiredTo(removed, replaced, edges + [last], r) ==
      RewiredTo(removed, replaced, edges, r) + if Rewire(removed, replaced, last) == [r] then {|edges|} else {}
  {
    assert forall i: nat :: i < |edges| ==> (edges + [last])[i] == edges[i];
  }

  lemma RewireCount(removed: set<int>, replaced: map<int, int>, e: Edge, r: Edge)
    ensures multiset(Rewire(removed, replaced, e))[r] == if Rewire(removed, replaced, e) == [r] then 1 else 0
  {}

  lemma SizeOfOneMore(s: set<nat>, n: nat)
    requires n !in s
    ensures |s + {n}| == |s| + 1
  {}

  lemma CountOfAppended(a: seq<Edge>, b: seq<Edge>, r: Edge)
    ensures multiset(a + b)[r] == multiset(a)[r] + multiset(b)[r]
  {}

  lemma {:induction false} RewiredNext(removed: set<int>, replaced: map<int, int>, edges: seq<Edge>, last: Edge)
    ensures Rewired(removed, replaced, edges + [last]) ==
      Rewired(removed, replaced, edges) + Rewire(removed, replaced, last)
  {
    assert (edges + [last])[..|edges|] == edges;
  }

  ghost predicate CountAgrees(removed: set<int>, replaced: map<int, int>, edges: seq<Edge>, r: Edge) {
    multiset(Rewired(removed, replaced, edges))[r] == |RewiredTo(removed, replaced, edges, r)|
  }

  lemma {:induction false} RewiredCountNext(removed: set<int>, replaced: map<int, int>, edges: seq<Edge>, last: Edge,
                                            r: Edge)
    requires CountAgrees(removed, replaced, edges, r)
    ensures CountAgrees(removed, replaced, edges + [last], r)
  {
    RewiredNext(removed, replaced, edges, last);
    CountOfAppended(Rewired(removed, replaced, edges), Rewire(removed, replaced, last), r);
    RewireCount(removed, replaced, last, r);
    RewiredToNext(removed, replaced, edges, last, r);
    SizeOfOneMore(RewiredTo(removed, replaced, edges, r), |edges|);
  }

  lemma {:induction false} NoneRewired(removed: set<int>, replaced: map<int, int>, r: Edge)
    ensures CountAgrees(removed, replaced, [], r)
  {
    assert RewiredTo(removed, replaced, [], r) == {};
  }

  lemma {:induction false} RewiredCount(removed: set<int>, replaced: map<int, int>, edges: seq<Edge>, r: Edge)
    ensures CountAgrees(removed, replaced, edges, r)
  {
    var p := (s: seq<Edge>) => CountAgrees(removed, replaced, s, r);
    assert p([]) by { NoneRewired(removed, replaced, r); }
    forall a, x | p(a) ensures p(a + [x]) { RewiredCountNext(removed, replaced, a, x, r); }
    ByAppending(p, edges);
  }

  /** How often the overlay lists an edge out of a head symbol: as often as the parser, and once for each base edge. */
  lemma {:induction false} EdgeCount(base: Snapshot, changes: seq<ChangedFile>, parser: HeadParser, o: Overlaid,
                                     r: Edge)
    requires IsOverlay(base, changes, parser, o) && WellFormedBase(base) && r.source < 0
    requires UniqueKeys(ChangedSymbols(base.symbols, ChangedPaths(changes))) && UniqueKeys(Heads(parser, changes))
    ensures multiset(o.graph.edges)[r] ==
      multiset(HeadEdges(parser, changes))[r] + |Origins(base, ChangedPaths(changes), Heads(parser, changes), r)|
  {
    var changed, heads := ChangedPaths(changes), Heads(parser, changes);
    var removed, replaced := RemovedIds(base.symbols, changed), Replacements(ByKey(base.symbols, changed), heads);
    HeadIds(parser, changes);
    RewiredCount(removed, replaced, base.edges, r);
    forall i: nat | i < |base.edges|
      ensures Outlives(base, changed, heads, base.edges[i], r) <==> Rewire(removed, replaced, base.edges[i]) == [r]
    {
      OutlivesIff(base, changed, heads, base.edges[i], r);
    }
    assert Origins(base, changed, heads, r) == RewiredTo(removed, replaced, base.edges, r);
  }

  /** An edge that outlives the change and that the head parser finds again is in the overlay twice. */
  lemma {:induction false} FoundAgainIsTwice(base: Snapshot, changes: seq<ChangedFile>, parser: HeadParser,
                                             o: Overlaid, r: Edge)
    requires IsOverlay(base, changes, parser, o) && WellFormedBase(base) && r.source < 0
    requires UniqueKeys(ChangedSymbols(base.symbols, ChangedPaths(changes))) && UniqueKeys(Heads(parser, changes))
    requires IsOutlived(base, ChangedPaths(changes), Heads(parser, changes), r) && r in HeadEdges(parser, changes)
    ensures multiset(o.graph.edges)[r] >= 2
  {
    OutlivedIff(base, ChangedPaths(changes), Heads(parser, changes), r);
    EdgeCount(base, changes, parser, o, r);
  }

  ghost predicate NoneTwice(edges: seq<Edge>) {
    forall i, j :: 0 <= i < j < |edges| ==> edges[i] != edges[j]
  }

  /** No two base edges become the same edge. */
  ghost predicate OneOrigin(base: Snapshot, changed: set<string>, heads: seq<Symbol>) {
    forall i, j, r :: 0 <= i < j < |base.edges| && Outlives(base, changed, heads, base.edges[i], r) ==>
      !Outlives(base, changed, heads, base.edges[j], r)
  }

  /** No edge of the head parser is one that a base edge becomes. */
  ghost predicate NoneFoundAgain(base: Snapshot, changed: set<string>, heads: seq<Symbol>, found: seq<Edge>) {
    forall r :: IsOutlived(base, changed, heads, r) ==> r !in found
  }

  lemma NoneTwiceIff(edges: seq<Edge>)
    ensures NoneTwice(edges) <==> forall r :: multiset(edges)[r] <= 1
  {
    if NoneTwice(edges) {
      forall r ensures multiset(edges)[r] <= 1 { CountDistinct(edges, r); }
    } else {
      var i: nat, j: nat :| i < j < |edges| && edges[i] == edges[j];
      CountRepeated(edges, i, j);
    }
  }

  lemma {:induction false} OneOriginIff(base: Snapshot, changed: set<string>, heads: seq<Symbol>)
    ensures OneOrigin(base, changed, heads) <==> forall r :: |Origins(base, changed, heads, r)| <= 1
  {
    if OneOrigin(base, changed, heads) {
      forall r ensures |Origins(base, changed, heads, r)| <= 1 {
        var s := Origins(base, changed, heads, r);
        if i :| i in s {
          assert forall j :: j in s ==> j == i;
          assert s == {i};
        }
      }
    } else {
      var i, j, r :| 0 <= i < j < |base.edges| && Outlives(base, changed, heads, base.edges[i], r) &&
        Outlives(base, changed, heads, base.edges[j], r);
      TwoElements(Origins(base, changed, heads, r), i, j);
    }
  }

  lemma TwoElements(s: set<nat>, i: nat, j: nat)
    requires i in s && j in s && i != j
    ensures |s| >= 2
  {
    assert |s| == |s - {i} - {j}| + 2;
  }

  lemma {:induction false} OutlivedIff(base: Snapshot, changed: set<string>, heads: seq<Symbol>, r: Edge)
    ensures IsOutlived(base, changed, heads, r) <==> |Origins(base, changed, heads, r)| > 0
  {
    if e :| e in base.edges && Outlives(base, changed, heads, e, r) {
      var i: nat :| i < |base.edges| && base.edges[i] == e;
      assert i in Origins(base, changed, heads, r);
    }
    if i :| i in Origins(base, changed, heads, r) { assert base.edges[i] in base.edges; }
  }

  /** What is known of how often one edge is listed, found and inherited. */
  ghost predicate CountsOf(listed: nat, found: nat, origins: nat, outlived: bool, source: int) {
    && (source >= 0 ==> found == 0 && origins == 0)
    && (source < 0 ==> listed == found + origins)
    && (outlived <==> origins > 0)
  }

  lemma {:induction false} EdgeCounts(base: Snapshot, changes: seq<ChangedFile>, parser: HeadParser, o: Overlaid,
                                      r: Edge)
    requires IsOverlay(base, changes, parser, o) && WellFormedBase(base) && AllParse(parser, changes)
    requires UniqueKeys(ChangedSymbols(base.symbols, ChangedPaths(changes))) && UniqueKeys(Heads(parser, changes))
    ensures var changed, heads := ChangedPaths(changes), Heads(parser, changes);
      CountsOf(multiset(o.graph.edges)[r], multiset(HeadEdges(parser, changes))[r],
               |Origins(base, changed, heads, r)|, IsOutlived(base, changed, heads, r), r.source)
  {
    OutlivedIff(base, ChangedPaths(changes), Heads(parser, changes), r);
    if r.source < 0 {
      EdgeCount(base, changes, parser, o, r);
    } else {
      if r in HeadEdges(parser, changes) { HeadEdgeSource(parser, changes, r); }
      if IsOutlived(base, ChangedPaths(changes), Heads(parser, changes), r) {
        OverlayEdges(base, changes, parser, o, r);
      }
    }
  }

  ghost predicate AtMostOnce(edges: seq<Edge>, r: Edge) { r.source < 0 ==> multiset(edges)[r] <= 1 }

  /** The parser and the base edges together give this edge at most once. */
  ghost predicate GivenOnce(base: Snapshot, changed: set<string>, heads: seq<Symbol>, found: seq<Edge>, r: Edge) {
    && multiset(found)[r] <= 1 && |Origins(base, changed, heads, r)| <= 1
    && (IsOutlived(base, changed, heads, r) ==> r !in found)
  }

  lemma GivenOnceIff(base: Snapshot, changed: set<string>, heads: seq<Symbol>, found: seq<Edge>)
    ensures (forall r :: GivenOnce(base, changed, heads, found, r)) <==>
      NoneTwice(found) && OneOrigin(base, changed, heads) && NoneFoundAgain(base, changed, heads, found)
  {
    NoneTwiceIff(found);
    OneOriginIff(base, changed, heads);
    if forall r :: GivenOnce(base, changed, heads, found, r) {
      forall r ensures multiset(found)[r] <= 1 && |Origins(base, changed, heads, r)| <= 1 {
        assert GivenOnce(base, changed, heads, found, r);
      }
      forall r | IsOutlived(base, changed, heads, r) ensures r !in found {
        assert GivenOnce(base, changed, heads, found, r);
      }
    }
  }

  /**
   The overlay lists each edge out of a head symbol once, if and only if the parser lists its edges once, no two base
   edges become the same, and what becomes of base edges is not found again.
   */
  lemma {:induction false} ListedOnceIff(base: Snapshot, changes: seq<ChangedFile>, parser: HeadParser, o: Overlaid)
    requires IsOverlay(base, changes, parser, o) && WellFormedBase(base) && AllParse(parser, changes)
    requires UniqueKeys(ChangedSymbols(base.symbols, ChangedPaths(changes))) && UniqueKeys(Heads(parser, changes))
    ensures (forall r: Edge :: AtMostOnce(o.graph.edges, r)) <==>
      && NoneTwice(HeadEdges(parser, changes))
      && OneOrigin(base, ChangedPaths(changes), Heads(parser, changes))
      && NoneFoundAgain(base, ChangedPaths(changes), Heads(parser, changes), HeadEdges(parser, changes))
  {
    var changed, heads, found := ChangedPaths(changes), Heads(parser, changes), HeadEdges(parser, changes);
    GivenOnceIff(base, changed, heads, found);
    forall r: Edge ensures AtMostOnce(o.graph.edges, r) <==> GivenOnce(base, changed, heads, found, r) {
      EdgeCounts(base, changes, parser, o, r);
    }
  }

  // One symbol kept across a change, and one call that the change removed or left.
  const RUN := Symbol(1, "a.go", "function", "run", "", 1, 9)
  const LOG := Symbol(2, "b.go", "function", "log", "", 1, 3)
  const CALL := Edge(1, 2, "", "calls")
  const CHANGE := ChangedFile("a.go", "sha", "", false)

  /** The file without the call. */
  function RunOnly(c: ChangedFile): Result<Parsed> {
    Success(Parsed([RUN], []))
  }

  lemma {:induction false} ExampleBase(symbols: seq<Symbol>, changed: set<string>)
    requires symbols == [RUN, LOG] && changed == {"a.go"}
    ensures ByKey(symbols, changed) == map[SymbolKey(RUN) := RUN] && RemovedIds(symbols, changed) == {1}
  {
    assert symbols[..1] == [RUN] && [RUN][..0] == [];
    assert ByKey([RUN], changed) == map[SymbolKey(RUN) := RUN] && RemovedIds([RUN], changed) == {1};
  }

  lemma {:induction false} ExampleHead(changes: seq<ChangedFile>)
    requires changes == [CHANGE]
    ensures Heads(RunOnly, changes) == [RUN.(id := -1)] && HeadEdges(RunOnly, changes) == [] &&
      AllParse(RunOnly, changes)
    ensures ChangedPaths(changes) == {"a.go"}
  {
    assert changes[..0] == [];
    assert changes[0].path in ChangedPaths(changes);
  }

  /** The file as it was. */
  function RunAndCall(c: ChangedFile): Result<Parsed> {
    Success(Parsed([RUN], [CALL]))
  }

  const LOST := Edge(1, 99, "", "calls")

  /** The file with a call of a symbol that is nowhere. */
  function RunAndLost(c: ChangedFile): Result<Parsed> {
    Success(Parsed([RUN], [LOST]))
  }

  lemma {:induction false} ExampleHeadWithLost(changes: seq<ChangedFile>)
    requires changes == [CHANGE]
    ensures HeadEdges(RunAndLost, changes) == [LOST.(source := -1)] && AllParse(RunAndLost, changes)
    ensures Heads(RunAndLost, changes) == [RUN.(id := -1)] && ChangedPaths(changes) == {"a.go"}
  {
    assert changes[..0] == [];
    assert changes[0].path in ChangedPaths(changes);
    assert [RUN][..0] == [];
    assert MappedId([RUN], 0, 1) == -1 && MappedId([RUN], 0, 99) == 0;
    assert Remapped([RUN], 0, [LOST]) == [LOST.(source := -1)];
    assert Heads(RunAndLost, changes[..0]) == [] && HeadEdges(RunAndLost, changes[..0]) == [];
    assert [] + [LOST.(source := -1)] == [LOST.(source := -1)];
  }

  lemma {:induction false} ExampleKept(symbols: seq<Symbol>, changed: set<string>)
    requires symbols == [LOG] && changed == {"a.go"}
    ensures Kept(symbols, changed) == [LOG] && WellFormedBase(Snapshot(symbols, []))
  {
    assert symbols[..0] == [];
  }

  lemma NotClosed(g: Snapshot)
    requires g.symbols == [LOG] + [RUN.(id := -1)] && LOST.(source := -1) in g.edges
    ensures !Closed(g)
  {
    assert !HasId(g.symbols, 99);
  }

  /** A target that the parser makes up is passed through: the overlay ends at a symbol it does not have. */
  lemma {:induction false} OpenEdgeExample(o: Overlaid)
    requires IsOverlay(Snapshot([LOG], []), [CHANGE], RunAndLost, o)
    ensures AllParse(RunAndLost, [CHANGE]) && WellFormedBase(Snapshot([LOG], [])) && !Closed(o.graph)
  {
    ExampleHeadWithLost([CHANGE]);
    ExampleKept([LOG], {"a.go"});
    NotClosed(o.graph);
  }

  lemma ExampleRewired()
    ensures Rewired({1}, Replacements(map[SymbolKey(RUN) := RUN], [RUN.(id := -1)]), [CALL]) == [CALL.(source := -1)]
  {
    var head := RUN.(id := -1);
    assert [head][..0] == [] && SymbolKey(head) == SymbolKey(RUN);
    assert Replacements(map[SymbolKey(RUN) := RUN], [head]) == map[1 := -1];
    assert [CALL][..0] == [];
  }

  lemma StaleEdgeExample(o: Overlaid)
    requires IsOverlay(Snapshot([RUN, LOG], [CALL]), [CHANGE], RunOnly, o)
    ensures HeadEdges(RunOnly, [CHANGE]) == [] && o.graph.edges == [CALL.(source := -1)]
  {
    ExampleHead([CHANGE]);
    ExampleBase([RUN, LOG], {"a.go"});
    ExampleRewired();
  }

  lemma {:induction false} ExampleHeadWithCall(changes: seq<ChangedFile>)
    requires changes == [CHANGE]
    ensures Heads(RunAndCall, changes) == [RUN.(id := -1)] && HeadEdges(RunAndCall, changes) == [CALL.(source := -1)]
    ensures ChangedPaths(changes) == {"a.go"}
  {
    assert changes[..0] == [];
    assert changes[0].path in ChangedPaths(changes);
    assert [RUN][..0] == [];
    assert MappedId([RUN], 0, 1) == -1 && MappedId([RUN], 0, 2) == 0;
    assert Remapped([RUN], 0, [CALL]) == [CALL.(source := -1)];
    assert Heads(RunAndCall, changes[..0]) == [] && HeadEdges(RunAndCall, changes[..0]) == [];
    assert [] + [CALL.(source := -1)] == [CALL.(source := -1)];
  }

  /** Nothing is stale where the head still has the call, but the overlay shows it twice. */
  lemma EdgeTwiceExample(o: Overlaid)
    requires IsOverlay(Snapshot([RUN, LOG], [CALL]), [CHANGE], RunAndCall, o)
    ensures HeadEdges(RunAndCall, [CHANGE]) == [CALL.(source := -1)]
    ensures o.graph.edges == [CALL.(source := -1), CALL.(source := -1)]
  {
    ExampleHeadWithCall([CHANGE]);
    ExampleBase([RUN, LOG], {"a.go"});
    ExampleRewired();
  }

  // ---- What BuildOverlay refuses ----

  /** A change without a path, one without a blob that is not a deletion, or a path given twice. */
  lemma ChangesRefusedIff(changes: seq<ChangedFile>)
    ensures !ValidChanges(changes) <==>
      || (exists c :: c in changes && (c.path == "" || (!c.deleted && c.blobSHA == "")))
      || (exists i, j :: 0 <= i < j < |changes| && changes[i].path == changes[j].path)
  {
    if c :| c in changes && (c.path == "" || (!c.deleted && c.blobSHA == "")) {
      var i :| 0 <= i < |changes| && changes[i] == c;
      assert !ValidChange(changes[i]);
    }
    if i :| 0 <= i < |changes| && !ValidChange(changes[i]) { assert changes[i] in changes; }
  }

  /** A symbol that is not numbered, of another file, or without kind or name; or a number given twice. */
  ghost predicate BadSymbols(c: ChangedFile, symbols: seq<Symbol>) {
    || (exists s :: s in symbols && (s.id <= 0 || s.path != c.path || s.kind == "" || s.name == ""))
    || (exists i, j :: 0 <= i < j < |symbols| && symbols[i].id == symbols[j].id)
  }

  /** An edge that starts at no symbol of the file, or that has neither target nor name. */
  ghost predicate BadEdge(symbols: seq<Symbol>, e: Edge) {
    !HasId(symbols, e.source) || (!HasId(symbols, e.target) && e.target == 0 && e.name == "")
  }

  lemma BadEdgeIff(symbols: seq<Symbol>, e: Edge)
    ensures BadEdge(symbols, e) <==> !ValidEdge(symbols, e)
  {
    MappedIff(symbols, 0, e.source);
    MappedIff(symbols, 0, e.target);
  }

  lemma BadSymbolsIff(c: ChangedFile, symbols: seq<Symbol>)
    ensures BadSymbols(c, symbols) <==> !ValidSymbols(c, symbols)
  {
    if s :| s in symbols && (s.id <= 0 || s.path != c.path || s.kind == "" || s.name == "") {
      var i :| 0 <= i < |symbols| && symbols[i] == s;
      assert !ValidSymbol(c, symbols[i]);
    }
    if i :| 0 <= i < |symbols| && !ValidSymbol(c, symbols[i]) { assert symbols[i] in symbols; }
  }

  /** A file that is not deleted, and whose parse fails or holds a bad symbol or edge. */
  lemma ParseRefusedIff(parser: HeadParser, c: ChangedFile)
    ensures !ParsesWell(parser, c) <==>
      !c.deleted && (parser(c).Failure? || BadSymbols(c, parser(c).value.symbols) ||
        exists e :: e in parser(c).value.edges && BadEdge(parser(c).value.symbols, e))
  {
    if parser(c).Success? {
      var p := parser(c).value;
      BadSymbolsIff(c, p.symbols);
      forall e ensures BadEdge(p.symbols, e) <==> !ValidEdge(p.symbols, e) { BadEdgeIff(p.symbols, e); }
      if e :| e in p.edges && BadEdge(p.symbols, e) {
        var k :| 0 <= k < |p.edges| && p.edges[k] == e;
        assert !ValidEdge(p.symbols, p.edges[k]);
      }
      if k :| 0 <= k < |p.edges| && !ValidEdge(p.symbols, p.edges[k]) { assert p.edges[k] in p.edges; }
    }
  }

  // ---- The head symbols ----

  /** A symbol that the parser gives for a file that is not deleted. */
  ghost predicate ParsedSymbol(parser: HeadParser, changes: seq<ChangedFile>, s: Symbol) {
    exists c :: c in changes && !c.deleted && parser(c).Success? && s in parser(c).value.symbols
  }

  /** The head symbol is this parsed symbol under a new number. */
  predicate Renamed(h: Symbol, s: Symbol) { h == s.(id := h.id) }

  ghost predicate HasHead(heads: seq<Symbol>, s: Symbol) { exists h :: h in heads && Renamed(h, s) }

  ghost predicate HasParsed(parser: HeadParser, changes: seq<ChangedFile>, h: Symbol) {
    exists s :: ParsedSymbol(parser, changes, s) && Renamed(h, s)
  }

  lemma RenumberedAre(symbols: seq<Symbol>, offset: nat)
    ensures forall s :: s in symbols ==> HasHead(Renumber(symbols, offset), s)
    ensures forall h :: h in Renumber(symbols, offset) ==> exists s :: s in symbols && Renamed(h, s)
  {
    var r := Renumber(symbols, offset);
    forall s | s in symbols ensures HasHead(r, s) {
      var k :| 0 <= k < |symbols| && symbols[k] == s;
      assert r[k] in r && Renamed(r[k], s);
    }
    forall h | h in r ensures exists s :: s in symbols && Renamed(h, s) {
      var k :| 0 <= k < |r| && r[k] == h;
      assert symbols[k] in symbols && Renamed(h, symbols[k]);
    }
  }

  lemma ParsedAmong(parser: HeadParser, changes: seq<ChangedFile>, s: Symbol)
    requires changes != []
    ensures ParsedSymbol(parser, changes, s) <==>
      ParsedSymbol(parser, changes[..|changes| - 1], s) || s in ParsedOf(parser, changes[|changes| - 1]).symbols
  {
    var init, last := changes[..|changes| - 1], changes[|changes| - 1];
    assert changes == init + [last];
    if s in ParsedOf(parser, last).symbols { assert last in changes; }
    if c :| c in init && !c.deleted && parser(c).Success? && s in parser(c).value.symbols { assert c in changes; }
  }

  lemma {:induction false} EveryParsedHasHead(parser: HeadParser, changes: seq<ChangedFile>, s: Symbol)
    requires ParsedSymbol(parser, changes, s)
    ensures HasHead(Heads(parser, changes), s)
    decreases |changes|
  {
    var init, last := changes[..|changes| - 1], ParsedOf(parser, changes[|changes| - 1]);
    var before := Heads(parser, init);
    ParsedAmong(parser, changes, s);
    if ParsedSymbol(parser, init, s) {
      EveryParsedHasHead(parser, init, s);
      var h :| h in before && Renamed(h, s);
      assert h in Heads(parser, changes);
    } else {
      RenumberedAre(last.symbols, |before|);
      var h :| h in Renumber(last.symbols, |before|) && Renamed(h, s);
      assert h in Heads(parser, changes);
    }
  }

  lemma {:induction false} EveryHeadIsParsed(parser: HeadParser, changes: seq<ChangedFile>, h: Symbol)
    requires h in Heads(parser, changes)
    ensures HasParsed(parser, changes, h)
    decreases |changes|
  {
    var init, last := changes[..|changes| - 1], ParsedOf(parser, changes[|changes| - 1]);
    var before := Heads(parser, init);
    var s: Symbol;
    if h in before {
      EveryHeadIsParsed(parser, init, h);
      s :| ParsedSymbol(parser, init, s) && Renamed(h, s);
    } else {
      RenumberedAre(last.symbols, |before|);
      s :| s in last.symbols && Renamed(h, s);
    }
    ParsedAmong(parser, changes, s);
  }

  /** The head symbols are the symbols the parser gives for the files that are not deleted, under new numbers. */
  lemma {:induction false} HeadsAreParsed(parser: HeadParser, changes: seq<ChangedFile>)
    ensures forall s :: ParsedSymbol(parser, changes, s) ==> HasHead(Heads(parser, changes), s)
    ensures forall h :: h in Heads(parser, changes) ==> HasParsed(parser, changes, h)
  {
    forall s | ParsedSymbol(parser, changes, s) ensures HasHead(Heads(parser, changes), s) {
      EveryParsedHasHead(parser, changes, s);
    }
    forall h | h in Heads(parser, changes) ensures HasParsed(parser, changes, h) {
      EveryHeadIsParsed(parser, changes, h);
    }
  }
}
