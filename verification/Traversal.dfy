/**
 The graph tools (tools.go): a breadth-first search over stored edges, bounded in depth and in results, and the
 validation of its queries.
 */
module Traversal {
  import opened Wrappers
  import opened Order

  datatype ToolSymbol = ToolSymbol(id: int, path: string, kind: string, name: string, signature: string)
  datatype ToolEdge = ToolEdge(source: ToolSymbol, target: ToolSymbol, kind: string)
  datatype Direction = Forward | Reverse
  datatype ToolQuery = ToolQuery(installation: int, repository: int, symbol: int, depth: int, limit: int)
  /** GraphReader.Neighbors: the stored edges at some symbols, or an error. */
  type Reader = (int, int, seq<int>, Direction, seq<string>) -> Result<seq<ToolEdge>>

  const MAX_DEPTH := 2
  const MAX_RESULTS := 250

  function Near(e: ToolEdge, d: Direction): ToolSymbol { if d.Reverse? then e.target else e.source }
  function Far(e: ToolEdge, d: Direction): ToolSymbol { if d.Reverse? then e.source else e.target }

  /** The stored edges, seen in one direction and through some kinds. */
  datatype View = View(edges: set<ToolEdge>, direction: Direction, kinds: seq<string>)

  predicate Matches(v: View, ids: seq<int>, e: ToolEdge) {
    e in v.edges && e.kind in v.kinds && Near(e, v.direction).id in ids
  }

  /** The reader returns all matching edges of the tenant's graph, in any order and any number of times. */
  ghost predicate Complete(reader: Reader, q: ToolQuery, v: View) {
    forall ids :: var answer := reader(q.installation, q.repository, ids, v.direction, v.kinds);
      answer.Success? && forall e :: e in answer.value <==> Matches(v, ids, e)
  }

  /** Whatever the reader answers is all matching edges, in any order and any number of times; it may fail. */
  ghost predicate Honest(reader: Reader, q: ToolQuery, v: View) {
    forall ids :: var answer := reader(q.installation, q.repository, ids, v.direction, v.kinds);
      answer.Success? ==> forall e :: e in answer.value <==> Matches(v, ids, e)
  }

  ghost predicate Hop(v: View, x: int, y: int) {
    && y > 0
    && exists e :: e in v.edges && e.kind in v.kinds && Near(e, v.direction).id == x && Far(e, v.direction).id == y
  }

  ghost predicate Route(v: View, path: seq<int>) {
    path != [] && forall k :: 0 <= k < |path| - 1 ==> Hop(v, path[k], path[k + 1])
  }

  /** y is at most d hops away from x, over symbols with positive ids. */
  ghost predicate Within(v: View, x: int, y: int, d: nat) {
    exists path :: Route(v, path) && |path| <= d + 1 && path[0] == x && path[|path| - 1] == y
  }

  lemma WithinZero(v: View, x: int, y: int)
    ensures Within(v, x, y, 0) <==> x == y
  {
    if x == y { assert Route(v, [x]); }
  }

  /** One hop further: reached before, or a hop away from something reached before. */
  lemma WithinStep(v: View, x: int, y: int, d: nat)
    ensures Within(v, x, y, d + 1) <==> Within(v, x, y, d) || exists m :: Within(v, x, m, d) && Hop(v, m, y)
  {
    if Within(v, x, y, d + 1) {
      var p :| Route(v, p) && |p| <= d + 2 && p[0] == x && p[|p| - 1] == y;
      if |p| == d + 2 {
        assert Route(v, p[..d + 1]);
        assert Hop(v, p[d], p[d + 1]);
        assert Within(v, x, p[d], d);
      }
    }
    if m :| Within(v, x, m, d) && Hop(v, m, y) {
      var p :| Route(v, p) && |p| <= d + 1 && p[0] == x && p[|p| - 1] == m;
      assert Route(v, p + [y]);
    }
    if Within(v, x, y, d) {
      var p :| Route(v, p) && |p| <= d + 1 && p[0] == x && p[|p| - 1] == y;
      assert |p| <= d + 2;
    }
  }

  // ---- The search ----

  /** After d rounds below the limit: everything within d hops is seen, and all but the frontier has been expanded. */
  ghost predicate Frontier(v: View, start: int, d: nat, seen: set<int>, frontier: seq<int>) {
    && (forall y :: y in seen <==> Within(v, start, y, d))
    && (forall x :: x in frontier ==> x in seen)
    && (forall x, y :: x in seen && x !in frontier && Hop(v, x, y) ==> y in seen)
  }

  /** The first n edges of a round have been looked at. */
  ghost predicate Expanding(v: View, before: set<int>, found: seq<ToolEdge>, n: nat, seen: set<int>, next: seq<int>)
    requires n <= |found|
  {
    && (forall y :: y in seen <==> y in before || y in next)
    && (forall y :: y in next ==> y > 0 && exists k :: 0 <= k < n && Far(found[k], v.direction).id == y)
    && (forall k :: 0 <= k < n && Far(found[k], v.direction).id > 0 ==> Far(found[k], v.direction).id in seen)
  }

  /** A complete round moves the frontier one hop on. */
  lemma RoundDone(v: View, start: int, d: nat, before: set<int>, frontier: seq<int>, found: seq<ToolEdge>,
                  seen: set<int>, next: seq<int>)
    requires Frontier(v, start, d, before, frontier)
    requires forall e :: e in found <==> Matches(v, frontier, e)
    requires Expanding(v, before, found, |found|, seen, next)
    ensures Frontier(v, start, d + 1, seen, next)
  {
    HopsOfFrontier(v, frontier, found);
    forall y ensures y in seen <==> Within(v, start, y, d + 1) {
      WithinStep(v, start, y, d);
      if m :| Within(v, start, m, d) && Hop(v, m, y) {
        if m in frontier { assert IsFar(v, found, y); }
      }
      if y in next && y !in before {
        assert IsFar(v, found, y);
        var x :| x in frontier && Hop(v, x, y);
        assert Within(v, start, x, d);
      }
    }
    forall x, y | x in seen && x !in next && Hop(v, x, y) ensures y in seen {
      if x in frontier { assert IsFar(v, found, y); }
    }
  }

  ghost predicate IsFar(v: View, found: seq<ToolEdge>, y: int) {
    y > 0 && exists k :: 0 <= k < |found| && Far(found[k], v.direction).id == y
  }

  /** The positive far ends of the edges found are exactly the hops of the frontier. */
  lemma HopsOfFrontier(v: View, frontier: seq<int>, found: seq<ToolEdge>)
    requires forall e :: e in found <==> Matches(v, frontier, e)
    ensures forall x, y :: x in frontier && Hop(v, x, y) ==> IsFar(v, found, y)
    ensures forall y :: IsFar(v, found, y) ==> exists x :: x in frontier && Hop(v, x, y)
  {
    forall x, y | x in frontier && Hop(v, x, y) ensures IsFar(v, found, y) {
      var e :| e in v.edges && e.kind in v.kinds && Near(e, v.direction).id == x && Far(e, v.direction).id == y;
      assert e in found;
    }
    forall y | IsFar(v, found, y) ensures exists x :: x in frontier && Hop(v, x, y) {
      var k :| 0 <= k < |found| && Far(found[k], v.direction).id == y;
      assert found[k] in found;
      assert Hop(v, Near(found[k], v.direction).id, y);
    }
  }

  /** With an empty frontier no number of further hops finds anything new. */
  lemma {:induction false} NothingBeyond(v: View, start: int, d: nat, more: nat, seen: set<int>)
    requires Frontier(v, start, d, seen, [])
    ensures forall y :: y in seen <==> Within(v, start, y, d + more)
    decreases more
  {
    if more == 0 {
    } else {
      NothingBeyond(v, start, d, more - 1, seen);
      forall y ensures y in seen <==> Within(v, start, y, d + more) { WithinStep(v, start, y, d + more - 1); }
    }
  }

  lemma {:induction false} WithinGrows(v: View, x: int, y: int, d: nat, e: nat)
    requires d <= e && Within(v, x, y, d)
    ensures Within(v, x, y, e)
  {
    var p :| Route(v, p) && |p| <= d + 1 && p[0] == x && p[|p| - 1] == y;
    assert |p| <= e + 1;
  }

  /** A stored symbol at the far end of an edge of the chosen kinds. */
  ghost predicate Stored(v: View, s: ToolSymbol) {
    exists e :: e in v.edges && e.kind in v.kinds && Far(e, v.direction) == s
  }

  /** What a round leaves behind: `next` is newly seen, everything newly seen has its symbol in the result. */
  ghost predicate RoundResult(v: View, before: set<int>, had: map<int, ToolSymbol>, found: seq<ToolEdge>, n: nat,
                              seen: set<int>, result: map<int, ToolSymbol>, next: seq<int>) {
    && n <= |found| && Expanding(v, before, found, n, seen, next)
    && (forall y :: y in result <==> y in had || (y in seen && y !in before))
    && (forall y :: y in result ==> Kept(had, y, result[y]) || Found(v, found, n, y, result[y]))
  }

  ghost predicate Kept(had: map<int, ToolSymbol>, y: int, s: ToolSymbol) {
    y in had && s == had[y]
  }

  ghost predicate Found(v: View, found: seq<ToolEdge>, n: nat, y: int, s: ToolSymbol)
    requires n <= |found|
  {
    s.id == y && exists k :: 0 <= k < n && Far(found[k], v.direction) == s
  }

  lemma Skip(v: View, before: set<int>, had: map<int, ToolSymbol>, found: seq<ToolEdge>, n: nat, seen: set<int>,
             result: map<int, ToolSymbol>, next: seq<int>)
    requires n < |found| && RoundResult(v, before, had, found, n, seen, result, next)
    requires Far(found[n], v.direction).id <= 0 || Far(found[n], v.direction).id in seen
    ensures RoundResult(v, before, had, found, n + 1, seen, result, next)
  {
    LaterFound(v, had, found, n, result);
  }

  lemma LaterFound(v: View, had: map<int, ToolSymbol>, found: seq<ToolEdge>, n: nat, result: map<int, ToolSymbol>)
    requires n < |found| && forall y :: y in result ==> Kept(had, y, result[y]) || Found(v, found, n, y, result[y])
    ensures forall y :: y in result ==> Kept(had, y, result[y]) || Found(v, found, n + 1, y, result[y])
  {}

  lemma Take(v: View, before: set<int>, had: map<int, ToolSymbol>, found: seq<ToolEdge>, n: nat, seen: set<int>,
             result: map<int, ToolSymbol>, next: seq<int>)
    requires n < |found| && (forall y :: y in had ==> y in before)
    requires RoundResult(v, before, had, found, n, seen, result, next)
    requires Far(found[n], v.direction).id > 0 && Far(found[n], v.direction).id !in seen
    ensures var s := Far(found[n], v.direction);
      RoundResult(v, before, had, found, n + 1, seen + {s.id}, result[s.id := s], next + [s.id]) &&
        |result[s.id := s]| == |result| + 1
  {
    var s := Far(found[n], v.direction);
    assert s.id !in result;
    TakeExpands(v, before, found, n, seen, next);
    TakeFound(v, had, found, n, result);
  }

  lemma TakeFound(v: View, had: map<int, ToolSymbol>, found: seq<ToolEdge>, n: nat, result: map<int, ToolSymbol>)
    requires n < |found| && forall y :: y in result ==> Kept(had, y, result[y]) || Found(v, found, n, y, result[y])
    ensures var s := Far(found[n], v.direction); var r := result[s.id := s];
      forall y :: y in r ==> Kept(had, y, r[y]) || Found(v, found, n + 1, y, r[y])
  {
    LaterFound(v, had, found, n, result);
    var s := Far(found[n], v.direction);
    assert Found(v, found, n + 1, s.id, s);
  }

  lemma TakeExpands(v: View, before: set<int>, found: seq<ToolEdge>, n: nat, seen: set<int>, next: seq<int>)
    requires n < |found| && Expanding(v, before, found, n, seen, next) && Far(found[n], v.direction).id > 0
    ensures var y := Far(found[n], v.direction).id; Expanding(v, before, found, n + 1, seen + {y}, next + [y])
  {}

  /** The inner loop: looks at the edges in the order they came and stops at the limit. */
  method Round(ghost v: View, direction: Direction, limit: int, found: seq<ToolEdge>, before: set<int>,
               had: map<int, ToolSymbol>)
    returns (seen: set<int>, result: map<int, ToolSymbol>, next: seq<int>, ghost looked: nat)
    requires v.direction == direction && (forall y :: y in had ==> y in before) && |had| < limit
    ensures RoundResult(v, before, had, found, looked, seen, result, next)
    ensures |result| <= limit && (|result| < limit ==> looked == |found|)
  {
    seen, result, next := before, had, [];
    looked := 0;
    for i := 0 to |found|
      invariant looked == i && RoundResult(v, before, had, found, i, seen, result, next) && |result| < limit
    {
      looked := i + 1;
      var symbol := Far(found[i], direction);
      if symbol.id <= 0 || symbol.id in seen {
        Skip(v, before, had, found, i, seen, result, next);
        continue;
      }
      Take(v, before, had, found, i, seen, result, next);
      seen, result, next := seen + {symbol.id}, result[symbol.id := symbol], next + [symbol.id];
      if |result| >= limit {
        break;
      }
    }
  }

  /** What is known between rounds: exact below the limit, a part of the truth at the limit. */
  ghost predicate Explored(v: View, start: int, d: nat, limit: int, seen: set<int>, result: map<int, ToolSymbol>,
                           frontier: seq<int>) {
    && |result| <= limit && Collects(start, seen, result)
    && AllWithin(v, start, d, seen)
    && AllStored(v, result)
    && AllNearer(v, start, d, seen)
    && (|result| < limit ==> Frontier(v, start, d, seen, frontier))
  }

  /** What has been seen, but for the start itself. */
  ghost predicate Collects(start: int, seen: set<int>, result: map<int, ToolSymbol>) {
    start in seen && forall y :: y in result <==> y in seen && y != start
  }

  ghost predicate AllWithin(v: View, start: int, d: nat, seen: set<int>) {
    forall y :: y in seen ==> Within(v, start, y, d)
  }

  /** Whatever is nearer than d hops has been seen. */
  ghost predicate AllNearer(v: View, start: int, d: nat, seen: set<int>) {
    d > 0 ==> forall y :: Within(v, start, y, d - 1) ==> y in seen
  }

  ghost predicate AllStored(v: View, result: map<int, ToolSymbol>) {
    forall y :: y in result ==> y > 0 && result[y].id == y && Stored(v, result[y])
  }

  lemma RoundCollects(v: View, start: int, before: set<int>, had: map<int, ToolSymbol>, found: seq<ToolEdge>,
                      looked: nat, seen: set<int>, result: map<int, ToolSymbol>, next: seq<int>)
    requires Collects(start, before, had) && RoundResult(v, before, had, found, looked, seen, result, next)
    ensures Collects(start, seen, result)
  {}

  lemma RoundExplores(v: View, start: int, d: nat, limit: int, before: set<int>, had: map<int, ToolSymbol>,
                      frontier: seq<int>, found: seq<ToolEdge>, looked: nat, seen: set<int>,
                      result: map<int, ToolSymbol>, next: seq<int>)
    requires Explored(v, start, d, limit, before, had, frontier) && |had| < limit
    requires forall e :: e in found <==> Matches(v, frontier, e)
    requires RoundResult(v, before, had, found, looked, seen, result, next)
    requires |result| <= limit && (|result| < limit ==> looked == |found|)
    ensures Explored(v, start, d + 1, limit, seen, result, next)
  {
    RoundReaches(v, start, d, before, frontier, found, looked, seen, next);
    RoundStored(v, frontier, found, looked, had, result, seen, next, before);
    RoundCollects(v, start, before, had, found, looked, seen, result, next);
    assert AllNearer(v, start, d + 1, seen);
    if |result| < limit { RoundDone(v, start, d, before, frontier, found, seen, next); }
  }

  lemma RoundStored(v: View, frontier: seq<int>, found: seq<ToolEdge>, looked: nat, had: map<int, ToolSymbol>,
                    result: map<int, ToolSymbol>, seen: set<int>, next: seq<int>, before: set<int>)
    requires AllStored(v, had)
    requires forall e :: e in found ==> Matches(v, frontier, e)
    requires RoundResult(v, before, had, found, looked, seen, result, next)
    ensures AllStored(v, result)
  {
    forall y | y in result ensures y > 0 && result[y].id == y && Stored(v, result[y]) {
      if !Kept(had, y, result[y]) {
        var k :| 0 <= k < looked && Far(found[k], v.direction) == result[y];
        assert found[k] in found;
        assert Matches(v, frontier, found[k]);
      }
    }
  }

  lemma RoundReaches(v: View, start: int, d: nat, before: set<int>, frontier: seq<int>, found: seq<ToolEdge>,
                     looked: nat, seen: set<int>, next: seq<int>)
    requires Frontier(v, start, d, before, frontier)
    requires forall e :: e in found <==> Matches(v, frontier, e)
    requires looked <= |found| && Expanding(v, before, found, looked, seen, next)
    ensures AllWithin(v, start, d + 1, seen)
  {
    HopsOfFrontier(v, frontier, found);
    forall y | y in seen ensures Within(v, start, y, d + 1) {
      WithinStep(v, start, y, d);
      if y !in before {
        assert IsFar(v, found, y);
        var x :| x in frontier && Hop(v, x, y);
        assert Within(v, start, x, d);
      }
    }
  }

  predicate ById(a: ToolSymbol, b: ToolSymbol) { a.id < b.id }

  /** sortedToolSymbols: the symbols of the map, met in any order, by id. */
  method SortedToolSymbols(symbols: map<int, ToolSymbol>) returns (r: seq<ToolSymbol>)
    requires forall y :: y in symbols ==> symbols[y].id == y
    ensures StrictlySortedBy(r, ById) && |r| == |symbols|
    ensures forall s :: s in r <==> s.id in symbols && symbols[s.id] == s
  {
    var list := ListSymbols(symbols);
    r := Sort(list, ById);
    ListSorted(symbols, list, r);
  }

  /** Ranging over the map: its entries are met in any order. */
  method ListSymbols(symbols: map<int, ToolSymbol>) returns (list: seq<ToolSymbol>)
    requires forall y :: y in symbols ==> symbols[y].id == y
    ensures Listed(symbols, {}, list)
  {
    list := [];
    var rest := symbols.Items;
    while rest != {}
      invariant Listed(symbols, rest, list)
    {
      var entry :| entry in rest;
      ListStep(symbols, rest, list, entry);
      list := list + [entry.1];
      rest := rest - {entry};
    }
  }

  /** The symbols of the entries that have been met, each once. */
  ghost predicate Listed(symbols: map<int, ToolSymbol>, rest: set<(int, ToolSymbol)>, list: seq<ToolSymbol>) {
    && (forall p :: p in rest ==> p in symbols.Items) && |list| + |rest| == |symbols|
    && (forall i :: 0 <= i < |list| ==>
      list[i].id in symbols && symbols[list[i].id] == list[i] && (list[i].id, list[i]) !in rest)
    && (forall y :: y in symbols && (y, symbols[y]) !in rest ==> symbols[y] in list)
    && (forall i, j :: 0 <= i < j < |list| ==> list[i].id != list[j].id)
  }

  lemma ListStep(symbols: map<int, ToolSymbol>, rest: set<(int, ToolSymbol)>, list: seq<ToolSymbol>,
                 entry: (int, ToolSymbol))
    requires Listed(symbols, rest, list) && entry in rest && forall y :: y in symbols ==> symbols[y].id == y
    ensures Listed(symbols, rest - {entry}, list + [entry.1])
  {
    assert entry.0 in symbols && symbols[entry.0] == entry.1 && entry.1.id == entry.0;
    assert forall i :: 0 <= i < |list| ==> list[i].id != entry.0;
  }

  lemma ListSorted(symbols: map<int, ToolSymbol>, list: seq<ToolSymbol>, r: seq<ToolSymbol>)
    requires Listed(symbols, {}, list) && SortedBy(r, ById) && multiset(r) == multiset(list)
    requires forall y :: y in symbols ==> symbols[y].id == y
    ensures StrictlySortedBy(r, ById) && |r| == |symbols|
    ensures forall s :: s in r <==> s.id in symbols && symbols[s.id] == s
  {
    assert |r| == |multiset(r)| == |multiset(list)| == |list|;
    forall i, j | 0 <= i < j < |list| ensures list[i] != list[j] { assert list[i].id != list[j].id; }
    DistinctMultiset(list, r);
    forall i, j | 0 <= i < j < |r| ensures ById(r[i], r[j]) {
      assert r[i] in list && r[j] in list && r[i] != r[j];
      assert !ById(r[j], r[i]);
    }
  }

  /** The answer to a query: everything within reach if there is room, and otherwise `limit` symbols of it. */
  ghost predicate Answers(v: View, start: int, depth: nat, limit: int, r: seq<ToolSymbol>) {
    && StrictlySortedBy(r, ById) && |r| <= limit
    && (forall s :: s in r ==> s.id > 0 && s.id != start && Within(v, start, s.id, depth) && Stored(v, s))
    && (|r| < limit ==> forall y :: y != start && Within(v, start, y, depth) ==> HasSymbol(r, y))
    && NearestFirst(v, start, r)
  }

  ghost predicate HasSymbol(r: seq<ToolSymbol>, y: int) { exists s :: s in r && s.id == y }

  /** What is nearer than something in the answer is in it as well. */
  ghost predicate NearestFirst(v: View, start: int, r: seq<ToolSymbol>) {
    forall s, y, d: nat :: s in r && !Within(v, start, s.id, d) && Within(v, start, y, d) && y != start ==>
      HasSymbol(r, y)
  }

  lemma AnswerFound(v: View, start: int, d: nat, depth: nat, limit: int, seen: set<int>, result: map<int, ToolSymbol>,
                    frontier: seq<int>, r: seq<ToolSymbol>)
    requires Explored(v, start, d, limit, seen, result, frontier)
    requires d <= depth && (d == depth || frontier == [] || |result| >= limit)
    requires StrictlySortedBy(r, ById) && |r| == |result| && forall s :: s in r <==> s.id in result && result[s.id] == s
    ensures Answers(v, start, depth, limit, r)
  {
    forall y | y in seen ensures Within(v, start, y, depth) { WithinGrows(v, start, y, d, depth); }
    if |r| < limit {
      if frontier == [] { NothingBeyond(v, start, d, depth - d, seen); }
      forall y | y != start && Within(v, start, y, depth) ensures HasSymbol(r, y) {
        assert result[y] in r;
      }
    }
    AnswerIsNearest(v, start, d, seen, result, r);
  }

  lemma AnswerIsNearest(v: View, start: int, d: nat, seen: set<int>, result: map<int, ToolSymbol>, r: seq<ToolSymbol>)
    requires Collects(start, seen, result) && AllWithin(v, start, d, seen) && AllNearer(v, start, d, seen)
    requires forall s :: s in r <==> s.id in result && result[s.id] == s
    requires forall y :: y in result ==> result[y].id == y
    ensures NearestFirst(v, start, r)
  {
    forall s, y, n: nat | s in r && !Within(v, start, s.id, n) && Within(v, start, y, n) && y != start
      ensures HasSymbol(r, y)
    {
      if d <= n {
        WithinGrows(v, start, s.id, d, n);
      } else {
        WithinGrows(v, start, y, n, d - 1);
        assert result[y] in r;
      }
    }
  }

  ghost predicate WellKeyed(seen: set<int>, result: map<int, ToolSymbol>) {
    forall y :: y in result ==> y in seen && result[y].id == y
  }

  lemma RoundKeyed(v: View, before: set<int>, had: map<int, ToolSymbol>, found: seq<ToolEdge>, n: nat,
                   seen: set<int>, result: map<int, ToolSymbol>, next: seq<int>)
    requires WellKeyed(before, had) && RoundResult(v, before, had, found, n, seen, result, next)
    ensures WellKeyed(seen, result)
  {}

  /** The reader has failed on ids, which are within reach of the query as far as the reader is right. */
  ghost predicate FailedAt(reader: Reader, q: ToolQuery, v: View, ids: seq<int>)
    requires q.depth >= 1
  {
    && ids != [] && reader(q.installation, q.repository, ids, v.direction, v.kinds).Failure?
    && (Honest(reader, q, v) ==> forall x :: x in ids ==> Within(v, q.symbol, x, q.depth - 1))
  }

  ghost predicate FailsAtStart(reader: Reader, q: ToolQuery, v: View) {
    reader(q.installation, q.repository, [q.symbol], v.direction, v.kinds).Failure?
  }

  lemma FailedInReach(reader: Reader, q: ToolQuery, v: View, depth: nat, seen: set<int>,
                      result: map<int, ToolSymbol>, frontier: seq<int>)
    requires depth < q.depth && frontier != [] && |result| < q.limit
    requires reader(q.installation, q.repository, frontier, v.direction, v.kinds).Failure?
    requires Honest(reader, q, v) ==> Explored(v, q.symbol, depth, q.limit, seen, result, frontier)
    ensures FailedAt(reader, q, v, frontier)
  {
    if Honest(reader, q, v) {
      forall x | x in frontier ensures Within(v, q.symbol, x, q.depth - 1) {
        WithinGrows(v, q.symbol, x, depth, q.depth - 1);
      }
    }
  }

  /** The search proper, for any depth and any positive limit. */
  method Search(reader: Reader, q: ToolQuery, direction: Direction, kinds: seq<string>, ghost v: View)
    returns (r: Result<seq<ToolSymbol>>)
    requires v.direction == direction && v.kinds == kinds && q.depth >= 1 && q.limit >= 1
    ensures Complete(reader, q, v) ==> r.Success?
    ensures Honest(reader, q, v) && r.Success? ==> Answers(v, q.symbol, q.depth, q.limit, r.value)
    ensures r.Failure? ==> exists ids :: FailedAt(reader, q, v, ids)
    ensures FailsAtStart(reader, q, v) ==> r.Failure?
  {
    var frontier := [q.symbol];
    var seen := {q.symbol};
    var result: map<int, ToolSymbol> := map[];
    var depth := 0;
    FirstFrontier(v, q.symbol, q.limit);
    while depth < q.depth && |frontier| > 0 && |result| < q.limit
      invariant 0 <= depth <= q.depth && WellKeyed(seen, result)
      invariant Honest(reader, q, v) ==> Explored(v, q.symbol, depth, q.limit, seen, result, frontier)
      invariant depth == 0 ==> frontier == [q.symbol] && result == map[]
      invariant depth > 0 ==> !FailsAtStart(reader, q, v)
      decreases q.depth - depth
    {
      var answer := reader(q.installation, q.repository, frontier, direction, kinds);
      if answer.Failure? {
        FailedInReach(reader, q, v, depth, seen, result, frontier);
        return Failure("query graph neighbors");
      }
      var seen', result', next, looked := Round(v, direction, q.limit, answer.value, seen, result);
      RoundKeyed(v, seen, result, answer.value, looked, seen', result', next);
      if Honest(reader, q, v) {
        RoundExplores(v, q.symbol, depth, q.limit, seen, result, frontier, answer.value, looked, seen', result', next);
      }
      seen, result, frontier := seen', result', next;
      depth := depth + 1;
    }
    var sorted := SortedToolSymbols(result);
    if Honest(reader, q, v) { AnswerFound(v, q.symbol, depth, q.depth, q.limit, seen, result, frontier, sorted); }
    r := Success(sorted);
  }

  lemma FirstFrontier(v: View, start: int, limit: int)
    requires limit >= 1
    ensures Explored(v, start, 0, limit, {start}, map[], [start])
  {
    forall y ensures Within(v, start, y, 0) <==> y == start { WithinZero(v, start, y); }
    var none: map<int, ToolSymbol> := map[];
  }

  /** validateToolQuery: fills in the defaults, or refuses. */
  function Validated(hasReader: bool, q: ToolQuery): (r: Result<ToolQuery>)
    ensures r.Success? <==>
      hasReader && q.installation > 0 && q.repository > 0 && q.symbol > 0 && 0 <= q.depth <= 2 &&
      0 <= q.limit <= 250
    ensures r.Success? ==> 1 <= r.value.depth <= 2 && 1 <= r.value.limit <= 250 && r.value.symbol == q.symbol
    ensures r.Success? && q.depth != 0 ==> r.value.depth == q.depth
    ensures r.Success? && q.limit != 0 ==> r.value.limit == q.limit
    ensures r.Success? && q.depth == 0 ==> r.value.depth == 1
    ensures r.Success? && q.limit == 0 ==> r.value.limit == 100
    ensures r.Success? ==> r.value.installation == q.installation && r.value.repository == q.repository
  {
    if !hasReader || q.installation <= 0 || q.repository <= 0 || q.symbol <= 0 then
      Failure("graph reader and tenant-scoped symbol are required")
    else
      var depth := if q.depth == 0 then 1 else q.depth;
      if depth < 1 || depth > MAX_DEPTH then Failure("graph depth out of range")
      else
        var limit := if q.limit == 0 then 100 else q.limit;
        if limit < 1 || limit > MAX_RESULTS then Failure("graph result limit out of range")
        else Success(q.(depth := depth, limit := limit))
  }

  /** traverse: an invalid query is refused; otherwise the symbols within reach, none of them twice, by id. */
  method Traverse(reader: Option<Reader>, query: ToolQuery, direction: Direction, kinds: seq<string>,
                  ghost edges: set<ToolEdge>)
    returns (r: Result<seq<ToolSymbol>>)
    ensures var valid, v := Validated(reader.Some?, query), View(edges, direction, kinds);
      && (valid.Failure? ==> r.Failure?)
      && (valid.Success? && Complete(reader.value, valid.value, v) ==> r.Success?)
      && (valid.Success? && Honest(reader.value, valid.value, v) && r.Success? ==>
           Answers(v, query.symbol, valid.value.depth, valid.value.limit, r.value))
      && (valid.Success? && r.Failure? ==> exists ids :: FailedAt(reader.value, valid.value, v, ids))
      && (valid.Success? && FailsAtStart(reader.value, valid.value, v) ==> r.Failure?)
  {
    var valid := Validated(reader.Some?, query);
    if valid.Failure? {
      return Failure(valid.reason);
    }
    r := Search(reader.value, valid.value, direction, kinds, View(edges, direction, kinds));
  }

  // ---- Directions ----

  /** A hop forward goes from the source of an edge of the kinds to its target, a hop in reverse the other way. */
  lemma HopIff(v: View, x: int, y: int)
    ensures v.direction == Forward ==> (Hop(v, x, y) <==>
      y > 0 && exists e :: e in v.edges && e.kind in v.kinds && e.source.id == x && e.target.id == y)
    ensures v.direction == Reverse ==> (Hop(v, x, y) <==>
      y > 0 && exists e :: e in v.edges && e.kind in v.kinds && e.target.id == x && e.source.id == y)
  {}

  /** The reader is asked for the edges of the kinds that begin, or in reverse end, at one of the symbols. */
  lemma MatchesIff(v: View, ids: seq<int>, e: ToolEdge)
    ensures Matches(v, ids, e) <==>
      e in v.edges && e.kind in v.kinds && (if v.direction == Forward then e.source.id else e.target.id) in ids
  {}

  lemma StoredIff(v: View, s: ToolSymbol)
    ensures v.direction == Forward ==> (Stored(v, s) <==>
      exists e :: e in v.edges && e.kind in v.kinds && e.target == s)
    ensures v.direction == Reverse ==> (Stored(v, s) <==>
      exists e :: e in v.edges && e.kind in v.kinds && e.source == s)
  {}
}
