/**
 Tools.Siblings (tools.go): up to the containing symbols and down again, with the limit applied while the children are
 collected into a map.
 */
module Siblings {
  import opened Wrappers
  import opened Order
  import opened Traversal

  const CONTAINS := ["contains"]

  function Up(edges: set<ToolEdge>): View { View(edges, Reverse, CONTAINS) }
  function Down(edges: set<ToolEdge>): View { View(edges, Forward, CONTAINS) }

  ghost predicate Contains(edges: set<ToolEdge>, parent: int, child: int) {
    exists e :: e in edges && e.kind == "contains" && e.source.id == parent && e.target.id == child
  }

  /**
   y is another symbol inside some symbol that contains x. Unlike traverse, Siblings also takes ids
   that are not positive.
   */
  ghost predicate IsSibling(edges: set<ToolEdge>, x: int, y: int) {
    y != x && exists parent :: Contains(edges, parent, x) && Contains(edges, parent, y)
  }

  /** The siblings by id, none twice: all of them, or as many as the limit allows. */
  ghost predicate SiblingAnswers(edges: set<ToolEdge>, x: int, limit: int, r: seq<ToolSymbol>) {
    && StrictlySortedBy(r, ById) && |r| <= limit
    && (forall s :: s in r ==> IsSibling(edges, x, s.id) && Stored(Down(edges), s))
    && (|r| < limit ==> forall y :: IsSibling(edges, x, y) ==> exists s :: s in r && s.id == y)
  }

  ghost predicate IsTarget(found: seq<ToolEdge>, n: nat, y: int)
    requires n <= |found|
  {
    exists k :: 0 <= k < n && found[k].target.id == y
  }

  /** After n edges: their targets other than x, unless the limit has been met. */
  ghost predicate Gathered(found: seq<ToolEdge>, n: nat, x: int, limit: int, result: map<int, ToolSymbol>) {
    && n <= |found| && |result| <= limit
    && (forall y :: y in result ==> result[y].id == y && y != x)
    && (forall y :: y in result ==> exists k :: 0 <= k < n && found[k].target == result[y])
    && (|result| < limit ==> forall y :: y != x && IsTarget(found, n, y) ==> y in result)
  }

  lemma TargetNext(found: seq<ToolEdge>, n: nat, y: int)
    requires n < |found|
    ensures IsTarget(found, n + 1, y) <==> IsTarget(found, n, y) || y == found[n].target.id
  {
    if y == found[n].target.id { assert found[n].target.id == y; }
  }

  lemma OneMoreKey(result: map<int, ToolSymbol>, t: ToolSymbol)
    ensures |result| <= |result[t.id := t]| <= |result| + 1
  {
    assert result[t.id := t].Keys == result.Keys + {t.id};
    if t.id in result { assert result.Keys + {t.id} == result.Keys; }
  }

  lemma GatherNext(found: seq<ToolEdge>, n: nat, x: int, limit: int, result: map<int, ToolSymbol>)
    requires n < |found| && Gathered(found, n, x, limit, result)
    ensures var t := found[n].target;
      Gathered(found, n + 1, x, limit, if t.id != x && |result| < limit then result[t.id := t] else result)
  {
    var t := found[n].target;
    OneMoreKey(result, t);
    forall y ensures IsTarget(found, n + 1, y) <==> IsTarget(found, n, y) || y == t.id { TargetNext(found, n, y); }
  }

  method Gather(found: seq<ToolEdge>, x: int, limit: int) returns (result: map<int, ToolSymbol>)
    requires limit >= 0
    ensures Gathered(found, |found|, x, limit, result)
  {
    result := map[];
    for n := 0 to |found|
      invariant Gathered(found, n, x, limit, result)
    {
      GatherNext(found, n, x, limit, result);
      var t := found[n].target;
      if t.id != x && |result| < limit { result := result[t.id := t]; }
    }
  }

  method SourceIds(found: seq<ToolEdge>) returns (ids: seq<int>)
    ensures IsSources(found, ids)
  {
    ids := [];
    for k := 0 to |found|
      invariant |ids| == k && forall j :: 0 <= j < k ==> ids[j] == found[j].source.id
    {
      ids := ids + [found[k].source.id];
    }
  }

  /** Every containing symbol is among the parents found, and nothing else. */
  lemma ParentsFound(edges: set<ToolEdge>, x: int, found: seq<ToolEdge>, ids: seq<int>, p: int)
    requires forall e :: e in found <==> Matches(Up(edges), [x], e)
    requires |ids| == |found| && forall k :: 0 <= k < |ids| ==> ids[k] == found[k].source.id
    ensures p in ids <==> Contains(edges, p, x)
  {
    if p in ids {
      var k :| 0 <= k < |ids| && ids[k] == p;
      assert found[k] in found;
    }
    if e :| e in edges && e.kind == "contains" && e.source.id == p && e.target.id == x {
      assert e in found;
      var k :| 0 <= k < |found| && found[k] == e;
      assert ids[k] == p;
    }
  }

  lemma ChildrenFound(edges: set<ToolEdge>, x: int, ids: seq<int>, found: seq<ToolEdge>, y: int)
    requires forall p :: p in ids <==> Contains(edges, p, x)
    requires forall e :: e in found <==> Matches(Down(edges), ids, e)
    requires y != x
    ensures IsTarget(found, |found|, y) <==> IsSibling(edges, x, y)
  {
    if IsTarget(found, |found|, y) {
      var k :| 0 <= k < |found| && found[k].target.id == y;
      assert found[k] in found;
      assert Contains(edges, found[k].source.id, y);
    }
    if IsSibling(edges, x, y) {
      var p :| Contains(edges, p, x) && Contains(edges, p, y);
      var e :| e in edges && e.kind == "contains" && e.source.id == p && e.target.id == y;
      assert e in found;
      var k :| 0 <= k < |found| && found[k] == e;
    }
  }

  lemma GatheredAnswers(edges: set<ToolEdge>, x: int, limit: int, ids: seq<int>, found: seq<ToolEdge>,
                        result: map<int, ToolSymbol>, r: seq<ToolSymbol>)
    requires forall p :: p in ids <==> Contains(edges, p, x)
    requires forall e :: e in found <==> Matches(Down(edges), ids, e)
    requires Gathered(found, |found|, x, limit, result)
    requires StrictlySortedBy(r, ById) && |r| == |result| && forall s :: s in r <==> s.id in result && result[s.id] == s
    ensures SiblingAnswers(edges, x, limit, r)
  {
    forall s | s in r ensures IsSibling(edges, x, s.id) && Stored(Down(edges), s) {
      var k :| 0 <= k < |found| && found[k].target == s;
      assert found[k] in found;
      ChildrenFound(edges, x, ids, found, s.id);
    }
    forall y | |r| < limit && IsSibling(edges, x, y) ensures exists s :: s in r && s.id == y {
      ChildrenFound(edges, x, ids, found, y);
      assert result[y] in r;
    }
  }

  lemma NoParents(edges: set<ToolEdge>, x: int, limit: int)
    requires limit >= 0 && forall p :: !Contains(edges, p, x)
    ensures SiblingAnswers(edges, x, limit, [])
  {}

  /** Whatever the reader answers is all matching edges, in either direction. */
  ghost predicate BothHonest(reader: Reader, q: ToolQuery, edges: set<ToolEdge>) {
    Honest(reader, q, Up(edges)) && Honest(reader, q, Down(edges))
  }

  /** The reader fails on the way up, or on the way down if there is one. */
  ghost predicate ReaderFails(reader: Reader, q: ToolQuery) {
    var up := reader(q.installation, q.repository, [q.symbol], Reverse, ["contains"]);
    up.Failure? || (up.value != [] &&
      exists ids :: IsSources(up.value, ids) &&
        reader(q.installation, q.repository, ids, Forward, ["contains"]).Failure?)
  }

  ghost predicate IsSources(found: seq<ToolEdge>, ids: seq<int>) {
    |ids| == |found| && forall k :: 0 <= k < |ids| ==> ids[k] == found[k].source.id
  }

  lemma OneSources(found: seq<ToolEdge>, a: seq<int>, b: seq<int>)
    requires IsSources(found, a) && IsSources(found, b)
    ensures a == b
  {}

  method SearchSiblings(reader: Reader, q: ToolQuery, ghost edges: set<ToolEdge>) returns (r: Result<seq<ToolSymbol>>)
    requires q.limit >= 1
    ensures BothHonest(reader, q, edges) && r.Success? ==> SiblingAnswers(edges, q.symbol, q.limit, r.value)
    ensures r.Failure? <==> ReaderFails(reader, q)
  {
    var parents := reader(q.installation, q.repository, [q.symbol], Reverse, CONTAINS);
    if parents.Failure? {
      return Failure(parents.reason);
    }
    var ids := SourceIds(parents.value);
    forall other | IsSources(parents.value, other) ensures other == ids { OneSources(parents.value, other, ids); }
    ghost var honest := BothHonest(reader, q, edges);
    forall p | honest ensures p in ids <==> Contains(edges, p, q.symbol) {
      ParentsFound(edges, q.symbol, parents.value, ids, p);
    }
    if |ids| == 0 {
      if honest { NoParents(edges, q.symbol, q.limit); }
      return Success([]);
    }
    var children := reader(q.installation, q.repository, ids, Forward, CONTAINS);
    if children.Failure? {
      return Failure(children.reason);
    }
    var result := Gather(children.value, q.symbol, q.limit);
    var sorted := SortedToolSymbols(result);
    if honest { GatheredAnswers(edges, q.symbol, q.limit, ids, children.value, result, sorted); }
    r := Success(sorted);
  }

  /** Siblings: an invalid query is refused; otherwise the other symbols inside whatever contains the symbol. */
  method FindSiblings(reader: Option<Reader>, query: ToolQuery, ghost edges: set<ToolEdge>)
    returns (r: Result<seq<ToolSymbol>>)
    ensures var valid := Validated(reader.Some?, query);
      && (valid.Failure? ==> r.Failure?)
      && (valid.Success? ==> (r.Failure? <==> ReaderFails(reader.value, valid.value)))
      && (valid.Success? && BothHonest(reader.value, valid.value, edges) && r.Success? ==>
           SiblingAnswers(edges, query.symbol, valid.value.limit, r.value))
  {
    var valid := Validated(reader.Some?, query);
    if valid.Failure? {
      return Failure(valid.reason);
    }
    r := SearchSiblings(reader.value, valid.value, edges);
  }
}
