/** One row per dashboard filter: RollupDayByDimension, and what its rows add up to. */
module RollupTheorems {
  import opened Wrappers
  import opened Order
  import opened Loops
  import opened JoinedKeys
  import opened Rollup

  /** An empty team or author stands for any. */
  datatype Dimension = Dimension(team: string, author: string)

  predicate Selected(d: Dimension, e: Event) {
    (d.team == "" || e.team == d.team) && (d.author == "" || e.author == d.author)
  }

  function Selecting(d: Dimension): Event -> bool {
    e => Selected(d, e)
  }

  /** The dimensions an event calls for: its team, its author, and both together. */
  predicate CallsFor(e: Event, d: Dimension) {
    (d.team != "" || d.author != "") && (d.team == "" || d.team == e.team) && (d.author == "" || d.author == e.author)
  }

  ghost predicate Called(events: seq<Event>, start: int, d: Dimension) {
    exists i :: 0 <= i < |events| && InDay(events[i], start) && CallsFor(events[i], d)
  }

  function SortKey(d: Dimension): string { d.team + "\0" + d.author }

  predicate KeyLess(a: Dimension, b: Dimension) { StrLess(SortKey(a), SortKey(b)) }

  function DimensionRow(installation: int, repository: int, start: int, events: seq<Event>, d: Dimension): Metrics {
    Row(installation, repository, start, Filter(Selecting(d), events)).(team := d.team, author := d.author)
  }

  // ---- RollupDayByDimension ----

  ghost predicate Collected(dimensions: set<Dimension>, events: seq<Event>, start: int) {
    forall d :: d in dimensions <==> Called(events, start, d)
  }

  function OwnDimensions(e: Event): (s: set<Dimension>)
    ensures forall d :: d in s <==> CallsFor(e, d)
  {
    (if e.team != "" then {Dimension(e.team, "")} else {}) +
    (if e.author != "" then {Dimension("", e.author)} else {}) +
    (if e.team != "" && e.author != "" then {Dimension(e.team, e.author)} else {})
  }

  lemma CalledNext(events: seq<Event>, start: int, i: nat, d: Dimension)
    requires i < |events|
    ensures Called(events[..i + 1], start, d) <==>
      Called(events[..i], start, d) || (InDay(events[i], start) && CallsFor(events[i], d))
  {
    assert events[..i + 1] == events[..i] + [events[i]];
    if Called(events[..i], start, d) {
      var k :| 0 <= k < i && InDay(events[..i][k], start) && CallsFor(events[..i][k], d);
      assert events[..i + 1][k] == events[..i][k];
    }
    assert events[..i + 1][i] == events[i];
  }

  method CollectDimensions(events: seq<Event>, start: int) returns (dimensions: set<Dimension>)
    ensures Collected(dimensions, events, start)
  {
    dimensions := {};
    for i := 0 to |events|
      invariant Collected(dimensions, events[..i], start)
    {
      var e := events[i];
      forall d
        ensures Called(events[..i + 1], start, d) <==>
          Called(events[..i], start, d) || (InDay(e, start) && CallsFor(e, d))
      {
        CalledNext(events, start, i, d);
      }
      if !InDay(e, start) { continue; }
      ghost var before := dimensions;
      if e.team != "" { dimensions := dimensions + {Dimension(e.team, "")}; }
      if e.author != "" { dimensions := dimensions + {Dimension("", e.author)}; }
      if e.team != "" && e.author != "" { dimensions := dimensions + {Dimension(e.team, e.author)}; }
      assert dimensions == before + OwnDimensions(e);
    }
    assert events[..|events|] == events;
  }

  ghost predicate Lists(keys: seq<Dimension>, dimensions: set<Dimension>) {
    && (forall d :: d in keys <==> d in dimensions)
    && (forall i, j :: 0 <= i < j < |keys| ==> keys[i] != keys[j])
  }

  method ListKeys(dimensions: set<Dimension>) returns (keys: seq<Dimension>)
    ensures Lists(keys, dimensions)
  {
    keys := [];
    var rest := dimensions;
    while rest != {}
      invariant rest <= dimensions && Lists(keys, dimensions - rest)
      decreases |rest|
    {
      var d :| d in rest;
      rest, keys := rest - {d}, keys + [d];
    }
    assert dimensions - rest == dimensions;
  }

  lemma KeyLessIsAnOrder()
    ensures StrictWeakOrder(KeyLess)
  {
    StrLessIsTotal();
    forall a, b, c | KeyLess(a, c) ensures KeyLess(a, b) || KeyLess(b, c) {
      assert StrLess(SortKey(a), SortKey(b)) || StrLess(SortKey(b), SortKey(c));
    }
  }

  /** The keys of the rows behind the overall row. */
  ghost predicate AreKeys(keys: seq<Dimension>, events: seq<Event>, start: int) {
    && SortedBy(keys, KeyLess)
    && (forall i, j :: 0 <= i < j < |keys| ==> keys[i] != keys[j])
    && (forall d :: d in keys <==> Called(events, start, d))
  }

  function DimensionRows(installation: int, repository: int, start: int, events: seq<Event>,
                         keys: seq<Dimension>): seq<Metrics> {
    seq(|keys|, i requires 0 <= i < |keys| => DimensionRow(installation, repository, start, events, keys[i]))
  }

  method SelectEvents(events: seq<Event>, key: Dimension) returns (selected: seq<Event>)
    ensures selected == Filter(Selecting(key), events)
  {
    selected := [];
    for i := 0 to |events|
      invariant selected == Filter(Selecting(key), events[..i])
    {
      FilterNext(Selecting(key), events, i);
      if (key.team == "" || events[i].team == key.team) && (key.author == "" || events[i].author == key.author) {
        selected := selected + [events[i]];
      }
    }
    assert events[..|events|] == events;
  }

  /** A selection of acceptable events is acceptable. */
  lemma {:induction false} SelectionAcceptable(installation: int, repository: int, p: Event -> bool, events: seq<Event>)
    requires Acceptable(installation, repository, events)
    ensures Acceptable(installation, repository, Filter(p, events))
  {
    if events == [] {
    } else {
      var init, last := events[..|events| - 1], events[|events| - 1];
      AcceptPrefix(installation, repository, events, |events| - 1);
      SelectionAcceptable(installation, repository, p, init);
      FilterWithin(p, init);
      forall i | 0 <= i < |Filter(p, init)| ensures Filter(p, init)[i].id != last.id {
        var e := Filter(p, init)[i];
        assert e in init;
        var k :| 0 <= k < |init| && init[k] == e;
        assert events[k].id != events[|events| - 1].id;
      }
    }
  }

  /** The row of one dimension. RollupDay cannot fail here, so the error return behind it in the source is dead. */
  method RollupDimension(installation: int, repository: int, day: int, events: seq<Event>, key: Dimension)
    returns (row: Metrics)
    requires installation > 0 && repository > 0 && day != 0 && Acceptable(installation, repository, events)
    ensures row == DimensionRow(installation, repository, UtcDay(day), events, key)
  {
    var selected := SelectEvents(events, key);
    SelectionAcceptable(installation, repository, Selecting(key), events);
    var r := RollupDay(installation, repository, day, selected);
    row := r.value.(team := key.team, author := key.author);
  }

  lemma DimensionRowsNext(installation: int, repository: int, start: int, events: seq<Event>, keys: seq<Dimension>,
                          i: nat)
    requires i < |keys|
    ensures DimensionRows(installation, repository, start, events, keys[..i + 1]) ==
            DimensionRows(installation, repository, start, events, keys[..i]) +
              [DimensionRow(installation, repository, start, events, keys[i])]
  {
    var row := (key: Dimension) => DimensionRow(installation, repository, start, events, key);
    assert DimensionRows(installation, repository, start, events, keys[..i + 1]) == Mapped(row, keys[..i + 1]);
    assert DimensionRows(installation, repository, start, events, keys[..i]) == Mapped(row, keys[..i]);
    assert Mapped(row, keys[..i + 1]) == Mapped(row, keys[..i]) + [row(keys[i])];
  }

  method SortedKeys(events: seq<Event>, start: int) returns (keys: seq<Dimension>)
    ensures AreKeys(keys, events, start)
  {
    var dimensions := CollectDimensions(events, start);
    var listed := ListKeys(dimensions);
    KeyLessIsAnOrder();
    keys := Sort(listed, KeyLess);
    DistinctMultiset(listed, keys);
  }

  /** The whole call: it fails exactly when the overall row fails, never on the row of a dimension. */
  method RollupDayByDimension(installation: int, repository: int, day: int, events: seq<Event>)
    returns (r: Result<seq<Metrics>>, ghost keys: seq<Dimension>)
    ensures r.Success? <==>
      installation > 0 && repository > 0 && day != 0 && Acceptable(installation, repository, events)
    ensures r.Success? ==>
              && AreKeys(keys, events, UtcDay(day))
              && r.value ==
                [Row(installation, repository, UtcDay(day), events)] +
                DimensionRows(installation, repository, UtcDay(day), events, keys)
  {
    keys := [];
    var base := RollupDay(installation, repository, day, events);
    if base.Failure? {
      return Failure(base.reason), keys;
    }
    var rows := [base.value];
    var sorted := SortedKeys(events, UtcDay(day));
    keys := sorted;
    for i := 0 to |sorted|
      invariant rows == [base.value] + DimensionRows(installation, repository, UtcDay(day), events, sorted[..i])
    {
      var row := RollupDimension(installation, repository, day, events, sorted[i]);
      rows := rows + [row];
      DimensionRowsNext(installation, repository, UtcDay(day), events, sorted, i);
    }
    assert sorted[..|sorted|] == sorted;
    r := Success(rows);
  }

  // ---- Counters add up ----

  /** How often the counter counts among the events of one dimension. */
  function CountFor(c: Counter, start: int, d: Dimension, events: seq<Event>): nat {
    Count(c, start, Filter(Selecting(d), events))
  }

  predicate OneFor(c: Counter, start: int, d: Dimension, e: Event) { Selected(d, e) && InDay(e, start) && Counts(c, e) }

  lemma CountForAppend(c: Counter, start: int, d: Dimension, events: seq<Event>, e: Event)
    ensures CountFor(c, start, d, events + [e]) == CountFor(c, start, d, events) +
      if OneFor(c, start, d, e) then 1 else 0
  {
    assert (events + [e])[..|events|] == events;
    if Selected(d, e) { CountNext(c, start, Filter(Selecting(d), events), e); }
  }

  /** The sum of a counter over the rows of one team's authors; team "" stands for the rows by author alone. */
  function SumOverAuthors(rows: seq<Metrics>, team: string, c: Counter): nat {
    if rows == [] then 0
    else
      var last := rows[|rows| - 1];
      SumOverAuthors(rows[..|rows| - 1], team, c) +
        if last.team == team && last.author != "" then CounterOf(last, c) else 0
  }

  /** The events of a team that name no author. */
  function Authorless(team: string): Event -> bool {
    (e: Event) => (team == "" || e.team == team) && e.author == ""
  }

  function CountAuthorless(c: Counter, start: int, team: string, events: seq<Event>): nat {
    Count(c, start, Filter(Authorless(team), events))
  }

  /** What one key adds to the sum. */
  function KeyCount(key: Dimension, team: string, c: Counter, start: int, events: seq<Event>): nat {
    if key.team == team && key.author != "" then CountFor(c, start, key, events) else 0
  }

  /** The same sum, taken over keys. */
  function SumOverKeys(keys: seq<Dimension>, team: string, c: Counter, start: int, events: seq<Event>): nat {
    if keys == [] then 0
    else SumOverKeys(keys[..|keys| - 1], team, c, start, events) + KeyCount(keys[|keys| - 1], team, c, start, events)
  }

  ghost predicate Fits(row: Metrics, key: Dimension, c: Counter, start: int, events: seq<Event>) {
    row.team == key.team && row.author == key.author && CounterOf(row, c) == CountFor(c, start, key, events)
  }

  lemma RowFits(installation: int, repository: int, start: int, events: seq<Event>, key: Dimension, c: Counter)
    ensures Fits(DimensionRow(installation, repository, start, events, key), key, c, start, events)
  {}

  lemma {:induction false} FittingSums(rows: seq<Metrics>, keys: seq<Dimension>, team: string, c: Counter, start: int,
                                       events: seq<Event>)
    requires |rows| == |keys| && forall i :: 0 <= i < |keys| ==> Fits(rows[i], keys[i], c, start, events)
    ensures SumOverAuthors(rows, team, c) == SumOverKeys(keys, team, c, start, events)
    decreases |keys|
  {
    if keys == [] {
    } else {
      FittingSums(rows[..|rows| - 1], keys[..|keys| - 1], team, c, start, events);
    }
  }

  lemma {:induction false} SumsAgree(installation: int, repository: int, start: int, events: seq<Event>,
                                     keys: seq<Dimension>, team: string, c: Counter)
    ensures SumOverAuthors(DimensionRows(installation, repository, start, events, keys), team, c) ==
      SumOverKeys(keys, team, c, start, events)
  {
    forall i | 0 <= i < |keys|
      ensures Fits(DimensionRows(installation, repository, start, events, keys)[i], keys[i], c, start, events)
    {
      RowFits(installation, repository, start, events, keys[i], c);
    }
    FittingSums(DimensionRows(installation, repository, start, events, keys), keys, team, c, start, events);
  }

  /** The event belongs to exactly this key, and counts. */
  predicate AddsTo(key: Dimension, team: string, c: Counter, start: int, e: Event) {
    key == Dimension(team, e.author) && e.author != "" && OneFor(c, start, key, e)
  }

  lemma KeyCountAppend(key: Dimension, team: string, c: Counter, start: int, events: seq<Event>, e: Event)
    ensures KeyCount(key, team, c, start, events + [e]) == KeyCount(key, team, c, start, events) +
      if AddsTo(key, team, c, start, e) then 1 else 0
  {
    CountForAppend(c, start, key, events, e);
  }

  /** One more event counts once in the sum, if some key is its team and author. */
  lemma {:induction false} SumOneMore(keys: seq<Dimension>, team: string, c: Counter, start: int, events: seq<Event>,
                                      e: Event)
    requires forall i, j :: 0 <= i < j < |keys| ==> keys[i] != keys[j]
    ensures SumOverKeys(keys, team, c, start, events + [e]) == SumOverKeys(keys, team, c, start, events) +
            if Dimension(team, e.author) in keys && AddsTo(Dimension(team, e.author), team, c, start, e) then 1 else 0
    decreases |keys|
  {
    if keys == [] {
    } else {
      var init, last := keys[..|keys| - 1], keys[|keys| - 1];
      SumOneMore(init, team, c, start, events, e);
      KeyCountAppend(last, team, c, start, events, e);
      var own := Dimension(team, e.author);
      assert own in keys <==> own in init || own == last;
      assert last !in init;
    }
  }

  /** The events called for are the keys the sum needs. */
  ghost predicate HasKeys(keys: seq<Dimension>, team: string, start: int, events: seq<Event>) {
    forall i :: 0 <= i < |events| && InDay(events[i], start) && (team == "" || events[i].team == team) ==>
                  events[i].author != "" ==> Dimension(team, events[i].author) in keys
  }

  lemma {:induction false} AuthorsAddUp(keys: seq<Dimension>, team: string, c: Counter, start: int, events: seq<Event>)
    requires forall i, j :: 0 <= i < j < |keys| ==> keys[i] != keys[j]
    requires HasKeys(keys, team, start, events)
    ensures CountFor(c, start, Dimension(team, ""), events) ==
      SumOverKeys(keys, team, c, start, events) + CountAuthorless(c, start, team, events)
    decreases |events|
  {
    if events == [] {
      NoEventsNoSum(keys, team, c, start);
    } else {
      var init, e := events[..|events| - 1], events[|events| - 1];
      assert events == init + [e];
      AuthorsAddUp(keys, team, c, start, init);
      SumOneMore(keys, team, c, start, init, e);
      CountForAppend(c, start, Dimension(team, ""), init, e);
      AuthorlessAppend(c, start, team, init, e);
    }
  }

  lemma AuthorlessAppend(c: Counter, start: int, team: string, events: seq<Event>, e: Event)
    ensures CountAuthorless(c, start, team, events + [e]) ==
            CountAuthorless(c, start, team, events) +
              if e.author == "" && OneFor(c, start, Dimension(team, ""), e) then 1 else 0
  {
    assert (events + [e])[..|events|] == events;
    if Authorless(team)(e) { CountNext(c, start, Filter(Authorless(team), events), e); }
  }

  lemma {:induction false} NoEventsNoSum(keys: seq<Dimension>, team: string, c: Counter, start: int)
    ensures SumOverKeys(keys, team, c, start, []) == 0
    decreases |keys|
  {
    if keys == [] {
    } else {
      NoEventsNoSum(keys[..|keys| - 1], team, c, start);
    }
  }

  /**
   Every counter of the overall row (team "") is the sum over the author rows plus the events without author, and every
   counter of a team's row is the sum over the rows of that team's authors plus the team's events without author.
   */
  lemma {:induction false} CountersAddUp(installation: int, repository: int, start: int, events: seq<Event>,
                                         keys: seq<Dimension>, team: string, c: Counter)
    requires AreKeys(keys, events, start)
    ensures CounterOf(DimensionRow(installation, repository, start, events, Dimension(team, "")), c) ==
            SumOverAuthors(DimensionRows(installation, repository, start, events, keys), team, c) +
              CountAuthorless(c, start, team, events)
    ensures CounterOf(DimensionRow(installation, repository, start, events, Dimension("", "")), c) ==
            CounterOf(Row(installation, repository, start, events), c)
  {
    forall i | 0 <= i < |events| && InDay(events[i], start) && (team == "" || events[i].team == team) &&
      events[i].author != ""
      ensures Dimension(team, events[i].author) in keys
    {
      assert CallsFor(events[i], Dimension(team, events[i].author));
    }
    AuthorsAddUp(keys, team, c, start, events);
    SumsAgree(installation, repository, start, events, keys, team, c);
    EveryoneSelected(events);
  }

  lemma {:induction false} EveryoneSelected(events: seq<Event>)
    ensures Filter(Selecting(Dimension("", "")), events) == events
  {
    if events == [] {
    } else {
      EveryoneSelected(events[..|events| - 1]);
      assert events == events[..|events| - 1] + [events[|events| - 1]];
    }
  }

  // ---- The order of the events does not matter ----

  lemma LatenciesPermuted(a: seq<Event>, b: seq<Event>)
    requires multiset(a) == multiset(b)
    ensures multiset(Latencies(a)) == multiset(Latencies(b))
  {
    var latency := (e: Event) => e.latency;
    assert Latencies(a) == Mapped(latency, a) && Latencies(b) == Mapped(latency, b);
    MappedPermuted(latency, a, b);
  }

  lemma RowPermuted(installation: int, repository: int, start: int, a: seq<Event>, b: seq<Event>)
    requires multiset(a) == multiset(b)
    ensures Row(installation, repository, start, a) == Row(installation, repository, start, b)
  {
    forall c: Counter ensures Count(c, start, a) == Count(c, start, b) { FilterPermuted(Wanted(c, start), a, b); }
    FilterPermuted(Wanted(Reviews, start), a, b);
    var x, y := Latencies(Filter(Wanted(Reviews, start), a)), Latencies(Filter(Wanted(Reviews, start), b));
    LatenciesPermuted(Filter(Wanted(Reviews, start), a), Filter(Wanted(Reviews, start), b));
    LessIsTotal();
    StableSortSorted(x, Less);
    StableSortSorted(y, Less);
    SortedUnique(StableSort(x, Less), StableSort(y, Less), Less);
  }

  lemma AcceptablePermuted(installation: int, repository: int, a: seq<Event>, b: seq<Event>)
    requires multiset(a) == multiset(b) && Acceptable(installation, repository, a)
    ensures Acceptable(installation, repository, b)
  {
    var from := Rearrangement(a, b);
    forall i | 0 <= i < |b| ensures Admitted(installation, repository, b[i]) { assert b[i] == a[from[i]]; }
    forall i, j | 0 <= i < j < |b| ensures b[i].id != b[j].id {
      assert from[i] != from[j];
      assert b[i] == a[from[i]] && b[j] == a[from[j]];
    }
  }

  lemma CalledPermuted(start: int, a: seq<Event>, b: seq<Event>, d: Dimension)
    requires multiset(a) == multiset(b) && Called(a, start, d)
    ensures Called(b, start, d)
  {
    var i :| 0 <= i < |a| && InDay(a[i], start) && CallsFor(a[i], d);
    assert a[i] in multiset(b);
    var j :| 0 <= j < |b| && b[j] == a[i];
  }

  /** No two dimensions that the events call for have one sort key. */
  ghost predicate KeysTellApart(events: seq<Event>, start: int) {
    forall d, e :: Called(events, start, d) && Called(events, start, e) && SortKey(d) == SortKey(e) ==> d == e
  }

  /** Where no team holds a NUL, the sort keys tell all dimensions apart. */
  lemma PlainTeamsTellApart(events: seq<Event>, start: int)
    requires forall e :: e in events ==> Plain(e.team)
    ensures KeysTellApart(events, start)
  {
    forall d | Called(events, start, d) ensures Plain(d.team) {
      var i :| 0 <= i < |events| && InDay(events[i], start) && CallsFor(events[i], d);
      assert events[i] in events;
    }
    forall d, e | Called(events, start, d) && Called(events, start, e) && SortKey(d) == SortKey(e) ensures d == e {
      KeysApart(d.team, d.author, e.team, e.author);
    }
  }

  lemma StrictKeys(start: int, events: seq<Event>, keys: seq<Dimension>)
    requires AreKeys(keys, events, start) && KeysTellApart(events, start)
    ensures StrictlySortedBy(keys, KeyLess)
  {
    StrLessIsTotal();
    forall i, j | 0 <= i < j < |keys| ensures KeyLess(keys[i], keys[j]) {
      assert keys[i] in keys && keys[j] in keys;
      assert SortKey(keys[i]) != SortKey(keys[j]);
    }
  }

  lemma OneKeyList(start: int, events: seq<Event>, k: seq<Dimension>, l: seq<Dimension>)
    requires AreKeys(k, events, start) && AreKeys(l, events, start) && KeysTellApart(events, start)
    ensures k == l
  {
    KeyLessIsAnOrder();
    StrictKeys(start, events, k);
    StrictKeys(start, events, l);
    StrictlySortedUnique(k, l, KeyLess);
  }

  ghost function CalledSet(events: seq<Event>, start: int): set<Dimension> {
    if events == [] then {}
    else
      var last := events[|events| - 1];
      CalledSet(events[..|events| - 1], start) + if InDay(last, start) then OwnDimensions(last) else {}
  }

  lemma {:induction false} CalledSetCollects(events: seq<Event>, start: int)
    ensures Collected(CalledSet(events, start), events, start)
  {
    if events == [] {
    } else {
      var n := |events| - 1;
      CalledSetCollects(events[..n], start);
      assert events[..n + 1] == events;
      forall d ensures d in CalledSet(events, start) <==> Called(events, start, d) { CalledNext(events, start, n, d); }
    }
  }

  lemma {:induction false} SomeList(dimensions: set<Dimension>) returns (list: seq<Dimension>)
    ensures Lists(list, dimensions)
    decreases |dimensions|
  {
    list := [];
    if dimensions == {} {
    } else {
      var d :| d in dimensions;
      var rest := SomeList(dimensions - {d});
      list := rest + [d];
    }
  }

  /** Some order of the keys is right. */
  lemma SomeKeys(events: seq<Event>, start: int) returns (keys: seq<Dimension>)
    ensures AreKeys(keys, events, start)
  {
    CalledSetCollects(events, start);
    var list := SomeList(CalledSet(events, start));
    KeyLessIsAnOrder();
    StableSortSorted(list, KeyLess);
    keys := StableSort(list, KeyLess);
    DistinctMultiset(list, keys);
  }

  /** Two keys that tie may change places. */
  lemma ExchangeTied(events: seq<Event>, start: int, keys: seq<Dimension>, i: nat, j: nat)
    requires AreKeys(keys, events, start) && i < j < |keys| && SortKey(keys[i]) == SortKey(keys[j])
    ensures AreKeys(keys[i := keys[j]][j := keys[i]], events, start) && keys[i := keys[j]][j := keys[i]] != keys
  {
    var other := keys[i := keys[j]][j := keys[i]];
    forall k | 0 <= k < |keys| ensures SortKey(other[k]) == SortKey(keys[k]) {}
    forall d ensures d in other <==> d in keys {
      if d in keys {
        var k :| 0 <= k < |keys| && keys[k] == d;
        assert other[if k == i then j else if k == j then i else k] == d;
      }
    }
    assert other[i] == keys[j];
  }

  lemma TwoOrders(events: seq<Event>, start: int) returns (k: seq<Dimension>, l: seq<Dimension>)
    requires !KeysTellApart(events, start)
    ensures AreKeys(k, events, start) && AreKeys(l, events, start) && k != l
  {
    var d, e :| Called(events, start, d) && Called(events, start, e) && SortKey(d) == SortKey(e) && d != e;
    k := SomeKeys(events, start);
    assert d in k && e in k;
    var i :| 0 <= i < |k| && k[i] == d;
    var j :| 0 <= j < |k| && k[j] == e;
    if i < j {
      ExchangeTied(events, start, k, i, j);
      l := k[i := k[j]][j := k[i]];
    } else {
      ExchangeTied(events, start, k, j, i);
      l := k[j := k[i]][i := k[j]];
    }
  }

  /** The order of the rows is determined if and only if the sort keys tell the dimensions apart. */
  lemma OneOrderIff(events: seq<Event>, start: int)
    ensures (forall k, l :: AreKeys(k, events, start) && AreKeys(l, events, start) ==> k == l) <==>
      KeysTellApart(events, start)
  {
    if KeysTellApart(events, start) {
      forall k, l | AreKeys(k, events, start) && AreKeys(l, events, start) ensures k == l {
        OneKeyList(start, events, k, l);
      }
    } else {
      var k, l := TwoOrders(events, start);
    }
  }

  /**
   If the sort keys tell the dimensions apart, the keys and with them all rows are the same for
   every order of the events.
   */
  lemma OrderOfEventsDoesNotMatter(installation: int, repository: int, start: int, a: seq<Event>, b: seq<Event>,
                                   keysA: seq<Dimension>, keysB: seq<Dimension>)
    requires multiset(a) == multiset(b) && AreKeys(keysA, a, start) && AreKeys(keysB, b, start)
    requires KeysTellApart(a, start)
    ensures Acceptable(installation, repository, a) <==> Acceptable(installation, repository, b)
    ensures Row(installation, repository, start, a) == Row(installation, repository, start, b)
    ensures DimensionRows(installation, repository, start, a, keysA) ==
      DimensionRows(installation, repository, start, b, keysB)
  {
    if Acceptable(installation, repository, a) { AcceptablePermuted(installation, repository, a, b); }
    if Acceptable(installation, repository, b) { AcceptablePermuted(installation, repository, b, a); }
    RowPermuted(installation, repository, start, a, b);
    forall d ensures Called(a, start, d) <==> Called(b, start, d) {
      if Called(a, start, d) { CalledPermuted(start, a, b, d); }
      if Called(b, start, d) { CalledPermuted(start, b, a, d); }
    }
    OneKeyList(start, a, keysA, keysB);
    forall i | 0 <= i < |keysA|
      ensures DimensionRow(installation, repository, start, a, keysA[i]) ==
        DimensionRow(installation, repository, start, b, keysA[i])
    {
      FilterPermuted(Selecting(keysA[i]), a, b);
      RowPermuted(installation, repository, start, Filter(Selecting(keysA[i]), a), Filter(Selecting(keysA[i]), b));
    }
  }

  // Two events whose names hold a NUL: team "a NUL b", and team "a" with author "b NUL".
  const FIRST := Event("1", 1, 1, "a\0b", "", Feedback, "", false, false, 0, 5)
  const SECOND := Event("2", 1, 1, "a", "b\0", Feedback, "", false, false, 0, 5)
  const TIED: seq<Dimension> := [Dimension("", "b\0"), Dimension("a", ""), Dimension("a\0b", ""), Dimension("a", "b\0")]
  const TIED_TOO: seq<Dimension> := [Dimension("", "b\0"), Dimension("a", ""), Dimension("a", "b\0"),
                                     Dimension("a\0b", "")]

  lemma TiedCalled(events: seq<Event>, d: Dimension)
    requires events == [FIRST, SECOND]
    ensures Called(events, 0, d) <==> d in TIED
  {
    assert InDay(events[0], 0) && InDay(events[1], 0);
    assert CallsFor(events[0], d) <==> d == Dimension("a\0b", "");
    assert CallsFor(events[1], d) <==>
      d == Dimension("a", "") || d == Dimension("", "b\0") || d == Dimension("a", "b\0");
  }

  lemma TiedSorted()
    ensures SortedBy(TIED, KeyLess)
  {
    assert SortKey(TIED[0]) == "\0b\0" && SortKey(TIED[1]) == "a\0" && SortKey(TIED[2]) == "a\0b\0" == SortKey(TIED[3]);
    StrLessIsTotal();
    assert "a\0"[1..] == "\0" && "a\0b\0"[1..] == "\0b\0";
    assert "\0"[1..] == "" && "\0b\0"[1..] == "b\0";
    assert StrLess("\0b\0", "a\0") && StrLess("a\0", "a\0b\0");
  }

  lemma TiedAreKeys(events: seq<Event>)
    requires events == [FIRST, SECOND]
    ensures AreKeys(TIED, events, 0)
  {
    TiedSorted();
    forall d ensures d in TIED <==> Called(events, 0, d) { TiedCalled(events, d); }
  }

  lemma TiedTwice(events: seq<Event>)
    requires events == [FIRST, SECOND]
    ensures AreKeys(TIED, events, 0) && AreKeys(TIED_TOO, events, 0)
  {
    TiedAreKeys(events);
    assert SortKey(TIED[2]) == SortKey(TIED[3]);
    ExchangeTied(events, 0, TIED, 2, 3);
    assert TIED[2 := TIED[3]][3 := TIED[2]] == TIED_TOO;
  }

  lemma TiedAcceptable(events: seq<Event>)
    requires events == [FIRST, SECOND]
    ensures Acceptable(1, 1, events)
  {
    assert Admitted(1, 1, FIRST) && Admitted(1, 1, SECOND) && FIRST.id != SECOND.id;
  }

  lemma TiedDiffer()
    ensures |TIED| == |TIED_TOO| == 4 && TIED[2] != TIED_TOO[2]
  {
    assert TIED[2].author == "" && TIED_TOO[2].author != "";
  }

  lemma RowsTellKeysApart(events: seq<Event>, k: seq<Dimension>, l: seq<Dimension>, i: nat)
    requires i < |k| == |l| && k[i] != l[i]
    ensures DimensionRows(1, 1, 0, events, k) != DimensionRows(1, 1, 0, events, l)
  {
    var a, b := DimensionRows(1, 1, 0, events, k)[i], DimensionRows(1, 1, 0, events, l)[i];
    assert Dimension(a.team, a.author) == k[i] && Dimension(b.team, b.author) == l[i];
  }

  /** For these two events there are two right orders of the rows, and sort.Slice may give either. */
  lemma NulExample(events: seq<Event>)
    requires events == [FIRST, SECOND]
    ensures Acceptable(1, 1, events) && AreKeys(TIED, events, 0) && AreKeys(TIED_TOO, events, 0)
    ensures DimensionRows(1, 1, 0, events, TIED) != DimensionRows(1, 1, 0, events, TIED_TOO)
  {
    TiedTwice(events);
    TiedAcceptable(events);
    TiedDiffer();
    RowsTellKeysApart(events, TIED, TIED_TOO, 2);
  }

  // ---- Rows by dimension in terms of the events ----

  /** The events that a dimension shows. */
  ghost function Shown(d: Dimension, which: Event -> bool): Event -> bool {
    e => which(e) && (d.team == "" || d.team == e.team) && (d.author == "" || d.author == e.author)
  }

  lemma {:induction false} SelectedIndices(p: Event -> bool, d: Dimension, q: Event -> bool, events: seq<Event>)
    requires forall e :: q(e) <==>
      p(e) && (d.team == "" || d.team == e.team) && (d.author == "" || d.author == e.author)
    ensures |Indices(p, Filter(Selecting(d), events))| == |Indices(q, events)|
  {
    FilterIndices(p, Filter(Selecting(d), events));
    FilterIndices(q, events);
    FilterTwice(p, Selecting(d), q, events);
  }

  /** A row by dimension counts what the overall row counts, among the events that the dimension shows. */
  lemma DimensionRowCounts(installation: int, repository: int, start: int, events: seq<Event>, d: Dimension)
    ensures var row := DimensionRow(installation, repository, start, events, d);
      && row.installation == installation && row.repository == repository && row.day == start
      && row.team == d.team && row.author == d.author
      && row.reviews == |Indices(Shown(d, OfDay(start, (e: Event) => e.kind == Review)), events)|
      && row.findings == |Indices(Shown(d, OfDay(start, (e: Event) => e.kind == Finding)), events)|
      && row.addressed == |Indices(Shown(d, OfDay(start, (e: Event) => e.kind == Finding && e.addressed)), events)|
      && row.downvoted == |Indices(Shown(d, OfDay(start, (e: Event) => e.kind == Finding && e.downvoted)), events)|
  {
    RowCounts(installation, repository, start, Filter(Selecting(d), events));
    var p := OfDay(start, (e: Event) => e.kind == Review);
    SelectedIndices(p, d, Shown(d, p), events);
    p := OfDay(start, (e: Event) => e.kind == Finding);
    SelectedIndices(p, d, Shown(d, p), events);
    p := OfDay(start, (e: Event) => e.kind == Finding && e.addressed);
    SelectedIndices(p, d, Shown(d, p), events);
    p := OfDay(start, (e: Event) => e.kind == Finding && e.downvoted);
    SelectedIndices(p, d, Shown(d, p), events);
  }

  /** Its median is that of the latencies of the reviews it counts. */
  lemma {:induction false} DimensionRowLatencies(start: int, events: seq<Event>, d: Dimension, l: int)
    ensures multiset(ReviewLatencies(start, Filter(Selecting(d), events)))[l] ==
      |Indices(Shown(d, OfDay(start, (e: Event) => e.kind == Review && e.latency == l)), events)|
  {
    RowLatencies(start, Filter(Selecting(d), events), l);
    var p := OfDay(start, (e: Event) => e.kind == Review && e.latency == l);
    SelectedIndices(p, d, Shown(d, p), events);
  }

  /** The event names the dimension: its team alone, its author alone, or both. */
  predicate Names(e: Event, d: Dimension) {
    || (d == Dimension(e.team, "") && e.team != "")
    || (d == Dimension("", e.author) && e.author != "")
    || (d == Dimension(e.team, e.author) && e.team != "" && e.author != "")
  }

  /** There is a row for each dimension that an event of the day names, and for no other. */
  lemma CalledIff(events: seq<Event>, start: int, d: Dimension)
    ensures Called(events, start, d) <==> exists e :: e in events && OnDay(e, start) && Names(e, d)
  {
    if i :| 0 <= i < |events| && InDay(events[i], start) && CallsFor(events[i], d) {
      assert events[i] in events && Names(events[i], d);
    }
    if e :| e in events && OnDay(e, start) && Names(e, d) {
      var i :| 0 <= i < |events| && events[i] == e;
      assert InDay(events[i], start) && CallsFor(events[i], d);
    }
  }

  /** Rows stand in the order of their teams, and those of one team in the order of their authors. */
  lemma RowsByTeamAndAuthor(a: Dimension, b: Dimension)
    requires Plain(a.team) && Plain(b.team)
    ensures KeyLess(a, b) <==> StrLess(a.team, b.team) || (a.team == b.team && StrLess(a.author, b.author))
  {
    KeyOrder(a.team, a.author, b.team, b.author);
  }
}
