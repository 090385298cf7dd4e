/** Daily metrics (internal/hosted/analytics/events.go). */
module Rollup {
  import opened Wrappers
  import opened Order
  import opened Loops

  // Instants and durations are in nanoseconds, instants counted from Go's zero time.

  datatype EventKind = Review | Finding | Feedback | Unknown(name: string)
  datatype Event = Event(id: string, installation: int, repository: int, team: string, author: string, kind: EventKind,
                         severity: string, addressed: bool, downvoted: bool, latency: int, occurredAt: int)
  datatype Metrics = Metrics(installation: int, repository: int, day: int, team: string, author: string,
                             reviews: nat, findings: nat, addressed: nat, downvoted: nat, median: int)

  const DAY := 24 * 60 * 60 * 1_000_000_000

  /** utcDay: the last midnight. */
  function UtcDay(t: int): int { t - t % DAY }

  predicate InDay(e: Event, start: int) { start <= e.occurredAt < start + DAY }

  predicate ValidEvent(e: Event) {
    && e.occurredAt != 0
    && match e.kind
       case Review => e.latency >= 0 && e.severity == "" && !e.addressed && !e.downvoted
       case Finding => e.latency == 0 && (e.severity == "P0" || e.severity == "P1" || e.severity == "P2")
       case Feedback => e.latency == 0 && e.severity == "" && !e.addressed
       case Unknown(_) => false
  }

  // ---- RollupDay ----

  datatype Counter = Reviews | Findings | Addressed | Downvoted

  predicate Counts(c: Counter, e: Event) {
    match c
    case Reviews => e.kind.Review?
    case Findings => e.kind.Finding?
    case Addressed => e.kind.Finding? && e.addressed
    case Downvoted => e.kind.Finding? && e.downvoted
  }

  function CounterOf(m: Metrics, c: Counter): nat {
    match c
    case Reviews => m.reviews
    case Findings => m.findings
    case Addressed => m.addressed
    case Downvoted => m.downvoted
  }

  function Wanted(c: Counter, start: int): Event -> bool {
    e => InDay(e, start) && Counts(c, e)
  }

  function Count(c: Counter, start: int, events: seq<Event>): nat {
    |Filter(Wanted(c, start), events)|
  }

  function Latencies(events: seq<Event>): seq<int> {
    seq(|events|, i requires 0 <= i < |events| => events[i].latency)
  }

  predicate Less(a: int, b: int) { a < b }

  /** Go's 64-bit addition wraps around, and its division truncates. */
  function Mean(a: int, b: int): int {
    var sum := (a + b + 0x8000_0000_0000_0000) % 0x1_0000_0000_0000_0000 - 0x8000_0000_0000_0000;
    if sum >= 0 then sum / 2 else -(-sum / 2)
  }

  /** Half the sum, rounded down; of a sum that overflows, half of what it wraps around to, rounded up. */
  ghost predicate IsMean(a: int, b: int, mean: int) {
    && (a + b < 0x8000_0000_0000_0000 ==> 2 * mean <= a + b <= 2 * mean + 1)
    && (a + b >= 0x8000_0000_0000_0000 ==> 2 * mean - 1 <= a + b - 0x1_0000_0000_0000_0000 <= 2 * mean)
  }

  /** The mean of two durations lies between them exactly as long as their sum does not overflow. */
  lemma MeanBetweenIff(a: int, b: int)
    requires 0 <= a <= b < 0x8000_0000_0000_0000
    ensures IsMean(a, b, Mean(a, b))
    ensures a <= Mean(a, b) <= b <==> a + b < 0x8000_0000_0000_0000
  {
    var whole := a + b + 0x8000_0000_0000_0000;
    if a + b < 0x8000_0000_0000_0000 {
      assert whole % 0x1_0000_0000_0000_0000 == whole;
    } else {
      assert whole % 0x1_0000_0000_0000_0000 == whole - 0x1_0000_0000_0000_0000;
    }
  }

  /** The middle of a sorted list; 0 if there is none. */
  function Middle(sorted: seq<int>): int {
    var m := |sorted| / 2;
    if sorted == [] then 0 else if |sorted| % 2 == 0 then Mean(sorted[m - 1], sorted[m]) else sorted[m]
  }

  function Median(latencies: seq<int>): int { Middle(StableSort(latencies, Less)) }

  /**
   The middle one of an odd number; the mean of the two middle ones of an even number, which lies between them
   exactly as long as their sum does not overflow.
   */
  ghost predicate InTheMiddle(sorted: seq<int>, median: int) {
    && sorted != []
    && (|sorted| % 2 == 1 ==> median == sorted[|sorted| / 2])
    && (|sorted| % 2 == 0 ==> IsMean(sorted[|sorted| / 2 - 1], sorted[|sorted| / 2], median))
    && (|sorted| % 2 == 0 ==>
         (sorted[|sorted| / 2 - 1] <= median <= sorted[|sorted| / 2] <==>
           sorted[|sorted| / 2 - 1] + sorted[|sorted| / 2] < 0x8000_0000_0000_0000))
  }

  ghost predicate Durations(latencies: seq<int>) {
    forall i :: 0 <= i < |latencies| ==> 0 <= latencies[i] < 0x8000_0000_0000_0000
  }

  lemma MiddleInTheMiddle(sorted: seq<int>)
    requires sorted != [] && SortedBy(sorted, Less) && Durations(sorted)
    ensures InTheMiddle(sorted, Middle(sorted))
  {
    var m := |sorted| / 2;
    if |sorted| % 2 == 0 {
      assert !Less(sorted[m], sorted[m - 1]);
      MeanBetweenIff(sorted[m - 1], sorted[m]);
    }
  }

  lemma {:induction false} SortedDurations(latencies: seq<int>)
    requires Durations(latencies)
    ensures SortedBy(StableSort(latencies, Less), Less) && Durations(StableSort(latencies, Less))
    ensures |StableSort(latencies, Less)| == |latencies|
  {
    var sorted := StableSort(latencies, Less);
    StableSortSorted(latencies, Less);
    assert |sorted| == |multiset(sorted)|;
    forall i | 0 <= i < |sorted| ensures 0 <= sorted[i] < 0x8000_0000_0000_0000 {
      assert sorted[i] in multiset(latencies);
    }
  }

  /** The events belong to the tenant, are valid, and no identifier occurs twice. */
  ghost predicate Acceptable(installation: int, repository: int, events: seq<Event>) {
    && (forall i :: 0 <= i < |events| ==> Admitted(installation, repository, events[i]))
    && DistinctIds(events)
  }

  predicate Admitted(installation: int, repository: int, e: Event) {
    e.id != "" && e.installation == installation && e.repository == repository && ValidEvent(e)
  }

  ghost predicate DistinctIds(events: seq<Event>) {
    forall i, j :: 0 <= i < j < |events| ==> events[i].id != events[j].id
  }

  /** The row that the events of a day make. */
  function Row(installation: int, repository: int, start: int, events: seq<Event>): Metrics {
    Metrics(installation, repository, start, "", "", Count(Reviews, start, events), Count(Findings, start, events),
            Count(Addressed, start, events), Count(Downvoted, start, events),
              Median(Latencies(Filter(Wanted(Reviews, start), events))))
  }

  /** The counters and latencies after n events. */
  ghost predicate Counted(result: Metrics, latencies: seq<int>, start: int, events: seq<Event>) {
    && (forall c: Counter :: CounterOf(result, c) == Count(c, start, events))
    && latencies == Latencies(Filter(Wanted(Reviews, start), events))
  }

  lemma LatenciesAppend(events: seq<Event>, e: Event)
    ensures Latencies(events + [e]) == Latencies(events) + [e.latency]
  {}

  lemma CountNext(c: Counter, start: int, done: seq<Event>, e: Event)
    ensures Count(c, start, done + [e]) == Count(c, start, done) + if InDay(e, start) && Counts(c, e) then 1 else 0
  {
    assert (done + [e])[..|done|] == done;
  }

  method CountEvent(e: Event, start: int, before: Metrics, had: seq<int>, ghost done: seq<Event>)
    returns (result: Metrics, latencies: seq<int>)
    requires Counted(before, had, start, done)
    ensures Counted(result, latencies, start, done + [e])
    ensures result ==
      before.(reviews := result.reviews, findings := result.findings, addressed := result.addressed,
              downvoted := result.downvoted)
  {
    assert (done + [e])[..|done|] == done;
    forall c: Counter
      ensures Count(c, start, done + [e]) == Count(c, start, done) + if InDay(e, start) && Counts(c, e) then 1 else 0
    {
      CountNext(c, start, done, e);
    }
    LatenciesAppend(Filter(Wanted(Reviews, start), done), e);
    result, latencies := before, had;
    if !InDay(e, start) {
      return;
    }
    match e.kind
    case Review =>
      result := result.(reviews := result.reviews + 1);
      latencies := latencies + [e.latency];
    case Finding =>
      result := result.(findings := result.findings + 1);
      if e.addressed { result := result.(addressed := result.addressed + 1); }
      if e.downvoted { result := result.(downvoted := result.downvoted + 1); }
    case _ =>
  }

  predicate NewAndAdmitted(installation: int, repository: int, seen: set<string>, e: Event) {
    e.id !in seen && Admitted(installation, repository, e)
  }

  ghost predicate SeenIn(seen: set<string>, events: seq<Event>) {
    forall id :: id in seen <==> exists i :: 0 <= i < |events| && events[i].id == id
  }

  lemma AcceptNext(installation: int, repository: int, seen: set<string>, events: seq<Event>, n: nat)
    requires n < |events| && SeenIn(seen, events[..n]) && Acceptable(installation, repository, events[..n])
    ensures SeenIn(seen + {events[n].id}, events[..n + 1])
    ensures NewAndAdmitted(installation, repository, seen, events[n]) <==>
      Acceptable(installation, repository, events[..n + 1])
  {
    var e, done := events[n], events[..n];
    assert events[..n + 1] == done + [e];
    assert e.id in seen ==> exists i :: 0 <= i < n && done[i].id == e.id;
  }

  lemma {:induction false} AcceptPrefix(installation: int, repository: int, events: seq<Event>, n: nat)
    requires n <= |events| && Acceptable(installation, repository, events)
    ensures Acceptable(installation, repository, events[..n])
  {}

  method RollupDay(installation: int, repository: int, day: int, events: seq<Event>) returns (r: Result<Metrics>)
    ensures r.Success? <==>
      installation > 0 && repository > 0 && day != 0 && Acceptable(installation, repository, events)
    ensures r.Success? ==> r.value == Row(installation, repository, UtcDay(day), events)
  {
    if installation <= 0 || repository <= 0 || day == 0 {
      return Failure("tenant and day are required");
    }
    var start := UtcDay(day);
    var result := Metrics(installation, repository, start, "", "", 0, 0, 0, 0, 0);
    var seen: set<string> := {};
    var latencies: seq<int> := [];
    for i := 0 to |events|
      invariant Acceptable(installation, repository, events[..i]) && SeenIn(seen, events[..i])
      invariant Counted(result, latencies, start, events[..i])
      invariant result ==
        Metrics(installation, repository, start, "", "", result.reviews, result.findings, result.addressed,
                result.downvoted, 0)
    {
      var e := events[i];
      AcceptNext(installation, repository, seen, events, i);
      if !NewAndAdmitted(installation, repository, seen, e) {
        if Acceptable(installation, repository, events) { AcceptPrefix(installation, repository, events, i + 1); }
        return Failure("analytics event is invalid, duplicated, or outside the tenant");
      }
      seen := seen + {e.id};
      result, latencies := CountEvent(e, start, result, latencies, events[..i]);
      assert events[..i + 1] == events[..i] + [e];
    }
    assert events[..|events|] == events;
    var median := FindMedian(latencies);
    r := Success(result.(median := median));
  }

  lemma LessIsTotal()
    ensures StrictTotalOrder(Less)
  {}

  method FindMedian(latencies: seq<int>) returns (median: int)
    ensures median == Median(latencies)
  {
    median := 0;
    if |latencies| > 0 {
      LessIsTotal();
      var sorted := Sort(latencies, Less);
      StableSortSorted(latencies, Less);
      SortedUnique(sorted, StableSort(latencies, Less), Less);
      var middle := |sorted| / 2;
      median := sorted[middle];
      if |sorted| % 2 == 0 {
        median := Mean(sorted[middle - 1], sorted[middle]);
      }
    }
  }

  /** The latencies of the day's reviews. */
  ghost function ReviewLatencies(start: int, events: seq<Event>): seq<int> {
    Latencies(Filter(Wanted(Reviews, start), events))
  }

  /** The latencies are durations of 64 bits. */
  ghost predicate InRange(events: seq<Event>) {
    forall i :: 0 <= i < |events| ==> events[i].latency < 0x8000_0000_0000_0000
  }

  lemma ReviewDurations(installation: int, repository: int, start: int, events: seq<Event>)
    requires Acceptable(installation, repository, events) && InRange(events)
    ensures Durations(ReviewLatencies(start, events))
  {
    var kept := Filter(Wanted(Reviews, start), events);
    FilterWithin(Wanted(Reviews, start), events);
    forall i | 0 <= i < |kept| ensures 0 <= kept[i].latency < 0x8000_0000_0000_0000 {
      assert kept[i] in events;
      var j :| 0 <= j < |events| && events[j] == kept[i];
      assert Admitted(installation, repository, events[j]);
    }
  }

  /** The median of a day's row lies between its two middle latencies if and only if their sum does not overflow. */
  lemma RowMedianBetweenIff(installation: int, repository: int, start: int, events: seq<Event>)
    requires Acceptable(installation, repository, events) && InRange(events) && Count(Reviews, start, events) > 0
    ensures SortedBy(StableSort(ReviewLatencies(start, events), Less), Less)
    ensures InTheMiddle(StableSort(ReviewLatencies(start, events), Less),
                        Row(installation, repository, start, events).median)
  {
    var latencies := ReviewLatencies(start, events);
    ReviewDurations(installation, repository, start, events);
    SortedDurations(latencies);
    MiddleInTheMiddle(StableSort(latencies, Less));
  }

  lemma SortTwo(l: int)
    ensures StableSort([l, l], Less) == [l, l]
  {
    assert [l, l][..1] == [l] && [l][..0] == [] && [l][1..] == [];
    assert StableSort([l], Less) == Insert(l, [], Less) == [l];
    assert Insert(l, [l], Less) == [l] + Insert(l, [], Less) == [l, l];
  }

  lemma BothReviews(a: Event, b: Event)
    requires InDay(a, 0) && InDay(b, 0) && a.kind.Review? && b.kind.Review?
    ensures Filter(Wanted(Reviews, 0), [a, b]) == [a, b]
  {
    assert [a, b][..1] == [a] && [a][..0] == [];
    assert Filter(Wanted(Reviews, 0), [a]) == [a];
  }

  /** Two reviews of 2^62 nanoseconds each: the median of the day is negative. */
  lemma NegativeMedianExample(a: Event, b: Event)
    requires a == Event("1", 1, 1, "", "", Review, "", false, false, 0x4000_0000_0000_0000, 5)
    requires b == a.(id := "2")
    ensures Acceptable(1, 1, [a, b]) && Row(1, 1, 0, [a, b]).median == -0x4000_0000_0000_0000
  {
    BothReviews(a, b);
    SortTwo(a.latency);
    assert Latencies([a, b]) == [a.latency, b.latency];
    assert Median([a.latency, b.latency]) == Mean(a.latency, b.latency);
  }

  // ---- Rows in terms of the events ----

  /** Which events are valid, field by field. */
  lemma ValidEventIff(e: Event)
    ensures ValidEvent(e) <==>
      && e.occurredAt != 0 && !e.kind.Unknown? && e.latency >= 0
      && (e.latency > 0 ==> e.kind.Review?)
      && (e.kind.Finding? <==> e.severity != "") && (e.severity != "" ==> e.severity in {"P0", "P1", "P2"})
      && (e.addressed ==> e.kind.Finding?) && (e.downvoted ==> !e.kind.Review?)
  {}

  /** utcDay is the whole number of days of 24 hours before the instant. */
  lemma UtcDayMeans(t: int) returns (days: int)
    ensures UtcDay(t) == days * 86_400_000_000_000 && UtcDay(t) <= t < UtcDay(t) + 86_400_000_000_000
  {
    days := t / DAY;
  }

  /** The instant lies in the 24 hours from the start. */
  predicate OnDay(e: Event, start: int) { start <= e.occurredAt && e.occurredAt - start < 86_400_000_000_000 }

  lemma {:induction false} LatenciesCount(p: Event -> bool, events: seq<Event>, l: int)
    ensures multiset(Latencies(Filter(p, events)))[l] == |Indices((e: Event) => p(e) && e.latency == l, events)|
  {
    var q := (e: Event) => p(e) && e.latency == l;
    if events == [] {
      assert Indices(q, events) == {};
    } else {
      var init, last := events[..|events| - 1], events[|events| - 1];
      LatenciesCount(p, init, l);
      LatenciesAppend(Filter(p, init), last);
      IndicesNext(q, init, last);
      assert events == init + [last];
    }
  }

  lemma CountIs(c: Counter, start: int, events: seq<Event>, p: Event -> bool)
    requires forall e :: p(e) <==> OnDay(e, start) && Counts(c, e)
    ensures Count(c, start, events) == |Indices(p, events)|
  {
    FilterIndices(Wanted(c, start), events);
    IndicesSame(Wanted(c, start), p, events);
  }

  /** The events of the day among those that `which` picks. */
  ghost function OfDay(start: int, which: Event -> bool): Event -> bool {
    e => OnDay(e, start) && which(e)
  }

  /** A row counts the reviews and findings of its day, and the findings that were addressed and downvoted. */
  lemma RowCounts(installation: int, repository: int, start: int, events: seq<Event>)
    ensures var row := Row(installation, repository, start, events);
      && row.installation == installation && row.repository == repository && row.day == start
      && row.reviews == |Indices(OfDay(start, (e: Event) => e.kind == Review), events)|
      && row.findings == |Indices(OfDay(start, (e: Event) => e.kind == Finding), events)|
      && row.addressed == |Indices(OfDay(start, (e: Event) => e.kind == Finding && e.addressed), events)|
      && row.downvoted == |Indices(OfDay(start, (e: Event) => e.kind == Finding && e.downvoted), events)|
  {
    CountIs(Reviews, start, events, OfDay(start, (e: Event) => e.kind == Review));
    CountIs(Findings, start, events, OfDay(start, (e: Event) => e.kind == Finding));
    CountIs(Addressed, start, events, OfDay(start, (e: Event) => e.kind == Finding && e.addressed));
    CountIs(Downvoted, start, events, OfDay(start, (e: Event) => e.kind == Finding && e.downvoted));
  }

  /** The latencies whose median a row holds: each as often as reviews of the day have it. */
  lemma RowLatencies(start: int, events: seq<Event>, l: int)
    ensures multiset(ReviewLatencies(start, events))[l] ==
      |Indices(OfDay(start, (e: Event) => e.kind == Review && e.latency == l), events)|
  {
    LatenciesCount(Wanted(Reviews, start), events, l);
    var p := (e: Event) => Wanted(Reviews, start)(e) && e.latency == l;
    var q := OfDay(start, (e: Event) => e.kind == Review && e.latency == l);
    forall e ensures p(e) <==> q(e) { assert OnDay(e, start) <==> InDay(e, start); }
    IndicesSame(p, q, events);
  }

  predicate BadEvent(installation: int, repository: int, e: Event) {
    e.id == "" || e.installation != installation || e.repository != repository || !ValidEvent(e)
  }

  /** Events are refused for one without identifier, of another tenant or invalid, or an identifier given twice. */
  lemma RefusedIff(installation: int, repository: int, events: seq<Event>)
    ensures !Acceptable(installation, repository, events) <==>
      || (exists e :: e in events && BadEvent(installation, repository, e))
      || (exists i, j :: 0 <= i < j < |events| && events[i].id == events[j].id)
  {
    if e :| e in events && BadEvent(installation, repository, e) {
      var i :| 0 <= i < |events| && events[i] == e;
      assert !Admitted(installation, repository, events[i]);
    }
    if i :| 0 <= i < |events| && !Admitted(installation, repository, events[i]) { assert events[i] in events; }
  }
}
