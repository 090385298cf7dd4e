/** Ranking and de-duplicating findings (rank.go). */
module Ranking {
  import opened Order
  import opened Loops

  /**
   A finding. `path` is the cleaned path and `words` are the words of the title; `rest` stands for what ranking
   does not look at.
   */
  datatype Finding = Finding(path: string, startLine: int, endLine: int, severity: string, confidence: real,
                             title: string, words: set<string>, rest: string)

  const DEFAULT_MAX_INLINE_COMMENTS := 15

  // ---- stronger ----

  /** A severity that is not in the table ranks like P0. */
  function SeverityRank(severity: string): nat {
    if severity == "P1" then 1 else if severity == "P2" then 2 else 0
  }

  predicate Stronger(a: Finding, b: Finding) {
    if SeverityRank(a.severity) != SeverityRank(b.severity) then SeverityRank(a.severity) < SeverityRank(b.severity)
    else if a.confidence != b.confidence then a.confidence > b.confidence
    else if a.path != b.path then StrLess(a.path, b.path)
    else if a.startLine != b.startLine then a.startLine < b.startLine
    else if a.endLine != b.endLine then a.endLine < b.endLine
    else StrLess(a.title, b.title)
  }

  /** The comparison is a strict weak order, as sort.SliceStable requires. */
  lemma StrongerIsAnOrder()
    ensures StrictWeakOrder(Stronger)
  {
    StrLessIsTotal();
    forall a, b | Stronger(a, b) ensures !Stronger(b, a) {}
    forall a, b, c | Stronger(a, c) ensures Stronger(a, b) || Stronger(b, c) {
      Cotransitive(a, b, c);
    }
  }

  lemma Cotransitive(a: Finding, b: Finding, c: Finding)
    requires StrictTotalOrder(StrLess) && Stronger(a, c)
    ensures Stronger(a, b) || Stronger(b, c)
  {
    assert StrLess(a.path, c.path) ==> StrLess(a.path, b.path) || StrLess(b.path, c.path);
    assert StrLess(a.title, c.title) ==> StrLess(a.title, b.title) || StrLess(b.title, c.title);
    assert a.path == b.path || StrLess(a.path, b.path) || StrLess(b.path, a.path);
    assert b.path == c.path || StrLess(b.path, c.path) || StrLess(c.path, b.path);
  }

  // ---- sameFinding ----

  /** At least three fifths of the words of two titles are common to both. */
  predicate SimilarTitles(left: set<string>, right: set<string>) {
    left != {} && right != {} && 5 * |left * right| >= 3 * |left + right|
  }

  predicate SameFinding(a: Finding, b: Finding) {
    a.path == b.path && a.startLine <= b.endLine && b.startLine <= a.endLine && SimilarTitles(a.words, b.words)
  }

  /** The two loops of titleSimilarity. */
  method CountLeft(left: set<string>, right: set<string>) returns (intersection: nat, union: set<string>)
    ensures intersection == |left * right| && union == left
  {
    intersection, union := 0, {};
    var rest := left;
    while rest != {}
      invariant rest <= left && union == left - rest && intersection == |(left - rest) * right|
      decreases |rest|
    {
      var word :| word in rest;
      CountOne(left, right, rest, word);
      rest := rest - {word};
      union := union + {word};
      if word in right { intersection := intersection + 1; }
    }
    assert left - rest == left;
  }

  method AddWords(left: set<string>, right: set<string>) returns (union: set<string>)
    ensures union == left + right
  {
    union := left;
    var rest := right;
    while rest != {}
      invariant rest <= right && union == left + (right - rest)
      decreases |rest|
    {
      var word :| word in rest;
      rest, union := rest - {word}, union + {word};
    }
  }

  method CheckSame(a: Finding, b: Finding) returns (same: bool)
    ensures same == SameFinding(a, b)
  {
    if a.path != b.path { return false; }
    if a.endLine < b.startLine || b.endLine < a.startLine { return false; }
    if a.words == {} || b.words == {} { return false; }
    var intersection, union := CountLeft(a.words, b.words);
    union := AddWords(union, b.words);
    same := 5 * intersection >= 3 * |union|;
  }

  // ---- RankAndCapFindings ----

  predicate Duplicate(kept: seq<Finding>, f: Finding) {
    exists k :: 0 <= k < |kept| && SameFinding(kept[k], f)
  }

  /** Going from the strongest finding down, those that repeat none of the kept ones. */
  function Greedy(ranked: seq<Finding>): seq<Finding> {
    if ranked == [] then []
    else
      var kept, last := Greedy(ranked[..|ranked| - 1]), ranked[|ranked| - 1];
      if Duplicate(kept, last) then kept else kept + [last]
  }

  function Cap(maxInlineComments: int): (n: nat)
    ensures n > 0 && (maxInlineComments > 0 ==> n == maxInlineComments) && (maxInlineComments <= 0 ==> n == 15)
  {
    if maxInlineComments <= 0 then DEFAULT_MAX_INLINE_COMMENTS else maxInlineComments
  }

  function Take<T>(s: seq<T>, n: nat): seq<T> {
    if |s| <= n then s else s[..n]
  }

  function Ranked(findings: seq<Finding>): seq<Finding> { StableSort(findings, Stronger) }

  function Result(findings: seq<Finding>, maxInlineComments: int): seq<Finding> {
    Take(Greedy(Ranked(findings)), Cap(maxInlineComments))
  }

  method CheckDuplicate(kept: seq<Finding>, candidate: Finding) returns (duplicate: bool)
    ensures duplicate == Duplicate(kept, candidate)
  {
    duplicate := false;
    for k := 0 to |kept|
      invariant !duplicate
      invariant forall j :: 0 <= j < k ==> !SameFinding(kept[j], candidate)
    {
      duplicate := CheckSame(kept[k], candidate);
      if duplicate { break; }
    }
  }

  lemma GreedyNext(ranked: seq<Finding>, i: nat)
    requires i < |ranked|
    ensures Greedy(ranked[..i + 1]) ==
            if Duplicate(Greedy(ranked[..i]), ranked[i]) then Greedy(ranked[..i]) else Greedy(ranked[..i]) + [ranked[i]]
  {
    assert ranked[..i + 1][..i] == ranked[..i];
  }

  /** The loop over the ranked findings. */
  method KeepStrongest(ranked: seq<Finding>, cap: nat) returns (kept: seq<Finding>)
    requires cap > 0
    ensures kept == Take(Greedy(ranked), cap)
  {
    kept := [];
    for i := 0 to |ranked|
      invariant kept == Greedy(ranked[..i]) && |kept| < cap
    {
      GreedyNext(ranked, i);
      var candidate := ranked[i];
      var duplicate := CheckDuplicate(kept, candidate);
      if !duplicate {
        kept := kept + [candidate];
        if |kept| == cap {
          GreedyGrows(ranked, i + 1);
          return;
        }
      }
    }
    assert ranked[..|ranked|] == ranked;
  }

  method RankAndCapFindings(findings: seq<Finding>, maxInlineComments: int) returns (kept: seq<Finding>)
    ensures kept == Result(findings, maxInlineComments)
  {
    var cap := if maxInlineComments <= 0 then DEFAULT_MAX_INLINE_COMMENTS else maxInlineComments;
    kept := KeepStrongest(StableSort(findings, Stronger), cap);
  }

  lemma {:induction false} GreedyGrows(ranked: seq<Finding>, n: nat)
    requires n <= |ranked|
    ensures Greedy(ranked[..n]) <= Greedy(ranked)
    decreases |ranked|
  {
    if n == |ranked| {
      assert ranked[..n] == ranked;
    } else {
      var init := ranked[..|ranked| - 1];
      GreedyGrows(init, n);
      assert init[..n] == ranked[..n];
    }
  }

  // ---- What is returned ----

  lemma {:induction false} GreedyWithin(ranked: seq<Finding>)
    ensures multiset(Greedy(ranked)) <= multiset(ranked)
  {
    if ranked == [] {
    } else {
      var init, last := ranked[..|ranked| - 1], ranked[|ranked| - 1];
      GreedyWithin(init);
      assert ranked == init + [last];
    }
  }

  /** The last finding beats none that was kept before it. */
  lemma KeptAreNotBeaten(ranked: seq<Finding>, k: nat)
    requires ranked != [] && SortedBy(ranked, Stronger) && k < |Greedy(ranked[..|ranked| - 1])|
    ensures !Stronger(ranked[|ranked| - 1], Greedy(ranked[..|ranked| - 1])[k])
  {
    var init := ranked[..|ranked| - 1];
    var f := Greedy(init)[k];
    GreedyWithin(init);
    assert f in multiset(Greedy(init));
    assert f in init;
    var j :| 0 <= j < |init| && init[j] == f;
    assert ranked[j] == f;
  }

  lemma {:induction false} GreedySorted(ranked: seq<Finding>)
    requires SortedBy(ranked, Stronger)
    ensures SortedBy(Greedy(ranked), Stronger)
  {
    if ranked == [] {
    } else {
      var init, last := ranked[..|ranked| - 1], ranked[|ranked| - 1];
      GreedySorted(init);
      forall k | 0 <= k < |Greedy(init)| ensures !Stronger(last, Greedy(init)[k]) { KeptAreNotBeaten(ranked, k); }
    }
  }

  ghost predicate Distinct(s: seq<Finding>) { forall i, j :: 0 <= i < j < |s| ==> !SameFinding(s[i], s[j]) }

  lemma {:induction false} GreedyDistinct(ranked: seq<Finding>)
    ensures Distinct(Greedy(ranked))
  {
    if ranked == [] {
    } else {
      GreedyDistinct(ranked[..|ranked| - 1]);
    }
  }

  lemma PrefixOf(all: seq<Finding>, n: nat)
    requires SortedBy(all, Stronger) && Distinct(all)
    ensures SortedBy(Take(all, n), Stronger) && Distinct(Take(all, n)) && multiset(Take(all, n)) <= multiset(all)
  {
    var r := Take(all, n);
    assert all == r + all[|r|..];
  }

  /** The result is a part of the input, strongest first, in which no two findings are the same. */
  lemma KeepsADistinctSortedPart(findings: seq<Finding>, maxInlineComments: int)
    ensures multiset(Result(findings, maxInlineComments)) <= multiset(findings)
    ensures SortedBy(Result(findings, maxInlineComments), Stronger) && Distinct(Result(findings, maxInlineComments))
    ensures |Result(findings, maxInlineComments)| <= Cap(maxInlineComments)
  {
    var ranked := Ranked(findings);
    StrongerIsAnOrder();
    StableSortSorted(findings, Stronger);
    GreedyWithin(ranked);
    GreedySorted(ranked);
    GreedyDistinct(ranked);
    PrefixOf(Greedy(ranked), Cap(maxInlineComments));
  }

  /** A kept finding that says the same as f and that f does not beat. */
  ghost predicate Represented(kept: seq<Finding>, f: Finding) {
    exists k :: 0 <= k < |kept| && SameFinding(kept[k], f) && !Stronger(f, kept[k])
  }

  lemma StillRepresented(kept: seq<Finding>, f: Finding, more: seq<Finding>)
    requires Represented(kept, f)
    ensures Represented(kept + more, f)
  {
    var k :| 0 <= k < |kept| && SameFinding(kept[k], f) && !Stronger(f, kept[k]);
    assert (kept + more)[k] == kept[k];
  }

  lemma DuplicateRepresented(ranked: seq<Finding>)
    requires ranked != [] && SortedBy(ranked, Stronger)
    requires Duplicate(Greedy(ranked[..|ranked| - 1]), ranked[|ranked| - 1])
    ensures Represented(Greedy(ranked[..|ranked| - 1]), ranked[|ranked| - 1])
  {
    var kept, last := Greedy(ranked[..|ranked| - 1]), ranked[|ranked| - 1];
    var k :| 0 <= k < |kept| && SameFinding(kept[k], last);
    KeptAreNotBeaten(ranked, k);
  }

  /** What is dropped up to the last finding was dropped before, or it is the last and repeats a kept one. */
  lemma DroppedWhen(ranked: seq<Finding>, f: Finding)
    requires ranked != [] && f in multiset(ranked) - multiset(Greedy(ranked))
    ensures var init, last := ranked[..|ranked| - 1], ranked[|ranked| - 1];
      f in multiset(init) - multiset(Greedy(init)) || (f == last && Duplicate(Greedy(init), last))
  {
    var init, last := ranked[..|ranked| - 1], ranked[|ranked| - 1];
    assert ranked == init + [last];
    GreedyWithin(init);
  }

  lemma {:induction false} GreedyRepresents(ranked: seq<Finding>, f: Finding)
    requires SortedBy(ranked, Stronger) && f in multiset(ranked) - multiset(Greedy(ranked))
    ensures Represented(Greedy(ranked), f)
  {
    var init, last := ranked[..|ranked| - 1], ranked[|ranked| - 1];
    DroppedWhen(ranked, f);
    if f in multiset(init) - multiset(Greedy(init)) {
      GreedyRepresents(init, f);
      StillRepresented(Greedy(init), f, [last]);
    } else {
      DuplicateRepresented(ranked);
    }
  }

  /** Below the cap, whatever is dropped is represented by a kept finding that it does not beat. */
  lemma DroppedAreRepresented(findings: seq<Finding>, maxInlineComments: int, f: Finding)
    requires |Result(findings, maxInlineComments)| < Cap(maxInlineComments)
    requires f in multiset(findings) - multiset(Result(findings, maxInlineComments))
    ensures Represented(Result(findings, maxInlineComments), f)
  {
    StrongerIsAnOrder();
    StableSortSorted(findings, Stronger);
    GreedyRepresents(Ranked(findings), f);
  }

  /** Of two findings in a sorted list, one that is stronger than the second is stronger than every later one. */
  lemma StrongerThroughout(s: seq<Finding>, f: Finding, j: nat, k: nat)
    requires SortedBy(s, Stronger) && j <= k < |s| && Stronger(f, s[j])
    ensures Stronger(f, s[k])
  {
    StrongerIsAnOrder();
  }

  ghost predicate BeatsNone(kept: seq<Finding>, f: Finding) {
    forall k :: 0 <= k < |kept| ==> !Stronger(f, kept[k])
  }

  lemma CutIsRepresented(all: seq<Finding>, n: nat, f: Finding)
    requires SortedBy(all, Stronger) && n <= |all| && (Represented(all, f) || f in all[n..])
    ensures Represented(all[..n], f) || BeatsNone(all[..n], f)
  {
    StrongerIsAnOrder();
    var k :| 0 <= k < |all| && !Stronger(f, all[k]) && (k >= n || SameFinding(all[k], f));
    if k >= n {
      forall j | 0 <= j < n ensures !Stronger(f, all[j]) {
        if Stronger(f, all[j]) { StrongerThroughout(all, f, j, k); }
      }
    } else {
      assert all[..n][k] == all[k];
    }
  }

  lemma {:induction false} DroppedOrCut(ranked: seq<Finding>, n: nat, f: Finding)
    requires n <= |Greedy(ranked)| && f in multiset(ranked) - multiset(Greedy(ranked)[..n])
    ensures f in multiset(ranked) - multiset(Greedy(ranked)) || f in Greedy(ranked)[n..]
  {
    var all := Greedy(ranked);
    GreedyWithin(ranked);
    assert all == all[..n] + all[n..];
    assert multiset(all)[f] == multiset(all[..n])[f] + multiset(all[n..])[f];
  }

  /** Whatever is dropped is represented by a kept finding, or stronger than none of them. */
  lemma DroppedAtTheCap(findings: seq<Finding>, maxInlineComments: int, f: Finding)
    requires f in multiset(findings) - multiset(Result(findings, maxInlineComments))
    ensures Represented(Result(findings, maxInlineComments), f) || BeatsNone(Result(findings, maxInlineComments), f)
  {
    var ranked := Ranked(findings);
    var all := Greedy(ranked);
    var n := |Result(findings, maxInlineComments)|;
    assert Result(findings, maxInlineComments) == all[..n];
    StrongerIsAnOrder();
    StableSortSorted(findings, Stronger);
    GreedySorted(ranked);
    DroppedOrCut(ranked, n, f);
    if f !in all[n..] { GreedyRepresents(ranked, f); }
    CutIsRepresented(all, n, f);
  }

  // ---- Ranking in texts and numbers ----

  /** P1 is more severe than P2; whatever is neither is more severe than both, as P0 is. */
  ghost predicate MoreSevere(a: Finding, b: Finding) {
    (b.severity == "P1" && a.severity != "P1" && a.severity != "P2") || (b.severity == "P2" && a.severity != "P2")
  }

  /** Of equal severity: less sure, then a later path, then later lines, then a later title comes behind. */
  ghost predicate FollowsInRank(a: Finding, b: Finding) {
    && a.confidence >= b.confidence
    && (a.confidence == b.confidence ==>
      && !StrLess(b.path, a.path)
      && (a.path == b.path ==>
        && a.startLine <= b.startLine
        && (a.startLine == b.startLine ==>
          && a.endLine <= b.endLine
          && (a.endLine == b.endLine ==> !StrLess(b.title, a.title)))))
  }

  /** Severity comes first: nothing stands behind a less severe finding, and equal severity is ranked by the rest. */
  lemma SeverityFirst(findings: seq<Finding>, maxInlineComments: int, i: nat, j: nat)
    requires i < j < |Result(findings, maxInlineComments)|
    ensures var a, b := Result(findings, maxInlineComments)[i], Result(findings, maxInlineComments)[j];
      !MoreSevere(b, a) && (!MoreSevere(a, b) ==> FollowsInRank(a, b))
  {
    KeepsADistinctSortedPart(findings, maxInlineComments);
    NotBeatenMeans(Result(findings, maxInlineComments)[i], Result(findings, maxInlineComments)[j]);
  }

  lemma NotBeatenMeans(a: Finding, b: Finding)
    ensures !Stronger(b, a) <==> !MoreSevere(b, a) && (!MoreSevere(a, b) ==> FollowsInRank(a, b))
  {
    StrLessIrreflexive(a.path);
  }

  /** The same finding, not less severe. */
  ghost predicate SaysTheSame(kept: Finding, f: Finding) { SameFinding(kept, f) && !MoreSevere(f, kept) }

  /** A dropped finding that is more severe than a kept one repeats a finding that is kept before that. */
  lemma SevereAreRepresented(findings: seq<Finding>, maxInlineComments: int, f: Finding, k: nat)
    requires f in multiset(findings) - multiset(Result(findings, maxInlineComments))
    requires k < |Result(findings, maxInlineComments)| && MoreSevere(f, Result(findings, maxInlineComments)[k])
    ensures exists j :: 0 <= j < k && SaysTheSame(Result(findings, maxInlineComments)[j], f)
  {
    var r := Result(findings, maxInlineComments);
    KeepsADistinctSortedPart(findings, maxInlineComments);
    DroppedAtTheCap(findings, maxInlineComments, f);
    assert Stronger(f, r[k]);
    var j :| 0 <= j < |r| && SameFinding(r[j], f) && !Stronger(f, r[j]);
    if j >= k { StrongerThroughout(r, f, k, j); }
  }

  /** Of a hundred words of either title, sixty are words of both; of no words, none. */
  predicate SixtyPercent(left: set<string>, right: set<string>) {
    var common := |left * right|;
    common > 0 && 100 * common >= 60 * (|left| + |right| - common)
  }

  predicate OnLine(f: Finding, line: int) { f.startLine <= line <= f.endLine }

  /** Two findings are the same on one path, with a line in common and three fifths of the words of their titles. */
  lemma SameFindingMeans(a: Finding, b: Finding)
    requires a.startLine <= a.endLine && b.startLine <= b.endLine
    ensures SameFinding(a, b) <==>
      && a.path == b.path && SixtyPercent(a.words, b.words)
      && exists line :: OnLine(a, line) && OnLine(b, line)
  {
    if a.startLine <= b.endLine && b.startLine <= a.endLine {
      var line := if a.startLine <= b.startLine then b.startLine else a.startLine;
      assert OnLine(a, line) && OnLine(b, line);
    }
    SimilarIff(a.words, b.words);
  }

  lemma SimilarIff(left: set<string>, right: set<string>)
    ensures SimilarTitles(left, right) <==> SixtyPercent(left, right)
  {
    assert |left + right| == |left| + |right| - |left * right|;
    if left != {} {
      var v :| v in left;
      assert v in left + right;
    }
    if left * right != {} {
      var v :| v in left * right;
      assert v in left && v in right;
    }
  }

  /** A larger cap only adds findings at the end. */
  lemma LargerCapExtends(findings: seq<Finding>, m: int, n: int)
    requires 0 < m <= n
    ensures Result(findings, m) <= Result(findings, n)
    ensures |Result(findings, m)| < m ==> Result(findings, n) == Result(findings, m)
  {
    var all := Greedy(Ranked(findings));
    assert Take(all, m) == Take(Take(all, n), m);
  }

  /** If no two findings tie, the order they come in does not matter. */
  lemma OrderDoesNotMatter(a: seq<Finding>, b: seq<Finding>, maxInlineComments: int)
    requires multiset(a) == multiset(b)
    requires forall i, j :: 0 <= i < j < |a| ==> Stronger(a[i], a[j]) || Stronger(a[j], a[i])
    ensures Result(a, maxInlineComments) == Result(b, maxInlineComments)
  {
    StrongerIsAnOrder();
    StableSortSorted(a, Stronger);
    StableSortSorted(b, Stronger);
    NoTies(a, Ranked(a));
    NoTies(a, Ranked(b));
    forall x ensures x in Ranked(a) <==> x in Ranked(b) {
      assert x in multiset(Ranked(a)) <==> x in multiset(Ranked(b));
    }
    StrictlySortedUnique(Ranked(a), Ranked(b), Stronger);
  }

  lemma NoTies(a: seq<Finding>, s: seq<Finding>)
    requires StrictWeakOrder(Stronger) && multiset(a) == multiset(s) && SortedBy(s, Stronger)
    requires forall i, j :: 0 <= i < j < |a| ==> Stronger(a[i], a[j]) || Stronger(a[j], a[i])
    ensures StrictlySortedBy(s, Stronger)
  {
    var from := Rearrangement(a, s);
    forall i, j | 0 <= i < j < |s| ensures Stronger(s[i], s[j]) {
      assert from[i] != from[j];
      assert s[i] == a[from[i]] && s[j] == a[from[j]];
    }
  }
}
