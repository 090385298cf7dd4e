/** One block rule on one file's diff (export.go): from the raw lines to the hits. */
module RuleHits {
  import opened Order
  import opened DiffText
  import opened AddedLines
  import opened RuleBlocks

  predicate Less(a: int, b: int) { a < b }

  /** The line numbers of the map, met in any order and sorted. */
  method SortedLines(additions: map<int, string>) returns (lines: seq<int>)
    ensures Increasing(lines) && forall n :: n in lines <==> n in additions
  {
    var listed: seq<int> := [];
    var rest := additions.Items;
    while rest != {}
      invariant rest <= additions.Items
      invariant forall n :: n in listed <==> n in additions && (n, additions[n]) !in rest
      invariant forall i, j :: 0 <= i < j < |listed| ==> listed[i] != listed[j]
      decreases |rest|
    {
      var item :| item in rest;
      assert item.0 in additions && additions[item.0] == item.1;
      rest, listed := rest - {item}, listed + [item.0];
    }
    lines := Sort(listed, Less);
    DistinctMultiset(listed, lines);
    DistinctSorted(lines, Less);
  }

  lemma {:induction false} BlockInLines(blocks: seq<seq<int>>, i: nat, n: int)
    requires i < |blocks| && n in blocks[i]
    ensures n in Flatten(blocks)
    decreases |blocks|
  {
    if i == |blocks| - 1 {
    } else {
      BlockInLines(blocks[..|blocks| - 1], i, n);
    }
  }

  /** The added lines of a diff are free of newlines, and so are the blocks they are cut into. */
  lemma {:induction false} CutsHoldBlocks(additions: map<int, string>, lines: seq<int>, blocks: seq<seq<int>>)
    requires NoneEmpty(blocks) && Flatten(blocks) == lines && forall n :: n in lines <==> n in additions
    requires forall n :: n in additions ==> OneLine(additions[n])
    ensures HoldsBlocks(additions, blocks)
  {
    forall i | 0 <= i < |blocks| ensures HoldsBlock(additions, blocks[i]) {
      var block := blocks[i];
      forall k | 0 <= k < |block| ensures block[k] in additions && OneLine(additions[block[k]]) {
        BlockInLines(blocks, i, block[k]);
        assert block[k] in lines;
      }
    }
  }

  /** The increasing line numbers of the file, cut into runs. */
  ghost predicate Cut(added: map<int, string>, blocks: seq<seq<int>>) {
    && IsRuns(blocks, Flatten(blocks)) && Increasing(Flatten(blocks))
    && (forall n :: n in Flatten(blocks) <==> n in added)
    && HoldsBlocks(added, blocks)
  }

  /** The hits in the first blocks, which are all blocks unless the room is used up. */
  ghost predicate Reported(added: map<int, string>, re: Pattern, room: nat, blocks: seq<seq<int>>, seen: nat,
                           hits: seq<Hit>)
    requires HoldsBlocks(added, blocks)
  {
    seen <= |blocks| && AreHits(added, re, blocks[..seen], hits) && |hits| <= room &&
      (|hits| < room ==> seen == |blocks|)
  }

  /** The hits of the rule: what the added lines of the file are, in runs, and where the pattern begins in each. */
  ghost predicate AreRuleHits(added: map<int, string>, re: Pattern, room: nat, hits: seq<Hit>) {
    exists blocks, seen :: Cut(added, blocks) && Reported(added, re, room, blocks, seen, hits)
  }

  /** The block branch of the matcher for one file's diff and one rule whose globs accept the file. */
  method RuleHitsOf(diff: string, re: Pattern, room: nat) returns (hits: seq<Hit>)
    requires Matcher(re) && room > 0
    ensures AreRuleHits(CollectLines(Split(diff)).added, re, room, hits)
  {
    var added: map<int, string> := CollectAdded(diff);
    SplitIntoLines(diff);
    CollectedLines(Split(diff));
    var lines := SortedLines(added);
    var blocks := ContiguousAddedBlocks(lines);
    CutsHoldBlocks(added, lines, blocks);
    ghost var seen;
    hits, seen := MatchBlocks(added, re, blocks, room);
    assert Cut(added, blocks) && Reported(added, re, room, blocks, seen, hits);
  }

  lemma {:induction false} CutUnique(added: map<int, string>, a: seq<seq<int>>, b: seq<seq<int>>)
    requires Cut(added, a) && Cut(added, b)
    ensures a == b
  {
    var lines, other := Flatten(a), Flatten(b);
    forall n ensures n in lines <==> n in other { assert n in lines <==> n in added; }
    StrictlySortedUnique(lines, other, Less);
    RunsUnique(a, b, Flatten(a));
  }

  lemma {:induction false} HitsBefore(added: map<int, string>, re: Pattern, blocks: seq<seq<int>>, m: nat,
                                      b: seq<Hit>) returns (init: seq<Hit>)
    requires HoldsBlocks(added, blocks) && 0 < m <= |blocks| && AreHits(added, re, blocks[..m], b)
    ensures AreHits(added, re, blocks[..m - 1], init) && init <= b
  {
    assert blocks[..m][..m - 1] == blocks[..m - 1];
    init := if Matches(added, re, blocks[m - 1]) then b[..|b| - 1] else b;
  }

  /** Looking at more blocks only adds hits at the end. */
  lemma {:induction false} HitsExtend(added: map<int, string>, re: Pattern, blocks: seq<seq<int>>, n: nat, m: nat,
                                      a: seq<Hit>, b: seq<Hit>)
    requires Matcher(re) && HoldsBlocks(added, blocks) && n <= m <= |blocks|
    requires AreHits(added, re, blocks[..n], a) && AreHits(added, re, blocks[..m], b)
    ensures a <= b
    decreases m
  {
    if n == m {
      HitsUnique(added, re, blocks[..n], a, b);
    } else {
      var init := HitsBefore(added, re, blocks, m, b);
      HitsExtend(added, re, blocks, n, m - 1, a, init);
    }
  }

  lemma {:induction false} ReportedOnce(added: map<int, string>, re: Pattern, room: nat, blocks: seq<seq<int>>,
                                        n: nat, m: nat, a: seq<Hit>, b: seq<Hit>)
    requires Matcher(re) && HoldsBlocks(added, blocks) && n <= m
    requires Reported(added, re, room, blocks, n, a) && Reported(added, re, room, blocks, m, b)
    ensures a == b
  {
    HitsExtend(added, re, blocks, n, m, a, b);
    if |a| < room { HitsUnique(added, re, blocks, a, b) by { assert blocks[..n] == blocks == blocks[..m]; } }
  }

  /** A rule has one list of hits on a file, whatever order the lines are met in. */
  lemma {:induction false} RuleHitsUnique(added: map<int, string>, re: Pattern, room: nat, a: seq<Hit>, b: seq<Hit>)
    requires Matcher(re) && AreRuleHits(added, re, room, a) && AreRuleHits(added, re, room, b)
    ensures a == b
  {
    var blocks, n :| Cut(added, blocks) && Reported(added, re, room, blocks, n, a);
    var other, m :| Cut(added, other) && Reported(added, re, room, other, m, b);
    CutUnique(added, blocks, other);
    if n <= m {
      ReportedOnce(added, re, room, blocks, n, m, a, b);
    } else { ReportedOnce(added, re, room, blocks, m, n, b, a); }
  }
}
