/** Rules that match blocks of added lines: contiguousAddedBlocks and matchStaticRuleAdditions in export.go. */
module RuleBlocks {
  import opened Wrappers
  import opened Loops
  import opened DiffText

  // ---- contiguousAddedBlocks ----

  function Last<T>(s: seq<T>): T
    requires s != []
  {
    s[|s| - 1]
  }

  function Flatten(blocks: seq<seq<int>>): seq<int> {
    if blocks == [] then [] else Flatten(blocks[..|blocks| - 1]) + Last(blocks)
  }

  predicate NoneEmpty(blocks: seq<seq<int>>) { forall i :: 0 <= i < |blocks| ==> blocks[i] != [] }

  predicate Increasing(s: seq<int>) { forall i, j :: 0 <= i < j < |s| ==> s[i] < s[j] }

  predicate Consecutive(s: seq<int>) { forall i, j :: 0 <= i < j < |s| ==> s[j] - s[i] == j - i }

  predicate GapAfter(blocks: seq<seq<int>>, i: nat)
    requires NoneEmpty(blocks)
  {
    i + 1 < |blocks| ==> Last(blocks[i]) + 1 < blocks[i + 1][0]
  }

  /** The maximal runs of consecutive numbers in s, in order. */
  ghost predicate IsRuns(blocks: seq<seq<int>>, s: seq<int>) {
    && Flatten(blocks) == s
    && NoneEmpty(blocks)
    && (forall i :: 0 <= i < |blocks| ==> Consecutive(blocks[i]))
    && (forall i: nat :: GapAfter(blocks, i))
  }

  /** One turn of the loop. */
  function AddLine(blocks: seq<seq<int>>, line: int): (r: seq<seq<int>>)
    requires NoneEmpty(blocks)
    ensures NoneEmpty(r)
  {
    if blocks == [] || line > Last(Last(blocks)) + 1 then blocks + [[line]]
    else blocks[..|blocks| - 1] + [Last(blocks) + [line]]
  }

  lemma {:induction false} AddLineFlattens(blocks: seq<seq<int>>, line: int)
    requires NoneEmpty(blocks)
    ensures Flatten(AddLine(blocks, line)) == Flatten(blocks) + [line]
  {
    if blocks == [] || line > Last(Last(blocks)) + 1 {
      InitOf(blocks, [line]);
    } else {
      var init := blocks[..|blocks| - 1];
      InitOf(init, Last(blocks) + [line]);
      Assoc(Flatten(init), Last(blocks), [line]);
    }
  }

  lemma {:induction false} LastOfFlatten(blocks: seq<seq<int>>)
    requires NoneEmpty(blocks) && blocks != []
    ensures Flatten(blocks) != [] && Last(Flatten(blocks)) == Last(Last(blocks))
  {}

  lemma ConsecutiveGrows(s: seq<int>)
    requires s != [] && Consecutive(s)
    ensures Consecutive(s + [Last(s) + 1])
  {}

  lemma AddLineGaps(blocks: seq<seq<int>>, line: int, i: nat)
    requires NoneEmpty(blocks) && GapAfter(blocks, i)
    ensures GapAfter(AddLine(blocks, line), i)
  {}

  lemma AddLineConsecutive(blocks: seq<seq<int>>, line: int)
    requires NoneEmpty(blocks) && (forall i :: 0 <= i < |blocks| ==> Consecutive(blocks[i]))
    requires blocks != [] ==> line > Last(Last(blocks))
    ensures forall i :: 0 <= i < |AddLine(blocks, line)| ==> Consecutive(AddLine(blocks, line)[i])
  {
    if blocks != [] && line == Last(Last(blocks)) + 1 { ConsecutiveGrows(Last(blocks)); }
  }

  lemma LastIsLess(s: seq<int>, line: int)
    requires Increasing(s + [line]) && s != []
    ensures Last(s) < line
  {
    assert (s + [line])[|s| - 1] == Last(s) && (s + [line])[|s|] == line;
  }

  lemma AddLineKeepsRuns(blocks: seq<seq<int>>, s: seq<int>, line: int)
    requires IsRuns(blocks, s) && Increasing(s + [line])
    ensures IsRuns(AddLine(blocks, line), s + [line])
  {
    AddLineFlattens(blocks, line);
    if blocks != [] {
      LastOfFlatten(blocks);
      LastIsLess(s, line);
    }
    AddLineConsecutive(blocks, line);
    forall i: nat ensures GapAfter(AddLine(blocks, line), i) { AddLineGaps(blocks, line, i); }
  }

  /** The first i numbers have been cut. */
  ghost predicate Cut(blocks: seq<seq<int>>, lines: seq<int>, i: nat) {
    && i <= |lines| && NoneEmpty(blocks) && Flatten(blocks) == lines[..i]
    && (Increasing(lines) ==> IsRuns(blocks, lines[..i]))
  }

  lemma CutNext(blocks: seq<seq<int>>, lines: seq<int>, i: nat)
    requires Cut(blocks, lines, i) && i < |lines|
    ensures Cut(AddLine(blocks, lines[i]), lines, i + 1)
  {
    PrefixNext(lines, i);
    AddLineFlattens(blocks, lines[i]);
    if Increasing(lines) { AddLineKeepsRuns(blocks, lines[..i], lines[i]); }
  }

  method ContiguousAddedBlocks(lines: seq<int>) returns (blocks: seq<seq<int>>)
    ensures NoneEmpty(blocks) && Flatten(blocks) == lines
    ensures Increasing(lines) ==> IsRuns(blocks, lines)
  {
    blocks := [];
    for i := 0 to |lines|
      invariant Cut(blocks, lines, i)
    {
      var line := lines[i];
      CutNext(blocks, lines, i);
      if blocks == [] || line > Last(Last(blocks)) + 1 {
        blocks := blocks + [[line]];
      } else {
        blocks := blocks[..|blocks| - 1] + [Last(blocks) + [line]];
      }
    }
    assert lines[..|lines|] == lines;
  }

  /** The runs without the last number. */
  ghost function DropLast(blocks: seq<seq<int>>): (r: seq<seq<int>>)
    requires blocks != [] && NoneEmpty(blocks)
    ensures NoneEmpty(r)
  {
    var init, last := blocks[..|blocks| - 1], Last(blocks);
    if |last| == 1 then init else init + [last[..|last| - 1]]
  }

  lemma DropLastRuns(blocks: seq<seq<int>>, s: seq<int>)
    requires blocks != [] && IsRuns(blocks, s)
    ensures s != [] && IsRuns(DropLast(blocks), s[..|s| - 1]) && AddLine(DropLast(blocks), Last(s)) == blocks
  {
    LastOfFlatten(blocks);
    var init, last := blocks[..|blocks| - 1], Last(blocks);
    var r := DropLast(blocks);
    assert last == last[..|last| - 1] + [Last(last)];
    assert blocks == init + [last];
    assert s[..|s| - 1] == Flatten(init) + last[..|last| - 1];
    if |last| == 1 {
      assert last[..0] == [];
      assert Flatten(init) + [] == Flatten(init);
      if init != [] { assert GapAfter(blocks, |init| - 1); }
    } else {
      assert r[..|init|] == init;
    }
    forall i: nat ensures GapAfter(r, i) { assert GapAfter(blocks, i); }
  }

  /** There is only one way to cut a sequence into maximal runs. */
  lemma {:induction false} RunsUnique(a: seq<seq<int>>, b: seq<seq<int>>, s: seq<int>)
    requires IsRuns(a, s) && IsRuns(b, s)
    ensures a == b
    decreases |s|
  {
    if a != [] { LastOfFlatten(a); }
    if b != [] { LastOfFlatten(b); }
    if a != [] && b != [] {
      DropLastRuns(a, s);
      DropLastRuns(b, s);
      RunsUnique(DropLast(a), DropLast(b), s[..|s| - 1]);
    }
  }

  // ---- The line of a block match ----

  function Newlines(s: string): nat {
    if s == "" then 0 else Newlines(s[1..]) + if s[0] == '\n' then 1 else 0
  }

  lemma {:induction false} NewlinesConcat(a: string, b: string)
    ensures Newlines(a + b) == Newlines(a) + Newlines(b)
  {
    if a == "" {
      assert a + b == b;
    } else {
      NewlinesConcat(a[1..], b);
      assert (a + b)[1..] == a[1..] + b;
    }
  }

  lemma {:induction false} NewlinesInLine(s: string)
    requires OneLine(s)
    ensures Newlines(s) == 0
  {
    if s == "" {
    } else {
      NewlinesInLine(s[1..]);
    }
  }

  /** Where line k begins in the joined text. */
  function LineStart(texts: seq<string>, k: nat): nat
    requires k < |texts|
  {
    if k == 0 then 0 else |texts[0]| + 1 + LineStart(texts[1..], k - 1)
  }

  predicate StandsOn(texts: seq<string>, start: nat, k: nat) {
    k < |texts| && LineStart(texts, k) <= start <= LineStart(texts, k) + |texts[k]|
  }

  lemma {:induction false} LineStartsThere(texts: seq<string>, k: nat)
    requires k < |texts|
    ensures LineStart(texts, k) + |texts[k]| <= |Join(texts)|
    ensures Join(texts)[LineStart(texts, k)..][..|texts[k]|] == texts[k]
  {
    if k == 0 {
    } else {
      LineStartsThere(texts[1..], k - 1);
      var rest := Join(texts[1..]);
      assert Join(texts) == texts[0] + "\n" + rest;
      assert Join(texts)[|texts[0]| + 1..] == rest;
      assert Join(texts)[LineStart(texts, k)..] == rest[LineStart(texts[1..], k - 1)..];
    }
  }

  /** The number of newlines before a position is the index of the only line the position stands on. */
  lemma {:induction false} NewlinesCountLines(texts: seq<string>, start: nat, k: nat)
    requires texts != [] && AllOneLine(texts) && start <= |Join(texts)|
    ensures Newlines(Join(texts)[..start]) < |texts|
    ensures StandsOn(texts, start, k) <==> k == Newlines(Join(texts)[..start])
    decreases |texts|
  {
    var head, joined := texts[0], Join(texts);
    if start <= |head| {
      assert joined[..start] == head[..start];
      NewlinesInLine(head[..start]);
    } else {
      var from := start - |head| - 1;
      var rest := Join(texts[1..]);
      assert joined == head + "\n" + rest;
      assert joined[..start] == head + "\n" + rest[..from];
      NewlinesConcat(head + "\n", rest[..from]);
      NewlinesConcat(head, "\n");
      NewlinesInLine(head);
      NewlinesCountLines(texts[1..], from, if k == 0 then 0 else k - 1);
    }
  }

  // ---- Reporting block matches ----

  /** A rule's pattern: where its first match in a text begins, if it matches. */
  type Pattern = string -> Option<nat>

  ghost predicate Matcher(re: Pattern) {
    forall s: string :: re(s).Some? ==> re(s).value <= |s|
  }

  datatype Hit = Hit(line: int, text: string)

  ghost predicate HoldsBlock(additions: map<int, string>, block: seq<int>) {
    block != [] && forall i :: 0 <= i < |block| ==> block[i] in additions && OneLine(additions[block[i]])
  }

  ghost predicate HoldsBlocks(additions: map<int, string>, blocks: seq<seq<int>>) {
    forall i :: 0 <= i < |blocks| ==> HoldsBlock(additions, blocks[i])
  }

  function Texts(additions: map<int, string>, block: seq<int>): seq<string>
    requires forall i :: 0 <= i < |block| ==> block[i] in additions
  {
    seq(|block|, i requires 0 <= i < |block| => additions[block[i]])
  }

  /** The hit of one block: the line on which the match begins. */
  ghost predicate IsHit(additions: map<int, string>, re: Pattern, block: seq<int>, hit: Hit)
    requires HoldsBlock(additions, block)
  {
    var texts := Texts(additions, block);
    && hit.text == Join(texts)
    && re(hit.text).Some?
    && exists k: nat :: k < |block| && hit.line == block[k] && StandsOn(texts, re(hit.text).value, k)
  }

  ghost predicate Matches(additions: map<int, string>, re: Pattern, block: seq<int>)
    requires HoldsBlock(additions, block)
  {
    re(Join(Texts(additions, block))).Some?
  }

  /** The hits of the blocks that match, in the order of the blocks. */
  ghost predicate AreHits(additions: map<int, string>, re: Pattern, blocks: seq<seq<int>>, hits: seq<Hit>)
    requires HoldsBlocks(additions, blocks)
    decreases |blocks|
  {
    if blocks == [] then hits == []
    else
      var init, last := blocks[..|blocks| - 1], Last(blocks);
      if Matches(additions, re, last) then
        hits != [] && IsHit(additions, re, last, Last(hits)) && AreHits(additions, re, init, hits[..|hits| - 1])
      else AreHits(additions, re, init, hits)
  }

  method MatchBlock(additions: map<int, string>, re: Pattern, block: seq<int>) returns (hit: Option<Hit>)
    requires Matcher(re) && HoldsBlock(additions, block)
    ensures hit.Some? <==> Matches(additions, re, block)
    ensures hit.Some? ==> IsHit(additions, re, block, hit.value)
  {
    var texts := Texts(additions, block);
    var joined := Join(texts);
    var start := re(joined);
    if start == None { return None; }
    var offset := Newlines(joined[..start.value]);
    NewlinesCountLines(texts, start.value, offset);
    hit := Some(Hit(block[offset], joined));
  }

  /** The loop over the blocks; it stops when `room` more hits have been reported. */
  method MatchBlocks(additions: map<int, string>, re: Pattern, blocks: seq<seq<int>>, room: nat)
    returns (hits: seq<Hit>, ghost seen: nat)
    requires Matcher(re) && HoldsBlocks(additions, blocks) && room > 0
    ensures seen <= |blocks| && AreHits(additions, re, blocks[..seen], hits)
    ensures |hits| <= room && (|hits| < room ==> seen == |blocks|)
  {
    hits, seen := [], 0;
    for i := 0 to |blocks|
      invariant seen == i && |hits| < room
      invariant AreHits(additions, re, blocks[..i], hits)
    {
      assert blocks[..i + 1][..i] == blocks[..i];
      var hit := MatchBlock(additions, re, blocks[i]);
      seen := seen + 1;
      if hit.Some? {
        hits := hits + [hit.value];
        assert hits[..|hits| - 1] + [hit.value] == hits;
        if |hits| >= room { return; }
      }
    }
    assert blocks[..|blocks|] == blocks;
  }

  lemma OneHit(additions: map<int, string>, re: Pattern, block: seq<int>, a: Hit, b: Hit)
    requires Matcher(re) && HoldsBlock(additions, block) && IsHit(additions, re, block, a)
    requires IsHit(additions, re, block, b)
    ensures a == b
  {
    var texts := Texts(additions, block);
    var start := re(Join(texts)).value;
    var i: nat :| i < |block| && a.line == block[i] && StandsOn(texts, start, i);
    var j: nat :| j < |block| && b.line == block[j] && StandsOn(texts, start, j);
    NewlinesCountLines(texts, start, i);
    NewlinesCountLines(texts, start, j);
  }

  /** Nothing is left open: the blocks have only one list of hits. */
  lemma {:induction false} HitsUnique(additions: map<int, string>, re: Pattern, blocks: seq<seq<int>>, a: seq<Hit>,
                                      b: seq<Hit>)
    requires Matcher(re) && HoldsBlocks(additions, blocks)
    requires AreHits(additions, re, blocks, a) && AreHits(additions, re, blocks, b)
    ensures a == b
    decreases |blocks|
  {
    if blocks == [] {
    } else {
      var init, last := blocks[..|blocks| - 1], Last(blocks);
      if Matches(additions, re, last) {
        OneHit(additions, re, last, Last(a), Last(b));
        HitsUnique(additions, re, init, a[..|a| - 1], b[..|b| - 1]);
        assert a == a[..|a| - 1] + [Last(a)] && b == b[..|b| - 1] + [Last(b)];
      } else {
        HitsUnique(additions, re, init, a, b);
      }
    }
  }
}
