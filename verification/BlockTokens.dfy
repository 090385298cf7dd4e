/** The blocks of GroupBlocks (blocks.go) in terms of tokens alone. */
module BlockTokens {
  import opened Blocks
  import opened BlockTheorems

  /** A token that both names hold, or two different tokens that the changed lines of both hold. */
  ghost predicate Related(a: Signals, b: Signals) {
    || (exists v :: v in a.path && v in b.path)
    || (exists v, w :: v != w && v in a.code && w in a.code && v in b.code && w in b.code)
  }

  lemma TwoOf(s: set<string>)
    ensures |s| >= 2 <==> exists v, w :: v != w && v in s && w in s
  {
    if |s| >= 2 {
      var v :| v in s;
      assert s == s - {v} + {v};
      var w :| w in s - {v};
      assert v != w && v in s && w in s;
    }
    if v, w :| v != w && v in s && w in s {
      SubsetSize({v, w}, s);
    }
  }

  lemma SharedIsRelated(a: Signals, b: Signals)
    ensures Shared(a, b) <==> Related(a, b)
  {
    TwoOf(a.code * b.code);
    if v :| v in a.path && v in b.path { assert v in a.path * b.path; }
    if a.path * b.path != {} { var v :| v in a.path * b.path; }
    if v, w :| v != w && v in a.code && w in a.code && v in b.code && w in b.code {
      assert v in a.code * b.code && w in a.code * b.code;
    }
  }

  /** A chain of files, each related to the one before it. */
  ghost predicate RelatedChain(files: seq<File>, path: seq<nat>) {
    && path != [] && (forall k :: 0 <= k < |path| ==> path[k] < |files|)
    && forall k :: 0 <= k < |path| - 1 ==> Related(files[path[k]].signals, files[path[k + 1]].signals)
  }

  ghost predicate Connected(files: seq<File>, x: nat, y: nat) {
    exists path :: RelatedChain(files, path) && path[0] == x && path[|path| - 1] == y
  }

  lemma RelatedChainIsChain(files: seq<File>, path: seq<nat>)
    requires RelatedChain(files, path)
    ensures Chain(files, path)
  {
    forall k | 0 <= k < |path| - 1 ensures Shared(files[path[k]].signals, files[path[k + 1]].signals) {
      SharedIsRelated(files[path[k]].signals, files[path[k + 1]].signals);
    }
  }

  lemma LongerChain(files: seq<File>, x: nat, rest: seq<nat>)
    requires RelatedChain(files, rest) && x < |files| && Related(files[x].signals, files[rest[0]].signals)
    ensures RelatedChain(files, [x] + rest) && ([x] + rest)[|rest|] == rest[|rest| - 1]
  {
    var path := [x] + rest;
    forall k | 0 <= k < |path| - 1 ensures Related(files[path[k]].signals, files[path[k + 1]].signals) {
      if k > 0 { assert path[k] == rest[k - 1] && path[k + 1] == rest[k]; }
    }
  }

  /** A chain without the places where it stands still. */
  lemma {:induction false} WithoutStandstill(files: seq<File>, path: seq<nat>) returns (moves: seq<nat>)
    requires Chain(files, path)
    ensures RelatedChain(files, moves) && moves[0] == path[0] && moves[|moves| - 1] == path[|path| - 1]
    decreases |path|
  {
    if |path| == 1 {
      moves := path;
    } else {
      var rest := path[1..];
      assert Chain(files, rest);
      var more := WithoutStandstill(files, rest);
      SharedIsRelated(files[path[0]].signals, files[path[1]].signals);
      if path[0] == path[1] {
        moves := more;
      } else {
        LongerChain(files, path[0], more);
        moves := [path[0]] + more;
      }
    }
  }

  lemma LinkedIsConnected(files: seq<File>, x: nat, y: nat)
    ensures Linked(files, x, y) <==> Connected(files, x, y)
  {
    if path :| Chain(files, path) && path[0] == x && path[|path| - 1] == y {
      var moves := WithoutStandstill(files, path);
    }
    if path :| RelatedChain(files, path) && path[0] == x && path[|path| - 1] == y {
      RelatedChainIsChain(files, path);
    }
  }

  /** One block shows both files. */
  ghost predicate Together(files: seq<File>, out: seq<Block>, i: nat, j: nat)
    requires i < |files| && j < |files|
  {
    exists k :: 0 <= k < |out| && files[i].path in out[k].paths && files[j].path in out[k].paths
  }

  lemma InBlock(files: seq<File>, out: seq<Block>, of: seq<nat>, k: nat, i: nat)
    requires DistinctPaths(files) && IsBlockList(files, out, of) && k < |out| && i < |files|
    ensures files[i].path in out[k].paths <==> Linked(files, of[k], i)
  {
    PathOfBlock(files, out[k], of[k], files[i].path);
    if x: nat :| x < |files| && Linked(files, of[k], x) && files[x].path == files[i].path { assert x == i; }
  }

  /** Two files are shown by one block if and only if a chain of related files leads from one to the other. */
  lemma TogetherIffConnected(files: seq<File>, out: seq<Block>, of: seq<nat>, i: nat, j: nat)
    requires DistinctPaths(files) && IsBlockList(files, out, of) && i < |files| && j < |files| && i != j
    ensures Together(files, out, i, j) <==> Connected(files, i, j)
  {
    LinkedIsConnected(files, i, j);
    if k :| 0 <= k < |out| && files[i].path in out[k].paths && files[j].path in out[k].paths {
      InBlock(files, out, of, k, i);
      InBlock(files, out, of, k, j);
      LinkedSymmetric(files, of[k], i);
      LinkedTransitive(files, i, of[k], j);
    }
    if Linked(files, i, j) {
      LinkedReflexive(files, i);
      assert files[i] in Class(files, i) && files[j] in Class(files, i);
      TwoElements(Class(files, i), files[i], files[j]);
      assert Covered(files, of, i);
      var k :| 0 <= k < |of| && Linked(files, of[k], i);
      LinkedTransitive(files, of[k], i, j);
      InBlock(files, out, of, k, i);
      InBlock(files, out, of, k, j);
    }
  }

  /** Related files are shown by one block. */
  lemma RelatedAreTogether(files: seq<File>, out: seq<Block>, of: seq<nat>, i: nat, j: nat)
    requires DistinctPaths(files) && IsBlockList(files, out, of) && i < |files| && j < |files| && i != j
    requires Related(files[i].signals, files[j].signals)
    ensures Together(files, out, i, j)
  {
    assert RelatedChain(files, [i, j]);
    TogetherIffConnected(files, out, of, i, j);
  }

  /** Each file of a block is related to another file of the block. */
  lemma ShownIsRelated(files: seq<File>, out: seq<Block>, of: seq<nat>, k: nat, p: string) returns (i: nat, j: nat)
    requires DistinctPaths(files) && IsBlockList(files, out, of) && k < |out| && p in out[k].paths
    ensures i < |files| && j < |files| && i != j && files[i].path == p && files[j].path in out[k].paths
    ensures Related(files[i].signals, files[j].signals)
  {
    PathOfBlock(files, out[k], of[k], p);
    i :| i < |files| && Linked(files, of[k], i) && files[i].path == p;
    InBlock(files, out, of, k, i);
    NonEmpty(Class(files, of[k]), out[k]);
    BigClassHasNeighbour(files, of[k], i);
    j :| j < |files| && j != i && Shared(files[i].signals, files[j].signals);
    SharedIsRelated(files[i].signals, files[j].signals);
    SharingIsLinked(files, i, j);
    LinkedTransitive(files, of[k], i, j);
    InBlock(files, out, of, k, j);
  }

  lemma PairOfTwo(i: nat, j: nat)
    requires i < 2 && j < 2 && i != j
    ensures (i == 0 && j == 1) || (i == 1 && j == 0)
  {}

  lemma SomeAreRelated(files: seq<File>, out: seq<Block>, of: seq<nat>)
    requires DistinctPaths(files) && IsBlockList(files, out, of) && |files| == 2 && out != []
    ensures Related(files[0].signals, files[1].signals) || Related(files[1].signals, files[0].signals)
  {
    NonEmpty(Class(files, of[0]), out[0]);
    var i, j := ShownIsRelated(files, out, of, 0, out[0].paths[0]);
    PairOfTwo(i, j);
  }

  /** Two files that are not related make no block. */
  lemma TwoStrangersMakeNone(files: seq<File>, out: seq<Block>, of: seq<nat>)
    requires DistinctPaths(files) && IsBlockList(files, out, of) && |files| == 2
    requires !Related(files[0].signals, files[1].signals) && !Related(files[1].signals, files[0].signals)
    ensures out == []
  {
    if out != [] {
      SomeAreRelated(files, out, of);
    }
  }

  // ---- Topics ----

  ghost function Named(group: seq<File>, v: string): set<nat> {
    set k: nat | k < |group| && v in group[k].signals.path
  }

  ghost function Mentioned(group: seq<File>, v: string): set<nat> {
    set k: nat | k < |group| && (v in group[k].signals.path || v in group[k].signals.code)
  }

  lemma SetsNext(group: seq<File>, f: File, v: string)
    ensures Named(group + [f], v) == Named(group, v) + if v in f.signals.path then {|group|} else {}
    ensures Mentioned(group + [f], v) ==
      Mentioned(group, v) + if v in f.signals.path || v in f.signals.code then {|group|} else {}
  {
    assert forall k: nat :: k < |group| ==> (group + [f])[k] == group[k];
  }

  /** The score of a token: the files that hold it, and once more those whose names do. */
  lemma {:induction false} ScoreCounts(group: seq<File>, v: string)
    ensures Score(group, v) == |Mentioned(group, v)| + |Named(group, v)|
  {
    if group == [] {
      assert Named(group, v) == {} && Mentioned(group, v) == {};
    } else {
      var init, last := group[..|group| - 1], group[|group| - 1];
      ScoreCounts(init, v);
      SetsNext(init, last, v);
      assert group == init + [last];
    }
  }
}
