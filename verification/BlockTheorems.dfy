/** What GroupBlocks (blocks.go) promises about its blocks as a whole. */
module BlockTheorems {
  import opened Order
  import opened Blocks

  ghost predicate DistinctPaths(files: seq<File>) {
    forall i, j :: 0 <= i < j < |files| ==> files[i].path != files[j].path
  }

  lemma LinkedSymmetric(files: seq<File>, x: nat, y: nat)
    requires Linked(files, x, y)
    ensures Linked(files, y, x)
  {
    var p :| Chain(files, p) && p[0] == x && p[|p| - 1] == y;
    var back := seq(|p|, k requires 0 <= k < |p| => p[|p| - 1 - k]);
    forall k | 0 <= k < |back| - 1
      ensures back[k] == back[k + 1] || Shared(files[back[k]].signals, files[back[k + 1]].signals)
    {
      var m := |p| - 2 - k;
      assert p[m] == p[m + 1] || Shared(files[p[m]].signals, files[p[m + 1]].signals);
      SharedSymmetric(files[p[m]].signals, files[p[m + 1]].signals);
    }
    assert Chain(files, back);
  }

  lemma LinkedTransitive(files: seq<File>, x: nat, y: nat, z: nat)
    requires Linked(files, x, y) && Linked(files, y, z)
    ensures Linked(files, x, z)
  {
    var p :| Chain(files, p) && p[0] == x && p[|p| - 1] == y;
    var q :| Chain(files, q) && q[0] == y && q[|q| - 1] == z;
    assert Chain(files, p + q);
  }

  lemma LinkedReflexive(files: seq<File>, x: nat)
    requires x < |files|
    ensures Linked(files, x, x)
  {
    assert Chain(files, [x]);
  }

  ghost function Where(files: seq<File>, f: File): nat
    requires f in files
    ensures Where(files, f) < |files| && files[Where(files, f)] == f
  {
    var k :| 0 <= k < |files| && files[k] == f; k
  }

  /** Being linked is a matter of the files, not of where they stand in the input. */
  lemma LinkedTransfer(files: seq<File>, other: seq<File>, x: nat, y: nat, x': nat, y': nat)
    requires Linked(files, x, y) && (forall f :: f in files ==> f in other) && DistinctPaths(other)
    requires x < |files| && y < |files| && x' < |other| && y' < |other|
    requires files[x] == other[x'] && files[y] == other[y']
    ensures Linked(other, x', y')
  {
    var p :| Chain(files, p) && p[0] == x && p[|p| - 1] == y;
    var q := seq(|p|, k requires 0 <= k < |p| => Where(other, files[p[k]]));
    forall k | 0 <= k < |q| - 1
      ensures q[k] == q[k + 1] || Shared(other[q[k]].signals, other[q[k + 1]].signals)
    {
      assert p[k] == p[k + 1] || Shared(files[p[k]].signals, files[p[k + 1]].signals);
    }
    assert Chain(other, q);
  }

  lemma {:induction false} GroupDistinct(files: seq<File>, i: nat, n: nat)
    requires DistinctPaths(files) && n <= |files|
    ensures forall k, l :: 0 <= k < l < |Group(files, i, n)| ==>
      Group(files, i, n)[k].path != Group(files, i, n)[l].path
  {
    if n == 0 {
    } else {
      GroupDistinct(files, i, n - 1);
      var g := Group(files, i, n - 1);
      forall k | 0 <= k < |g| ensures g[k].path != files[n - 1].path {
        assert g[k] in g;
      }
    }
  }

  lemma SameElements<T(!new)>(a: seq<T>, b: seq<T>)
    requires forall i, j :: 0 <= i < j < |a| ==> a[i] != a[j]
    requires forall i, j :: 0 <= i < j < |b| ==> b[i] != b[j]
    requires forall x :: x in a <==> x in b
    ensures multiset(a) == multiset(b)
  {
    forall x ensures multiset(a)[x] == multiset(b)[x] { CountDistinct(a, x); CountDistinct(b, x); }
  }

  lemma ClassContained(files: seq<File>, other: seq<File>, i: nat, i': nat)
    requires DistinctPaths(other) && (forall f :: f in files ==> f in other)
    requires i < |files| && i' < |other| && files[i] == other[i']
    ensures forall f :: f in Class(files, i) ==> f in Class(other, i')
  {
    forall f | f in Class(files, i) ensures f in Class(other, i') {
      var k: nat :| k < |files| && Linked(files, i, k) && files[k] == f;
      LinkedTransfer(files, other, i, k, i', Where(other, f));
    }
  }

  lemma ClassTransfer(files: seq<File>, other: seq<File>, i: nat, i': nat)
    requires DistinctPaths(files) && DistinctPaths(other) && multiset(files) == multiset(other)
    requires i < |files| && i' < |other| && files[i] == other[i']
    ensures multiset(Class(files, i)) == multiset(Class(other, i'))
  {
    forall f ensures f in files <==> f in other { assert f in multiset(files) <==> f in multiset(other); }
    ClassContained(files, other, i, i');
    ClassContained(other, files, i', i);
    GroupDistinct(files, i, |files|);
    GroupDistinct(other, i', |other|);
    SameElements(Class(files, i), Class(other, i'));
  }

  lemma PathsPermuted(a: seq<File>, b: seq<File>)
    requires multiset(a) == multiset(b)
    ensures multiset(Paths(a)) == multiset(Paths(b))
  {
    var path := (file: File) => file.path;
    assert Paths(a) == Mapped(path, a) && Paths(b) == Mapped(path, b);
    MappedPermuted(path, a, b);
  }

  /** The block of a class depends only on which files the class holds. */
  lemma BlockUnique(g: seq<File>, h: seq<File>, b: Block, c: Block)
    requires multiset(g) == multiset(h) && IsBlock(g, b) && IsBlock(h, c)
    ensures b == c
  {
    StrLessIsTotal();
    PathsPermuted(g, h);
    SortedUnique(b.paths, c.paths, StrLess);
    forall v ensures Score(g, v) == Score(h, v) { ScorePermuted(g, h, v); }
    assert IsTopic(g, c.topic);
    TopicUnique(g, b.topic, c.topic);
  }

  /** A block shows exactly the paths of its class. */
  lemma PathOfBlock(files: seq<File>, b: Block, i: nat, p: string)
    requires i < |files| && IsBlock(Class(files, i), b)
    ensures p in b.paths <==> exists k: nat :: k < |files| && Linked(files, i, k) && files[k].path == p
  {
    var g := Class(files, i);
    assert p in b.paths <==> p in multiset(Paths(g));
    if p in Paths(g) {
      var m :| 0 <= m < |Paths(g)| && Paths(g)[m] == p;
      assert g[m] in g;
    }
    if k: nat :| k < |files| && Linked(files, i, k) && files[k].path == p {
      assert files[k] in g;
      var m :| 0 <= m < |g| && g[m] == files[k];
      assert Paths(g)[m] == p;
    }
  }

  lemma CommonPathLinks(files: seq<File>, i: nat, j: nat, b: Block, c: Block, p: string)
    requires DistinctPaths(files) && i < |files| && j < |files|
    requires IsBlock(Class(files, i), b) && IsBlock(Class(files, j), c) && p in b.paths && p in c.paths
    ensures Linked(files, i, j)
  {
    PathOfBlock(files, b, i, p);
    PathOfBlock(files, c, j, p);
    var x: nat :| x < |files| && Linked(files, i, x) && files[x].path == p;
    var y: nat :| y < |files| && Linked(files, j, y) && files[y].path == p;
    LinkedSymmetric(files, j, y);
    LinkedTransitive(files, i, x, j);
  }

  /** Blocks of two classes share no path, so their first paths tell them apart. */
  lemma ApartAndOrdered(files: seq<File>, i: nat, j: nat, b: Block, c: Block)
    requires DistinctPaths(files) && i < |files| && j < |files| && !Linked(files, i, j)
    requires IsBlock(Class(files, i), b) && IsBlock(Class(files, j), c)
    ensures forall p :: !(p in b.paths && p in c.paths)
    ensures Earlier(b, c) || Earlier(c, b)
  {
    forall p ensures !(p in b.paths && p in c.paths) {
      if p in b.paths && p in c.paths { CommonPathLinks(files, i, j, b, c, p); }
    }
    NonEmpty(Class(files, i), b);
    NonEmpty(Class(files, j), c);
    assert FirstPath(b) in b.paths && FirstPath(c) in c.paths;
    StrLessTotal(FirstPath(b), FirstPath(c));
  }

  lemma OrderedApart(files: seq<File>, out: seq<Block>, of: seq<nat>, k: nat, l: nat)
    requires DistinctPaths(files) && IsBlockList(files, out, of) && k < l < |out|
    ensures Earlier(out[k], out[l]) && forall p :: !(p in out[k].paths && p in out[l].paths)
  {
    ApartAndOrdered(files, of[k], of[l], out[k], out[l]);
  }

  lemma {:induction false} BlocksStrictlySorted(files: seq<File>, out: seq<Block>, of: seq<nat>)
    requires DistinctPaths(files) && IsBlockList(files, out, of)
    ensures StrictlySortedBy(out, Earlier)
    ensures forall k, l :: 0 <= k < l < |out| ==>
      out[k].paths != [] && out[l].paths != [] && StrLess(out[k].paths[0], out[l].paths[0])
    ensures forall k, l, p :: 0 <= k < l < |out| ==> !(p in out[k].paths && p in out[l].paths)
  {
    forall k: nat, l: nat | k < l < |out|
      ensures Earlier(out[k], out[l]) && forall p :: !(p in out[k].paths && p in out[l].paths)
    {
      OrderedApart(files, out, of, k, l);
    }
    forall k | 0 <= k < |out| ensures out[k].paths != [] { NonEmpty(Class(files, of[k]), out[k]); }
  }

  lemma NonEmpty(g: seq<File>, b: Block)
    requires IsBlock(g, b)
    ensures |b.paths| == |g| >= 2
  {
    assert |b.paths| == |multiset(b.paths)| == |multiset(Paths(g))| == |Paths(g)|;
  }

  /**
   Blocks are disjoint, show at least two files each, and together show exactly the files that share
   signals with another file.
   */
  lemma BlocksPartitionSharingFiles(files: seq<File>, out: seq<Block>, of: seq<nat>)
    requires DistinctPaths(files) && IsBlockList(files, out, of)
    ensures forall k, l, p :: 0 <= k < l < |out| ==> !(p in out[k].paths && p in out[l].paths)
    ensures forall k :: 0 <= k < |out| ==> |out[k].paths| >= 2
    ensures forall i: nat :: i < |files| ==>
      ((exists k :: 0 <= k < |out| && files[i].path in out[k].paths) <==>
       (exists j: nat :: j < |files| && j != i && Shared(files[i].signals, files[j].signals)))
  {
    BlocksStrictlySorted(files, out, of);
    forall k | 0 <= k < |out| ensures |out[k].paths| >= 2 { NonEmpty(Class(files, of[k]), out[k]); }
    forall i: nat | i < |files|
      ensures (exists k :: 0 <= k < |out| && files[i].path in out[k].paths) <==>
              (exists j: nat :: j < |files| && j != i && Shared(files[i].signals, files[j].signals))
    {
      ShownIffSharing(files, out, of, i);
    }
  }

  lemma ShownIffSharing(files: seq<File>, out: seq<Block>, of: seq<nat>, i: nat)
    requires DistinctPaths(files) && IsBlockList(files, out, of) && i < |files|
    ensures (exists k :: 0 <= k < |out| && files[i].path in out[k].paths) <==>
            (exists j: nat :: j < |files| && j != i && Shared(files[i].signals, files[j].signals))
  {
    if k :| 0 <= k < |out| && files[i].path in out[k].paths {
      ShownHasNeighbour(files, of[k], out[k], i);
    }
    if j: nat :| j < |files| && j != i && Shared(files[i].signals, files[j].signals) {
      TwoMembers(files, i, j);
      assert Covered(files, of, i);
      var k :| 0 <= k < |of| && Linked(files, of[k], i);
      PathOfBlock(files, out[k], of[k], files[i].path);
    }
  }

  lemma ShownHasNeighbour(files: seq<File>, r: nat, b: Block, i: nat)
    requires DistinctPaths(files) && r < |files| && i < |files| && IsBlock(Class(files, r), b)
    requires files[i].path in b.paths
    ensures exists j: nat :: j < |files| && j != i && Shared(files[i].signals, files[j].signals)
  {
    PathOfBlock(files, b, r, files[i].path);
    BigClassHasNeighbour(files, r, i);
  }

  lemma SharingIsLinked(files: seq<File>, i: nat, j: nat)
    requires i < |files| && j < |files| && Shared(files[i].signals, files[j].signals)
    ensures Linked(files, i, j)
  {
    assert Chain(files, [i, j]);
  }

  lemma TwoMembers(files: seq<File>, i: nat, j: nat)
    requires DistinctPaths(files) && i < |files| && j < |files| && i != j && Shared(files[i].signals, files[j].signals)
    ensures |Class(files, i)| >= 2
  {
    SharingIsLinked(files, i, j);
    LinkedReflexive(files, i);
    var g := Class(files, i);
    assert files[i] in g && files[j] in g;
    TwoElements(g, files[i], files[j]);
  }

  lemma TwoElements<T>(s: seq<T>, x: T, y: T)
    requires x in s && y in s && x != y
    ensures |s| >= 2
  {}

  /** In a class of two files or more every file shares signals with another file of the input. */
  lemma BigClassHasNeighbour(files: seq<File>, r: nat, i: nat)
    requires DistinctPaths(files) && r < |files| && i < |files| && |Class(files, r)| >= 2 && Linked(files, r, i)
    ensures exists j: nat :: j < |files| && j != i && Shared(files[i].signals, files[j].signals)
  {
    var x := OtherMember(files, r, i);
    LinkedSymmetric(files, r, i);
    LinkedTransitive(files, i, r, x);
    var p :| Chain(files, p) && p[0] == i && p[|p| - 1] == x;
    LeavesStart(files, p);
  }

  lemma OtherMember(files: seq<File>, r: nat, i: nat) returns (x: nat)
    requires DistinctPaths(files) && r < |files| && i < |files| && |Class(files, r)| >= 2
    ensures x < |files| && x != i && Linked(files, r, x)
  {
    var g := Class(files, r);
    GroupDistinct(files, r, |files|);
    assert g[0].path != g[1].path;
    var f := if g[0] == files[i] then g[1] else g[0];
    assert f in g;
    x :| x < |files| && Linked(files, r, x) && files[x] == f;
  }

  lemma LeavesStart(files: seq<File>, p: seq<nat>)
    requires Chain(files, p) && p[0] != p[|p| - 1]
    ensures exists j: nat :: j < |files| && j != p[0] && Shared(files[p[0]].signals, files[j].signals)
    decreases |p|
  {
    if p[0] == p[1] {
      var q := p[1..];
      forall k | 0 <= k < |q| - 1 ensures q[k] == q[k + 1] || Shared(files[q[k]].signals, files[q[k + 1]].signals) {
        var m := k + 1;
        assert q[k] == p[m] && q[k + 1] == p[m + 1];
      }
      LeavesStart(files, q);
    }
  }

  /** Linked files stand for the same class. */
  lemma LinkedSameClass(files: seq<File>, r: nat, i: nat)
    requires Linked(files, r, i)
    ensures Class(files, r) == Class(files, i)
  {
    forall x: nat | x < |files| ensures Linked(files, r, x) <==> Linked(files, i, x) {
      if Linked(files, i, x) { LinkedTransitive(files, r, i, x); }
      if Linked(files, r, x) {
        LinkedSymmetric(files, r, i);
        LinkedTransitive(files, i, r, x);
      }
    }
    SameClass(files, r, i, |files|);
  }

  lemma ShownInBoth(files: seq<File>, other: seq<File>, out': seq<Block>, of': seq<nat>, i: nat, b: Block)
    requires DistinctPaths(files) && DistinctPaths(other) && multiset(files) == multiset(other)
    requires IsBlockList(other, out', of') && i < |files| && IsBlock(Class(files, i), b)
    ensures b in out'
  {
    assert files[i] in multiset(other);
    var i' := Where(other, files[i]);
    ClassTransfer(files, other, i, i');
    assert |Class(other, i')| == |multiset(Class(other, i'))| == |Class(files, i)|;
    assert Covered(other, of', i');
    var m :| 0 <= m < |of'| && Linked(other, of'[m], i');
    LinkedSameClass(other, of'[m], i');
    BlockUnique(Class(files, i), Class(other, i'), b, out'[m]);
  }

  /** GroupBlocks gives the same blocks for every order of the files and every order in which maps are walked. */
  lemma BlocksDeterministic(files: seq<File>, other: seq<File>, out: seq<Block>, of: seq<nat>, out': seq<Block>,
                            of': seq<nat>)
    requires DistinctPaths(files) && multiset(files) == multiset(other)
    requires IsBlockList(files, out, of) && IsBlockList(other, out', of')
    ensures out == out'
  {
    PathsPermuted(files, other);
    DistinctMultiset(Paths(files), Paths(other));
    assert DistinctPaths(other) by {
      forall i, j | 0 <= i < j < |other| ensures other[i].path != other[j].path {
        assert Paths(other)[i] != Paths(other)[j];
      }
    }
    forall b ensures b in out <==> b in out' {
      if b in out { var k :| 0 <= k < |out| && out[k] == b; ShownInBoth(files, other, out', of', of[k], b); }
      if b in out' { var k :| 0 <= k < |out'| && out'[k] == b; ShownInBoth(other, files, out, of, of'[k], b); }
    }
    BlocksStrictlySorted(files, out, of);
    BlocksStrictlySorted(other, out', of');
    EarlierIsWeakOrder();
    StrictlySortedUnique(out, out', Earlier);
  }
}
