/** Review blocks: files of one diff grouped by the signals they share (blocks.go). */
module Blocks {
  import opened Order
  import opened Loops
  import opened Components

  /** The tokens of a file's name and of its changed lines. */
  datatype Signals = Signals(path: set<string>, code: set<string>)
  datatype File = File(path: string, signals: Signals)
  /** The identifier, title and summary of a block are functions of these two. */
  datatype Block = Block(topic: string, paths: seq<string>)

  /** One common path token, or two common code tokens. */
  predicate Shared(a: Signals, b: Signals) {
    a.path * b.path != {} || |a.code * b.code| >= 2
  }

  lemma SharedSymmetric(a: Signals, b: Signals)
    ensures Shared(a, b) == Shared(b, a)
  {
    assert a.path * b.path == b.path * a.path && a.code * b.code == b.code * a.code;
  }

  /** shared: walks the two token sets in any order and stops at the first decisive token. */
  method SharesSignals(a: Signals, b: Signals) returns (r: bool)
    ensures r == Shared(a, b)
  {
    r := HasCommon(a.path, b.path, 1);
    if !r {
      r := HasCommon(a.code, b.code, 2);
    } else {
      assert a.path * b.path != {};
    }
  }

  /** Counts tokens of a that b has until `enough` are found. */
  method HasCommon(a: set<string>, b: set<string>, enough: nat) returns (r: bool)
    requires enough > 0
    ensures r == (|a * b| >= enough)
  {
    var count, rest := 0, a;
    assert (a - rest) * b == {};
    while rest != {}
      invariant rest <= a && count == |(a - rest) * b| && count < enough
    {
      var v :| v in rest;
      CountOne(a, b, rest, v);
      rest := rest - {v};
      if v in b {
        count := count + 1;
        if count >= enough {
          SubsetSize((a - rest) * b, a * b);
          return true;
        }
      }
    }
    assert (a - rest) * b == a * b;
    r := false;
  }

  lemma SubsetSize<T>(a: set<T>, b: set<T>)
    requires a <= b
    ensures |a| <= |b|
  {
    assert b == a + (b - a);
  }

  // ---- The classes of files ----

  /** A chain of files in which neighbours share signals. */
  ghost predicate Chain(files: seq<File>, path: seq<nat>) {
    && path != []
    && (forall k :: 0 <= k < |path| ==> path[k] < |files|)
    && (forall k :: 0 <= k < |path| - 1 ==>
      path[k] == path[k + 1] || Shared(files[path[k]].signals, files[path[k + 1]].signals))
  }

  ghost predicate Linked(files: seq<File>, x: nat, y: nat) {
    exists path :: Chain(files, path) && path[0] == x && path[|path| - 1] == y
  }

  /** The pairs (u, v) the union loops have joined once they stand at (i, j). */
  ghost predicate Recorded(files: seq<File>, links: set<(nat, nat)>, i: nat, j: nat) {
    forall u: nat, v: nat :: (u, v) in links <==>
      u < v < |files| && (u < i || (u == i && v < j)) && Shared(files[u].signals, files[v].signals)
  }

  lemma JoinedIsLinked(files: seq<File>, links: set<(nat, nat)>, x: nat, y: nat)
    requires Recorded(files, links, |files|, 0)
    ensures Joined(|files|, links, x, y) <==> Linked(files, x, y)
  {
    forall path ensures Walk(|files|, links, path) <==> Chain(files, path) {
      if forall k :: 0 <= k < |path| ==> path[k] < |files| {
        forall k | 0 <= k < |path| - 1
          ensures Step(links, path[k], path[k + 1]) <==>
                  path[k] == path[k + 1] || Shared(files[path[k]].signals, files[path[k + 1]].signals)
        {
          SharedSymmetric(files[path[k]].signals, files[path[k + 1]].signals);
        }
        if Walk(|files|, links, path) { assert Chain(files, path); }
        if Chain(files, path) { assert Walk(|files|, links, path); }
      }
    }
  }

  /** What the union loops know on their way: the partition and the links it stands for. */
  datatype Progress = Progress(root: seq<nat>, height: seq<nat>, links: set<(nat, nat)>)

  ghost predicate Stands(files: seq<File>, p: seq<nat>, at: Progress, i: nat, j: nat) {
    Partition(p, at.root, at.height, at.links) && Recorded(files, at.links, i, j)
  }

  /** One visit of the inner loop: files i and j are joined if they share signals. */
  method UnitePair(files: seq<File>, parent: array<nat>, i: nat, j: nat, ghost at: Progress)
    returns (ghost next: Progress)
    requires i < j < |files| == parent.Length && Stands(files, parent[..], at, i, j)
    modifies parent
    ensures Stands(files, parent[..], next, i, j + 1)
  {
    var shares := SharesSignals(files[i].signals, files[j].signals);
    RecordPair(files, at.links, i, j);
    next := at;
    if shares {
      ghost var root, height := Union(parent, i, j, at.root, at.height, at.links);
      next := Progress(root, height, at.links + {(i, j)});
    }
  }

  /**
   The pairwise union loops: two files get the same representative exactly when a chain of sharing files joins them.
   */
  method Unite(files: seq<File>) returns (parent: array<nat>, ghost root: seq<nat>, ghost height: seq<nat>)
    ensures fresh(parent) && parent.Length == |files| && Forest(parent[..], root, height)
    ensures forall x: nat, y: nat :: x < |files| && y < |files| ==> (root[x] == root[y] <==> Linked(files, x, y))
  {
    parent := new nat[|files|](k => k);
    ghost var at := Progress(seq(|files|, k => k), seq(|files|, k => 0), {});
    SingletonsRepresent(|files|);
    assert parent[..] == at.root;
    for i := 0 to |files|
      invariant Stands(files, parent[..], at, i, 0)
    {
      NextRow(files, at.links, i);
      for j := i + 1 to |files|
        invariant Stands(files, parent[..], at, i, j)
      {
        at := UnitePair(files, parent, i, j, at);
      }
      NextRow(files, at.links, i);
    }
    root, height := at.root, at.height;
    ClassesAreLinked(files, root, at.links);
  }

  lemma NextRow(files: seq<File>, links: set<(nat, nat)>, i: nat)
    requires i < |files|
    ensures Recorded(files, links, i, 0) <==> Recorded(files, links, i, i + 1)
    ensures Recorded(files, links, i, |files|) <==> Recorded(files, links, i + 1, 0)
  {}

  lemma RecordPair(files: seq<File>, links: set<(nat, nat)>, i: nat, j: nat)
    requires i < j < |files| && Recorded(files, links, i, j)
    ensures Recorded(files, if Shared(files[i].signals, files[j].signals) then links + {(i, j)} else links, i, j + 1)
  {}

  lemma ClassesAreLinked(files: seq<File>, root: seq<nat>, links: set<(nat, nat)>)
    requires |root| == |files| && Represents(root, links) && Recorded(files, links, |files|, 0)
    ensures forall x: nat, y: nat :: x < |files| && y < |files| ==> (root[x] == root[y] <==> Linked(files, x, y))
  {
    forall x: nat, y: nat | x < |files| && y < |files| ensures root[x] == root[y] <==> Linked(files, x, y) {
      RepresentsExactly(root, links, x, y);
      JoinedIsLinked(files, links, x, y);
    }
  }

  // ---- Topics ----

  /** A token counts once for every file that has it, and once more where the file's name has it. */
  ghost function Score(group: seq<File>, v: string): nat {
    if group == [] then 0
    else
      Score(group[..|group| - 1], v) + Weight(group[|group| - 1], v)
  }

  ghost function Weight(f: File, v: string): nat {
    (if v in f.signals.path then 1 else 0) + (if v in f.signals.path + f.signals.code then 1 else 0)
  }

  /** The lexicographically least token of maximal score. */
  ghost predicate IsTopic(group: seq<File>, t: string) {
    if forall v :: Score(group, v) == 0 then t == "related"
    else
      && Score(group, t) > 0
      && (forall v :: v != t ==>
        Score(group, v) < Score(group, t) || (Score(group, v) == Score(group, t) && StrLess(t, v)))
  }

  lemma TopicUnique(group: seq<File>, t: string, u: string)
    requires IsTopic(group, t) && IsTopic(group, u)
    ensures t == u
  {
    StrLessIsTotal();
    assert t == u || (forall v :: Score(group, v) == 0) || Score(group, t) == Score(group, u);
  }

  lemma {:induction false} ScoreSplit(a: seq<File>, b: seq<File>, v: string)
    ensures Score(a + b, v) == Score(a, v) + Score(b, v)
  {
    if b == [] {
      assert a + b == a;
    } else {
      assert (a + b)[..|a + b| - 1] == a + b[..|b| - 1];
      ScoreSplit(a, b[..|b| - 1], v);
    }
  }

  lemma {:induction false} ScorePermuted(a: seq<File>, b: seq<File>, v: string)
    requires multiset(a) == multiset(b)
    ensures Score(a, v) == Score(b, v)
    decreases |a|
  {
    assert |a| == |multiset(a)| == |multiset(b)| == |b|;
    if a == [] {
    } else {
      assert b[0] in multiset(a);
      var j :| 0 <= j < |a| && a[j] == b[0];
      BothWithout(a, b, j, 0);
      ScorePermuted(Without(a, j), Without(b, 0), v);
      ScoreWithout(a, j, v);
      ScoreWithout(b, 0, v);
    }
  }

  lemma {:induction false} ScoreWithout(s: seq<File>, k: nat, v: string)
    requires k < |s|
    ensures Score(s, v) == Score(Without(s, k), v) + Weight(s[k], v)
  {
    ScoreSplit(s[..k + 1], s[k + 1..], v);
    assert s == s[..k + 1] + s[k + 1..] && s[..k + 1][..k] == s[..k];
    ScoreSplit(s[..k], s[k + 1..], v);
  }

  function Count(counts: map<string, nat>, v: string): nat {
    if v in counts then counts[v] else 0
  }

  /** counts[v]++ for every v of a token set, in any order. */
  method CountAll(counts: map<string, nat>, tokens: set<string>) returns (r: map<string, nat>)
    requires forall v :: v in counts ==> counts[v] > 0
    ensures forall v :: v in r ==> r[v] > 0
    ensures forall v :: Count(r, v) == Count(counts, v) + if v in tokens then 1 else 0
  {
    r := counts;
    var rest := tokens;
    while rest != {}
      invariant rest <= tokens
      invariant forall v :: v in r ==> r[v] > 0
      invariant forall v :: Count(r, v) == Count(counts, v) + if v in tokens - rest then 1 else 0
    {
      var v :| v in rest;
      rest := rest - {v};
      r := r[v := Count(r, v) + 1];
    }
  }

  method Topic(group: seq<File>) returns (best: string)
    ensures IsTopic(group, best)
  {
    var counts: map<string, nat> := map[];
    for i := 0 to |group|
      invariant forall v :: v in counts ==> counts[v] > 0
      invariant forall v :: Count(counts, v) == Score(group[..i], v)
    {
      counts := CountAll(counts, group[i].signals.path);
      counts := CountAll(counts, group[i].signals.code + group[i].signals.path);
      assert group[..i + 1][..i] == group[..i];
    }
    assert group[..|group|] == group;
    best := "related";
    var score := -1;
    var rest := counts.Keys;
    StrLessIsTotal();
    while rest != {}
      invariant rest <= counts.Keys
      invariant score == -1 ==> rest == counts.Keys && best == "related"
      invariant score != -1 ==> best in counts.Keys - rest && score == counts[best]
      invariant forall v :: v in counts.Keys - rest && v != best ==>
        counts[v] < score || (counts[v] == score && StrLess(best, v))
    {
      var v :| v in rest;
      rest := rest - {v};
      if counts[v] > score || (counts[v] == score && StrLess(v, best)) {
        best, score := v, counts[v];
      }
    }
    assert forall v :: Score(group, v) == Count(counts, v);
    if counts == map[] {
      assert forall v :: Score(group, v) == 0;
    } else {
      assert Score(group, best) > 0;
    }
  }

  // ---- Blocks ----

  /** The files i is linked to, in input order. */
  ghost function Group(files: seq<File>, i: nat, n: nat): (r: seq<File>)
    requires n <= |files|
    ensures forall f :: f in r <==> exists k: nat :: k < n && Linked(files, i, k) && files[k] == f
  {
    if n == 0 then [] else Group(files, i, n - 1) + if Linked(files, i, n - 1) then [files[n - 1]] else []
  }

  ghost function Class(files: seq<File>, i: nat): seq<File> {
    Group(files, i, |files|)
  }

  function Paths(group: seq<File>): seq<string> {
    seq(|group|, k requires 0 <= k < |group| => group[k].path)
  }

  ghost predicate IsBlock(group: seq<File>, b: Block) {
    && |group| >= 2
    && SortedBy(b.paths, StrLess) && multiset(b.paths) == multiset(Paths(group))
    && IsTopic(group, b.topic)
  }

  function FirstPath(b: Block): string {
    if b.paths == [] then "" else b.paths[0]
  }

  predicate Earlier(a: Block, b: Block) {
    StrLess(FirstPath(a), FirstPath(b))
  }

  lemma EarlierIsWeakOrder()
    ensures StrictWeakOrder(Earlier)
  {
    StrLessIsTotal();
  }

  /** `of[k]` is a file of the class shown by block k: one block for every class of two files or more, sorted. */
  ghost predicate IsBlockList(files: seq<File>, out: seq<Block>, of: seq<nat>) {
    && |of| == |out|
    && (forall k :: 0 <= k < |of| ==> of[k] < |files| && IsBlock(Class(files, of[k]), out[k]))
    && (forall k, l :: 0 <= k < l < |of| ==> !Linked(files, of[k], of[l]))
    && (forall i: nat {:trigger Covered(files, of, i)} :: i < |files| && |Class(files, i)| >= 2 ==>
      Covered(files, of, i))
    && SortedBy(out, Earlier)
  }

  ghost predicate Covered(files: seq<File>, of: seq<nat>, i: nat) {
    exists k :: 0 <= k < |of| && Linked(files, of[k], i)
  }

  // ---- Grouping ----

  /** The indexes below n whose representative is r, in increasing order. */
  ghost function Indexes(root: seq<nat>, r: nat, n: nat): (s: seq<nat>)
    requires n <= |root|
    ensures forall k :: 0 <= k < |s| ==> s[k] < n
  {
    if n == 0 then [] else Indexes(root, r, n - 1) + if root[n - 1] == r then [n - 1] else []
  }

  function Pick(files: seq<File>, indexes: seq<nat>): seq<File>
    requires forall k :: 0 <= k < |indexes| ==> indexes[k] < |files|
  {
    seq(|indexes|, k requires 0 <= k < |indexes| => files[indexes[k]])
  }

  lemma PickNext(files: seq<File>, indexes: seq<nat>, i: nat, taken: bool)
    requires i < |files| && forall k :: 0 <= k < |indexes| ==> indexes[k] < |files|
    ensures Pick(files, indexes + if taken then [i] else []) ==
      Pick(files, indexes) + if taken then [files[i]] else []
  {}

  lemma GroupNext(files: seq<File>, r: nat, n: nat, linked: bool)
    requires n < |files| && (linked <==> Linked(files, r, n))
    ensures Group(files, r, n + 1) == Group(files, r, n) + if linked then [files[n]] else []
  {}

  lemma {:induction false} IndexesNext(root: seq<nat>, r: nat, n: nat)
    requires n < |root|
    ensures Indexes(root, r, n + 1) == Indexes(root, r, n) + if root[n] == r then [n] else []
  {}

  lemma {:induction false} PickedNext(files: seq<File>, root: seq<nat>, r: nat, n: nat)
    requires n < |files| == |root| && (root[n] == r <==> Linked(files, r, n))
    requires Pick(files, Indexes(root, r, n)) == Group(files, r, n)
    ensures Pick(files, Indexes(root, r, n + 1)) == Group(files, r, n + 1)
  {
    IndexesNext(root, r, n);
    PickNext(files, Indexes(root, r, n), n, root[n] == r);
    GroupNext(files, r, n, root[n] == r);
  }

  ghost predicate RootShows(files: seq<File>, root: seq<nat>, r: nat, k: nat)
    requires k < |files| == |root|
  {
    root[k] == r <==> Linked(files, r, k)
  }

  lemma {:induction false} PickedClass(files: seq<File>, root: seq<nat>, r: nat, n: nat)
    requires n <= |files| == |root| && r < |files|
    requires forall k: nat :: k < n ==> RootShows(files, root, r, k)
    ensures Pick(files, Indexes(root, r, n)) == Group(files, r, n)
  {
    if n == 0 {
    } else {
      PickedClass(files, root, r, n - 1);
      assert RootShows(files, root, r, n - 1);
      PickedNext(files, root, r, n - 1);
    }
  }

  lemma {:induction false} SameClass(files: seq<File>, i: nat, j: nat, n: nat)
    requires n <= |files| && forall k: nat :: k < n ==> (Linked(files, i, k) <==> Linked(files, j, k))
    ensures Group(files, i, n) == Group(files, j, n)
  {
    if n == 0 {
    } else {
      SameClass(files, i, j, n - 1);
    }
  }

  lemma {:induction false} ClassSize(files: seq<File>, i: nat, n: nat)
    requires n <= |files|
    ensures |Group(files, i, n)| <= n
  {
    if n == 0 {
    } else {
      ClassSize(files, i, n - 1);
    }
  }

  /** After i files: under every representative met, the indexes of its files so far. */
  ghost predicate Gathered(root: seq<nat>, groups: map<nat, seq<nat>>, i: nat) {
    && i <= |root|
    && (forall r: nat :: GroupKnown(root, groups, i, r))
    && (forall k: nat :: k < i ==> FileKnown(root, groups, k))
  }

  ghost predicate GroupKnown(root: seq<nat>, groups: map<nat, seq<nat>>, i: nat, r: nat)
    requires i <= |root|
  {
    if r in groups then r < |root| && root[r] == r && groups[r] == Indexes(root, r, i) else Indexes(root, r, i) == []
  }

  ghost predicate FileKnown(root: seq<nat>, groups: map<nat, seq<nat>>, k: nat) {
    k < |root| && root[k] in groups
  }

  function Appended(groups: map<nat, seq<nat>>, r: nat, i: nat): map<nat, seq<nat>> {
    groups[r := (if r in groups then groups[r] else []) + [i]]
  }

  lemma GatherStep(root: seq<nat>, groups: map<nat, seq<nat>>, i: nat)
    requires Gathered(root, groups, i) && i < |root| && root[i] < |root| && root[root[i]] == root[i]
    ensures Gathered(root, Appended(groups, root[i], i), i + 1)
  {
    var next, n := Appended(groups, root[i], i), i + 1;
    forall r: nat ensures GroupKnown(root, next, n, r) { assert GroupKnown(root, groups, i, r); }
    forall k: nat | k < i + 1 ensures FileKnown(root, next, k) { if k < i { assert FileKnown(root, groups, k); } }
  }

  /** groups[find(i)] = append(groups[find(i)], i) */
  method CollectOne(parent: array<nat>, ghost root: seq<nat>, ghost height: seq<nat>, groups: map<nat, seq<nat>>,
                    i: nat)
    returns (r: map<nat, seq<nat>>)
    requires Forest(parent[..], root, height) && i < parent.Length
    modifies parent
    ensures Forest(parent[..], root, height) && r == Appended(groups, root[i], i)
  {
    var top := Find(parent, i, root, height);
    var entry := if top in groups then groups[top] else [];
    top := Find(parent, i, root, height);
    r := groups[top := entry + [i]];
  }

  method Collect(parent: array<nat>, ghost root: seq<nat>, ghost height: seq<nat>) returns (groups: map<nat, seq<nat>>)
    requires Forest(parent[..], root, height)
    modifies parent
    ensures Gathered(root, groups, |root|)
  {
    groups := map[];
    for i := 0 to parent.Length
      invariant Forest(parent[..], root, height) && Gathered(root, groups, i)
    {
      Representative(parent[..], root, height, i);
      GatherStep(root, groups, i);
      groups := CollectOne(parent, root, height, groups, i);
    }
  }

  /** One block for a group of at least two files. */
  method MakeBlock(group: seq<File>) returns (b: Block)
    requires |group| >= 2
    ensures IsBlock(group, b)
  {
    StrLessIsTotal();
    var paths := Sort(Paths(group), StrLess);
    var topic := Topic(group);
    b := Block(topic, paths);
  }

  /** The groups hold file indexes. */
  ghost predicate Indexed(n: nat, groups: map<nat, seq<nat>>) {
    forall r :: r in groups ==> forall k :: 0 <= k < |groups[r]| ==> groups[r][k] < n
  }

  lemma GatheredIndexed(root: seq<nat>, groups: map<nat, seq<nat>>)
    requires Gathered(root, groups, |root|)
    ensures Indexed(|root|, groups)
  {
    forall r | r in groups ensures forall k :: 0 <= k < |groups[r]| ==> groups[r][k] < |root| {
      assert GroupKnown(root, groups, |root|, r);
    }
  }

  /** The blocks of the groups, met in any order: `of` names the group each block shows. */
  method MakeBlocks(files: seq<File>, groups: map<nat, seq<nat>>) returns (out: seq<Block>, ghost of: seq<nat>)
    requires Indexed(|files|, groups)
    ensures |of| == |out|
    ensures forall k :: 0 <= k < |of| ==> of[k] in groups && IsBlock(Pick(files, groups[of[k]]), out[k])
    ensures forall k, l :: 0 <= k < l < |of| ==> of[k] != of[l]
    ensures forall r :: r in groups && |groups[r]| >= 2 ==> r in of
  {
    out, of := [], [];
    var rest := groups.Keys;
    while rest != {}
      invariant rest <= groups.Keys && |of| == |out|
      invariant forall k :: 0 <= k < |of| ==>
        of[k] in groups && of[k] !in rest && IsBlock(Pick(files, groups[of[k]]), out[k])
      invariant forall k, l :: 0 <= k < l < |of| ==> of[k] != of[l]
      invariant forall r :: r in groups && r !in rest && |groups[r]| >= 2 ==> r in of
    {
      var r :| r in rest;
      rest := rest - {r};
      if |groups[r]| >= 2 {
        var b := MakeBlock(Pick(files, groups[r]));
        out, of := out + [b], of + [r];
      }
    }
  }

  /** GroupBlocks: exactly one block for every class of two files or more, sorted by first path. */
  method GroupBlocks(files: seq<File>) returns (out: seq<Block>)
    ensures exists of :: IsBlockList(files, out, of)
  {
    if |files| < 2 {
      forall i: nat ensures |Class(files, i)| < 2 { ClassSize(files, i, |files|); }
      assert IsBlockList(files, [], []);
      return [];
    }
    var parent, root, height := Unite(files);
    ghost var p := parent[..];
    var groups := Collect(parent, root, height);
    GatheredIndexed(root, groups);
    var made, shown := MakeBlocks(files, groups);
    assert Idempotent(root) by {
      forall i: nat | i < |root| ensures RepresentsItself(root, i) { Representative(p, root, height, i); }
    }
    out := SortBlocks(made);
    ghost var of := Assemble(files, root, groups, made, shown, out);
  }

  method SortBlocks(made: seq<Block>) returns (out: seq<Block>)
    ensures SortedBy(out, Earlier) && multiset(out) == multiset(made)
  {
    EarlierIsWeakOrder();
    out := Sort(made, Earlier);
  }

  lemma Assemble(files: seq<File>, root: seq<nat>, groups: map<nat, seq<nat>>, made: seq<Block>, shown: seq<nat>,
                 out: seq<Block>)
    returns (of: seq<nat>)
    requires |root| == |files| && Gathered(root, groups, |files|) && Indexed(|files|, groups)
    requires forall x: nat, y: nat :: x < |files| && y < |files| ==> (root[x] == root[y] <==> Linked(files, x, y))
    requires Idempotent(root)
    requires |shown| == |made| && forall k, l :: 0 <= k < l < |shown| ==> shown[k] != shown[l]
    requires forall k :: 0 <= k < |shown| ==> shown[k] in groups && IsBlock(Pick(files, groups[shown[k]]), made[k])
    requires forall r :: r in groups && |groups[r]| >= 2 ==> r in shown
    requires SortedBy(out, Earlier) && multiset(out) == multiset(made)
    ensures IsBlockList(files, out, of)
  {
    GroupsAreClasses(files, root, groups);
    forall k | 0 <= k < |shown| ensures shown[k] < |root| && root[shown[k]] == shown[k] {
      assert GroupKnown(root, groups, |files|, shown[k]);
    }
    var from := Rearrangement(made, out);
    of := seq(|from|, k requires 0 <= k < |from| => shown[from[k]]);
    Complete(files, root, groups, shown, from, of);
    forall k, l | 0 <= k < l < |of| ensures !Linked(files, of[k], of[l]) {
      assert from[k] != from[l];
      assert of[k] != of[l] && root[of[k]] == of[k] && root[of[l]] == of[l];
    }
  }

  /** A representative represents itself. */
  ghost predicate Idempotent(root: seq<nat>) {
    forall i: nat :: i < |root| ==> RepresentsItself(root, i)
  }

  ghost predicate RepresentsItself(root: seq<nat>, i: nat)
    requires i < |root|
  {
    root[i] < |root| && root[root[i]] == root[i]
  }

  lemma GroupsAreClasses(files: seq<File>, root: seq<nat>, groups: map<nat, seq<nat>>)
    requires |root| == |files| && Gathered(root, groups, |files|) && Indexed(|files|, groups)
    requires forall x: nat, y: nat :: x < |files| && y < |files| ==> (root[x] == root[y] <==> Linked(files, x, y))
    ensures forall r :: r in groups ==> Pick(files, groups[r]) == Class(files, r)
  {
    forall r | r in groups ensures Pick(files, groups[r]) == Class(files, r) {
      assert GroupKnown(root, groups, |files|, r);
      PickedClass(files, root, r, |files|);
    }
  }

  lemma Complete(files: seq<File>, root: seq<nat>, groups: map<nat, seq<nat>>, shown: seq<nat>, from: seq<nat>,
                 of: seq<nat>)
    requires |root| == |files| && Gathered(root, groups, |files|)
    requires forall x: nat, y: nat :: x < |files| && y < |files| ==> (root[x] == root[y] <==> Linked(files, x, y))
    requires Idempotent(root)
    requires forall r :: r in groups && |groups[r]| >= 2 ==> r in shown
    requires |of| == |from| && forall k :: 0 <= k < |from| ==> from[k] < |shown| && of[k] == shown[from[k]]
    requires forall j: nat :: j < |shown| ==> j in from
    ensures forall i: nat {:trigger Covered(files, of, i)} :: i < |files| && |Class(files, i)| >= 2 ==>
      Covered(files, of, i)
  {
    forall i: nat | i < |files| && |Class(files, i)| >= 2 ensures Covered(files, of, i) {
      assert RepresentsItself(root, i);
      BigClassKept(files, root, groups, i);
      var j :| 0 <= j < |shown| && shown[j] == root[i];
      assert j in from;
      var k :| 0 <= k < |from| && from[k] == j;
      assert of[k] == root[i];
    }
  }

  lemma BigClassKept(files: seq<File>, root: seq<nat>, groups: map<nat, seq<nat>>, i: nat)
    requires |root| == |files| && Gathered(root, groups, |files|)
    requires forall x: nat, y: nat :: x < |files| && y < |files| ==> (root[x] == root[y] <==> Linked(files, x, y))
    requires i < |root| && root[i] < |root| && root[root[i]] == root[i] && |Class(files, i)| >= 2
    ensures root[i] in groups && |groups[root[i]]| >= 2 && Linked(files, root[i], i)
  {
    assert FileKnown(root, groups, i) && GroupKnown(root, groups, |files|, root[i]);
    PickedClass(files, root, root[i], |files|);
    SameClass(files, i, root[i], |files|);
  }
}
