/** The union-find of blocks.go: a parent slice whose climbs end at the representative of a class. */
module Components {

  /** What a forest says of one element: its parent is in its class, and nearer to the representative. */
  ghost predicate At(p: seq<nat>, root: seq<nat>, height: seq<nat>, i: nat)
    requires |p| == |root| == |height|
  {
    && i < |p| && p[i] < |p| && root[i] < |p|
    && p[root[i]] == root[i] && root[p[i]] == root[i]
    && (p[i] == i ==> root[i] == i && height[i] == 0)
    && (p[i] != i ==> height[p[i]] < height[i])
  }

  /** `root` is the representative of every element of the parent slice p; `height` decreases on every climb. */
  ghost predicate Forest(p: seq<nat>, root: seq<nat>, height: seq<nat>) {
    |p| == |root| == |height| && forall i: nat :: i < |p| ==> At(p, root, height, i)
  }

  lemma Representative(p: seq<nat>, root: seq<nat>, height: seq<nat>, i: nat)
    requires Forest(p, root, height) && i < |p|
    ensures p[i] < |p| && root[i] < |p| && root[root[i]] == root[i] == p[root[i]] && height[root[i]] == 0
    ensures p[i] == i <==> root[i] == i
  {
    assert At(p, root, height, i);
    assert At(p, root, height, root[i]);
  }

  /** The element k parent steps above i. */
  ghost function Climb(p: seq<nat>, i: nat, k: nat): nat
    requires i < |p|
    decreases k
  {
    if k == 0 || p[i] >= |p| then i else Climb(p, p[i], k - 1)
  }

  /** Climbing ends at the representative, so a forest has only one root map: the parents decide it. */
  lemma {:induction false} ClimbReachesRoot(p: seq<nat>, root: seq<nat>, height: seq<nat>, i: nat, k: nat)
    requires Forest(p, root, height) && i < |p| && height[i] <= k
    ensures Climb(p, i, k) == root[i]
    decreases k
  {
    assert At(p, root, height, i);
    if k == 0 {
    } else {
      ClimbReachesRoot(p, root, height, p[i], k - 1);
    }
  }

  lemma RootsUnique(p: seq<nat>, r1: seq<nat>, h1: seq<nat>, r2: seq<nat>, h2: seq<nat>)
    requires Forest(p, r1, h1) && Forest(p, r2, h2)
    ensures r1 == r2
  {
    forall i | 0 <= i < |p| ensures r1[i] == r2[i] {
      var k := h1[i] + h2[i];
      ClimbReachesRoot(p, r1, h1, i, k);
      ClimbReachesRoot(p, r2, h2, i, k);
    }
  }

  /** find: climbs to the representative and hangs every element on the way directly below it. */
  method Find(parent: array<nat>, i: nat, ghost root: seq<nat>, ghost height: seq<nat>) returns (r: nat)
    requires Forest(parent[..], root, height) && i < parent.Length
    modifies parent
    ensures Forest(parent[..], root, height)
    ensures r == root[i] && parent[i] == r
    decreases height[i]
  {
    assert At(parent[..], root, height, i);
    if parent[i] != i {
      var above := Find(parent, parent[i], root, height);
      Compress(parent[..], root, height, i);
      parent[i] := above;
    }
    r := parent[i];
  }

  /** Hanging an element directly below its representative changes nobody's representative. */
  lemma Compress(p: seq<nat>, root: seq<nat>, height: seq<nat>, i: nat)
    requires Forest(p, root, height) && i < |p|
    ensures Forest(p[i := root[i]], root, height)
  {
    var q := p[i := root[i]];
    Representative(p, root, height, i);
    assert At(p, root, height, i);
    forall k: nat | k < |q| ensures At(q, root, height, k) {
      assert At(p, root, height, k);
      Representative(p, root, height, k);
    }
  }

  /** One step of a chain: the same element, or a recorded link in either direction. */
  ghost predicate Step(links: set<(nat, nat)>, u: nat, v: nat) {
    u == v || (u, v) in links || (v, u) in links
  }

  ghost predicate Walk(n: nat, links: set<(nat, nat)>, path: seq<nat>) {
    && path != []
    && (forall k :: 0 <= k < |path| ==> path[k] < n)
    && (forall k :: 0 <= k < |path| - 1 ==> Step(links, path[k], path[k + 1]))
  }

  /** The equivalence closure of the links on 0..n. */
  ghost predicate Joined(n: nat, links: set<(nat, nat)>, x: nat, y: nat) {
    exists path :: Walk(n, links, path) && path[0] == x && path[|path| - 1] == y
  }

  lemma JoinedReflexive(n: nat, links: set<(nat, nat)>, x: nat)
    requires x < n
    ensures Joined(n, links, x, x)
  {
    assert Walk(n, links, [x]);
  }

  lemma JoinedSymmetric(n: nat, links: set<(nat, nat)>, x: nat, y: nat)
    requires Joined(n, links, x, y)
    ensures Joined(n, links, y, x)
  {
    var path :| Walk(n, links, path) && path[0] == x && path[|path| - 1] == y;
    var back := seq(|path|, k requires 0 <= k < |path| => path[|path| - 1 - k]);
    forall k | 0 <= k < |back| - 1 ensures Step(links, back[k], back[k + 1]) {
      assert Step(links, path[|path| - 2 - k], path[|path| - 2 - k + 1]);
    }
    assert Walk(n, links, back);
  }

  lemma JoinedTransitive(n: nat, links: set<(nat, nat)>, x: nat, y: nat, z: nat)
    requires Joined(n, links, x, y) && Joined(n, links, y, z)
    ensures Joined(n, links, x, z)
  {
    var p :| Walk(n, links, p) && p[0] == x && p[|p| - 1] == y;
    var q :| Walk(n, links, q) && q[0] == y && q[|q| - 1] == z;
    assert Walk(n, links, p + q);
  }

  lemma JoinedMonotone(n: nat, links: set<(nat, nat)>, more: set<(nat, nat)>, x: nat, y: nat)
    requires links <= more && Joined(n, links, x, y)
    ensures Joined(n, more, x, y)
  {
    var p :| Walk(n, links, p) && p[0] == x && p[|p| - 1] == y;
    assert Walk(n, more, p);
  }

  /** The root map names exactly the classes of the links. */
  ghost predicate Represents(root: seq<nat>, links: set<(nat, nat)>) {
    && (forall u, v :: (u, v) in links ==> u < |root| && v < |root| && root[u] == root[v])
    && (forall x, y :: 0 <= x < |root| && 0 <= y < |root| && root[x] == root[y] ==> Joined(|root|, links, x, y))
  }

  lemma {:induction false} WalkKeepsRoot(root: seq<nat>, links: set<(nat, nat)>, path: seq<nat>)
    requires Represents(root, links) && Walk(|root|, links, path)
    ensures root[path[0]] == root[path[|path| - 1]]
    decreases |path|
  {
    if |path| <= 1 {
    } else {
      assert Step(links, path[|path| - 2], path[|path| - 2 + 1]);
      WalkKeepsRoot(root, links, path[..|path| - 1]);
    }
  }

  /** Same representative exactly when joined by a chain of links. */
  lemma RepresentsExactly(root: seq<nat>, links: set<(nat, nat)>, x: nat, y: nat)
    requires Represents(root, links) && x < |root| && y < |root|
    ensures root[x] == root[y] <==> Joined(|root|, links, x, y)
  {
    if Joined(|root|, links, x, y) {
      var path :| Walk(|root|, links, path) && path[0] == x && path[|path| - 1] == y;
      WalkKeepsRoot(root, links, path);
    }
  }

  /** The root map once the class of j has been hung below the representative of i. */
  ghost function Merged(root: seq<nat>, i: nat, j: nat): seq<nat>
    requires i < |root| && j < |root|
  {
    seq(|root|, k requires 0 <= k < |root| => if root[k] == root[j] then root[i] else root[k])
  }

  ghost function Raised(root: seq<nat>, height: seq<nat>, i: nat, j: nat): seq<nat>
    requires i < |root| && j < |root| == |height|
  {
    seq(|root|, k requires 0 <= k < |root| =>
      if root[k] == root[j] && root[j] != root[i] then height[k] + 1 else height[k])
  }

  lemma MergeForest(p: seq<nat>, root: seq<nat>, height: seq<nat>, i: nat, j: nat)
    requires Forest(p, root, height) && i < |p| && j < |p| && root[j] < |p|
    ensures Forest(p[root[j] := root[i]], Merged(root, i, j), Raised(root, height, i, j))
  {
    var q, merged, raised := p[root[j] := root[i]], Merged(root, i, j), Raised(root, height, i, j);
    Representative(p, root, height, i);
    Representative(p, root, height, j);
    forall k: nat | k < |p| ensures At(q, merged, raised, k) {
      assert At(p, root, height, k);
      Representative(p, root, height, k);
    }
  }

  lemma MergeRepresents(root: seq<nat>, links: set<(nat, nat)>, i: nat, j: nat)
    requires Represents(root, links) && i < |root| && j < |root|
    ensures Represents(Merged(root, i, j), links + {(i, j)})
  {
    var n, more, merged := |root|, links + {(i, j)}, Merged(root, i, j);
    assert Walk(n, more, [i, j]) by { assert Step(more, i, j); }
    JoinedSymmetric(n, more, i, j);
    forall x, y | 0 <= x < n && 0 <= y < n && merged[x] == merged[y] ensures Joined(n, more, x, y) {
      if root[x] == root[y] {
        JoinedMonotone(n, links, more, x, y);
      } else if root[x] == root[j] {
        JoinedMonotone(n, links, more, x, j);
        JoinedMonotone(n, links, more, i, y);
        JoinedTransitive(n, more, x, j, i);
        JoinedTransitive(n, more, x, i, y);
      } else {
        JoinedMonotone(n, links, more, x, i);
        JoinedMonotone(n, links, more, j, y);
        JoinedTransitive(n, more, x, i, j);
        JoinedTransitive(n, more, x, j, y);
      }
    }
  }

  lemma SingletonsRepresent(n: nat)
    ensures Forest(seq(n, k => k), seq(n, k => k), seq(n, k => 0))
    ensures Represents(seq(n, k => k), {})
  {
    var own, flat := seq(n, k => k), seq(n, k => 0);
    forall i: nat | i < n ensures At(own, own, flat, i) {}
    forall x | 0 <= x < n ensures Joined(n, {}, x, x) { JoinedReflexive(n, {}, x); }
  }

  ghost predicate Partition(p: seq<nat>, root: seq<nat>, height: seq<nat>, links: set<(nat, nat)>) {
    Forest(p, root, height) && Represents(root, links)
  }

  /** parent[find(j)] = find(i): joins the classes of i and j and no others. */
  method Union(parent: array<nat>, i: nat, j: nat, ghost root: seq<nat>, ghost height: seq<nat>,
               ghost links: set<(nat, nat)>)
    returns (ghost root': seq<nat>, ghost height': seq<nat>)
    requires Partition(parent[..], root, height, links) && i < parent.Length && j < parent.Length
    modifies parent
    ensures root' == Merged(root, i, j)
    ensures Partition(parent[..], root', height', links + {(i, j)})
  {
    var below := Find(parent, j, root, height);
    var above := Find(parent, i, root, height);
    Representative(parent[..], root, height, j);
    MergeForest(parent[..], root, height, i, j);
    MergeRepresents(root, links, i, j);
    parent[below] := above;
    root', height' := Merged(root, i, j), Raised(root, height, i, j);
  }
}
