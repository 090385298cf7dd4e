/**
 Orders and sorting: the contracts of Go's string comparison, sort.Slice and sort.SliceStable. Only the stable sort is a
 function; the other promises no more than some sorted permutation.
 */
module Order {
  /** Go compares strings lexicographically, code unit by code unit. */
  predicate StrLess(a: string, b: string) {
    if b == "" then false
    else if a == "" then true
    else a[0] < b[0] || (a[0] == b[0] && StrLess(a[1..], b[1..]))
  }

  /** Up to n the two are alike, and there a ends or has the smaller code unit. */
  ghost predicate DiffersAt(a: string, b: string, n: nat) {
    n <= |a| && n < |b| && a[..n] == b[..n] && (n == |a| || a[n] < b[n])
  }

  lemma DiffersBehind(a: string, b: string, n: nat)
    requires a != "" && b != "" && a[0] == b[0]
    ensures DiffersAt(a[1..], b[1..], n) <==> DiffersAt(a, b, n + 1)
  {
    if n < |a| && n < |b| {
      assert a[..n + 1] == [a[0]] + a[1..][..n] && b[..n + 1] == [b[0]] + b[1..][..n];
      assert a[1..][..n] == a[..n + 1][1..] && b[1..][..n] == b[..n + 1][1..];
    }
  }

  lemma SameStart(a: string, b: string, n: nat)
    requires DiffersAt(a, b, n) && n > 0
    ensures a != "" && b != "" && a[0] == b[0]
  {
    assert a[..n][0] == b[..n][0];
  }

  /** The order of texts, by the first place where they differ. */
  lemma {:induction false} StrLessIff(a: string, b: string)
    ensures StrLess(a, b) <==> exists n: nat :: DiffersAt(a, b, n)
  {
    if a == "" || b == "" || a[0] != b[0] {
      if StrLess(a, b) { assert DiffersAt(a, b, 0); }
      forall n: nat | DiffersAt(a, b, n) ensures n == 0 {
        if n > 0 { SameStart(a, b, n); }
      }
    } else {
      StrLessIff(a[1..], b[1..]);
      if n: nat :| DiffersAt(a[1..], b[1..], n) { DiffersBehind(a, b, n); }
      if n: nat :| DiffersAt(a, b, n) { DiffersBehind(a, b, n - 1); }
    }
  }

  lemma {:induction false} StrLessIrreflexive(a: string)
    ensures !StrLess(a, a)
  {
    if a == "" {
    } else {
      StrLessIrreflexive(a[1..]);
    }
  }

  lemma {:induction false} StrLessTotal(a: string, b: string)
    ensures a == b || StrLess(a, b) || StrLess(b, a)
  {
    if a != "" && b != "" && a[0] == b[0] {
      StrLessTotal(a[1..], b[1..]);
      assert a == [a[0]] + a[1..] && b == [b[0]] + b[1..];
    }
  }

  lemma {:induction false} StrLessTransitive(a: string, b: string, c: string)
    requires StrLess(a, b) && StrLess(b, c)
    ensures StrLess(a, c)
  {
    if a != "" && a[0] == b[0] == c[0] { StrLessTransitive(a[1..], b[1..], c[1..]); }
  }

  /** A strict weak order, the requirement Go's sort places on its comparison. */
  ghost predicate StrictWeakOrder<T(!new)>(less: (T, T) -> bool) {
    && (forall a, b :: less(a, b) ==> !less(b, a))
    && (forall a, b, c :: less(a, c) ==> less(a, b) || less(b, c))
  }

  /** A strict weak order in which only equal elements tie. */
  ghost predicate StrictTotalOrder<T(!new)>(less: (T, T) -> bool) {
    && StrictWeakOrder(less)
    && (forall a, b :: a == b || less(a, b) || less(b, a))
  }

  lemma StrLessIsTotal()
    ensures StrictTotalOrder(StrLess)
  {
    forall a: string, b: string ensures a == b || StrLess(a, b) || StrLess(b, a) { StrLessTotal(a, b); }
    forall a: string, b: string | StrLess(a, b) ensures !StrLess(b, a) {
      if StrLess(b, a) { StrLessTransitive(a, b, a); StrLessIrreflexive(a); }
    }
    forall a: string, b: string, c: string | StrLess(a, c) ensures StrLess(a, b) || StrLess(b, c) {
      StrLessTotal(a, b);
      if StrLess(b, a) { StrLessTransitive(b, a, c); }
    }
  }

  ghost predicate SortedBy<T(!new)>(s: seq<T>, less: (T, T) -> bool) {
    forall i, j :: 0 <= i < j < |s| ==> !less(s[j], s[i])
  }

  ghost predicate StrictlySortedBy<T(!new)>(s: seq<T>, less: (T, T) -> bool) {
    forall i, j :: 0 <= i < j < |s| ==> less(s[i], s[j])
  }

  /** Puts x behind the elements it does not precede. */
  function Insert<T(!new)>(x: T, s: seq<T>, less: (T, T) -> bool): (r: seq<T>)
    ensures multiset(r) == multiset(s) + multiset{x}
  {
    if s == [] then [x]
    else if less(x, s[0]) then [x] + s
    else
      assert s == [s[0]] + s[1..];
      [s[0]] + Insert(x, s[1..], less)
  }

  lemma {:induction false} InsertSorted<T(!new)>(x: T, s: seq<T>, less: (T, T) -> bool)
    requires StrictWeakOrder(less) && SortedBy(s, less)
    ensures SortedBy(Insert(x, s, less), less)
  {
    if s != [] && !less(x, s[0]) {
      InsertSorted(x, s[1..], less);
      var rest := Insert(x, s[1..], less);
      forall j | 0 <= j < |rest| ensures !less(rest[j], s[0]) {
        assert rest[j] in multiset(rest);
        assert rest[j] == x || rest[j] in s[1..];
      }
    }
  }

  /** The stable sort: elements that tie keep the order they came in. */
  function StableSort<T(!new)>(s: seq<T>, less: (T, T) -> bool): (r: seq<T>)
    ensures multiset(r) == multiset(s)
  {
    if s == [] then []
    else
      assert s == s[..|s| - 1] + [s[|s| - 1]];
      Insert(s[|s| - 1], StableSort(s[..|s| - 1], less), less)
  }

  lemma {:induction false} StableSortSorted<T(!new)>(s: seq<T>, less: (T, T) -> bool)
    requires StrictWeakOrder(less)
    ensures SortedBy(StableSort(s, less), less)
  {
    if s == [] {
    } else {
      StableSortSorted(s[..|s| - 1], less);
      InsertSorted(s[|s| - 1], StableSort(s[..|s| - 1], less), less);
    }
  }

  predicate Ties<T(!new)>(less: (T, T) -> bool, x: T, y: T) { !less(x, y) && !less(y, x) }

  /** The elements that tie with x, in order. */
  function Tying<T(!new)>(s: seq<T>, less: (T, T) -> bool, x: T): seq<T> {
    if s == [] then [] else if Ties(less, s[0], x) then [s[0]] + Tying(s[1..], less, x) else Tying(s[1..], less, x)
  }

  lemma {:induction false} InsertBehindTies<T(!new)>(x: T, s: seq<T>, less: (T, T) -> bool, y: T)
    requires StrictWeakOrder(less) && SortedBy(s, less)
    ensures Tying(Insert(x, s, less), less, y) ==
      if Ties(less, x, y) then Tying(s, less, y) + [x] else Tying(s, less, y)
  {
    if s == [] {
      assert Tying([x][1..], less, y) == [];
    } else if less(x, s[0]) {
      assert ([x] + s)[1..] == s;
      if Ties(less, x, y) { NoneTies(s, less, y); }
    } else {
      InsertBehindTies(x, s[1..], less, y);
      assert ([s[0]] + Insert(x, s[1..], less))[1..] == Insert(x, s[1..], less);
    }
  }

  lemma {:induction false} NoneTies<T(!new)>(s: seq<T>, less: (T, T) -> bool, y: T)
    requires StrictWeakOrder(less) && SortedBy(s, less) && (s != [] ==> less(y, s[0]))
    ensures Tying(s, less, y) == []
  {
    if |s| > 1 {
      assert !less(s[1], s[0]);
      NoneTies(s[1..], less, y);
    } else if |s| == 1 {
      assert s[1..] == [];
    }
  }

  lemma {:induction false} TyingLast<T(!new)>(s: seq<T>, less: (T, T) -> bool, y: T)
    requires s != []
    ensures Tying(s, less, y) ==
      if Ties(less, s[|s| - 1], y) then Tying(s[..|s| - 1], less, y) + [s[|s| - 1]] else Tying(s[..|s| - 1], less, y)
  {
    var n := |s| - 1;
    if n == 0 {
      assert s[1..] == [];
    } else {
      TyingLast(s[1..], less, y);
      assert s[1..][..n - 1] == s[..n][1..];
    }
  }

  /** Stability: the elements that tie with any given one keep their order. */
  lemma {:induction false} StableSortIsStable<T(!new)>(s: seq<T>, less: (T, T) -> bool, y: T)
    requires StrictWeakOrder(less)
    ensures Tying(StableSort(s, less), less, y) == Tying(s, less, y)
  {
    if s == [] {
    } else {
      StableSortIsStable(s[..|s| - 1], less, y);
      StableSortSorted(s[..|s| - 1], less);
      InsertBehindTies(s[|s| - 1], StableSort(s[..|s| - 1], less), less, y);
      TyingLast(s, less, y);
    }
  }

  /** sort.Slice: some sorted permutation; which one is not promised when elements tie. */
  method Sort<T(!new, ==)>(s: seq<T>, less: (T, T) -> bool) returns (r: seq<T>)
    requires StrictWeakOrder(less)
    ensures SortedBy(r, less) && multiset(r) == multiset(s)
  {
    StableSortSorted(s, less);
    r := StableSort(s, less);
  }

  lemma LeastFirst<T(!new)>(a: seq<T>, b: seq<T>, less: (T, T) -> bool)
    requires SortedBy(a, less) && a != [] && multiset(a) == multiset(b) && b != []
    ensures b[0] == a[0] || !less(b[0], a[0])
  {
    assert b[0] in multiset(a);
    var k :| 0 <= k < |a| && a[k] == b[0];
  }

  /** Under a total order two sorted permutations of each other are equal: sorting is deterministic. */
  lemma {:induction false} SortedUnique<T(!new)>(a: seq<T>, b: seq<T>, less: (T, T) -> bool)
    requires StrictTotalOrder(less)
    requires SortedBy(a, less) && SortedBy(b, less) && multiset(a) == multiset(b)
    ensures a == b
  {
    assert |a| == |multiset(a)| == |multiset(b)| == |b|;
    if a == [] {
    } else {
      LeastFirst(a, b, less);
      LeastFirst(b, a, less);
      Tails(a, b);
      SortedUnique(a[1..], b[1..], less);
    }
  }

  lemma Tails<T>(a: seq<T>, b: seq<T>)
    requires a != [] && b != [] && a[0] == b[0] && multiset(a) == multiset(b)
    ensures multiset(a[1..]) == multiset(b[1..]) && (a[1..] == b[1..] ==> a == b)
  {
    assert a == [a[0]] + a[1..] && b == [b[0]] + b[1..];
    assert multiset(a[1..]) == multiset(a) - multiset{a[0]};
    assert multiset(b[1..]) == multiset(b) - multiset{b[0]};
  }

  /** Sequences sorted strictly are determined by the elements they hold. */
  lemma {:induction false} StrictlySortedUnique<T(!new)>(a: seq<T>, b: seq<T>, less: (T, T) -> bool)
    requires StrictWeakOrder(less)
    requires StrictlySortedBy(a, less) && StrictlySortedBy(b, less)
    requires forall x :: x in a <==> x in b
    ensures a == b
  {
    assert b != [] ==> b[0] in a;
    if a == [] {
    } else {
      assert a[0] in b;
      assert a[0] == b[0];
      forall x ensures x in a[1..] <==> x in b[1..] {
        assert x in a <==> x == a[0] || x in a[1..];
        assert x in b <==> x == b[0] || x in b[1..];
      }
      StrictlySortedUnique(a[1..], b[1..], less);
    }
  }

  /** A sorted sequence with no two tying elements is strictly sorted. */
  lemma DistinctSorted<T(!new)>(s: seq<T>, less: (T, T) -> bool)
    requires StrictTotalOrder(less) && SortedBy(s, less)
    requires forall i, j :: 0 <= i < j < |s| ==> s[i] != s[j]
    ensures StrictlySortedBy(s, less)
  {}

  /** `from` lists, for every position of b, a position of a with the same element, each exactly once. */
  ghost predicate Rearranges<T(!new)>(a: seq<T>, b: seq<T>, from: seq<nat>) {
    && |from| == |b| == |a|
    && (forall k :: 0 <= k < |from| ==> from[k] < |a| && b[k] == a[from[k]])
    && (forall k, l :: 0 <= k < l < |from| ==> from[k] != from[l])
    && (forall j: nat :: j < |a| ==> j in from)
  }

  /** Permutations can be written down as position lists. */
  lemma {:induction false} Rearrangement<T(!new)>(a: seq<T>, b: seq<T>) returns (from: seq<nat>)
    requires multiset(a) == multiset(b)
    ensures Rearranges(a, b, from)
  {
    assert |a| == |multiset(a)| == |multiset(b)| == |b|;
    if b == [] {
      from := [];
    } else {
      var last := |b| - 1;
      assert b[last] in multiset(a);
      var j :| 0 <= j < |a| && a[j] == b[last];
      TakeOut(a, j);
      TakeOut(b, last);
      assert b[..last] + b[last + 1..] == b[..last];
      var rest := Rearrangement(a[..j] + a[j + 1..], b[..last]);
      PutBack(a, b, j, rest);
      from := Shifted(rest, j) + [j];
    }
  }

  lemma PutBack<T(!new)>(a: seq<T>, b: seq<T>, j: nat, rest: seq<nat>)
    requires j < |a| == |b| && a[j] == b[|b| - 1] && Rearranges(a[..j] + a[j + 1..], b[..|b| - 1], rest)
    ensures Rearranges(a, b, Shifted(rest, j) + [j])
  {
    var without := a[..j] + a[j + 1..];
    var from := Shifted(rest, j) + [j];
    forall k | 0 <= k < |rest| ensures from[k] < |a| && from[k] != j && b[k] == a[from[k]] {
      assert without[rest[k]] == b[..|b| - 1][k];
    }
    ShiftedCovers(rest, j);
  }

  /** Positions in a sequence without its j-th element, as positions in the whole sequence. */
  ghost function Shifted(rest: seq<nat>, j: nat): seq<nat> {
    seq(|rest|, k requires 0 <= k < |rest| => if rest[k] < j then rest[k] else rest[k] + 1)
  }

  lemma ShiftedCovers(rest: seq<nat>, j: nat)
    requires forall i: nat :: i < |rest| ==> i in rest
    requires j <= |rest|
    ensures forall i: nat :: i < |rest| + 1 ==> i in Shifted(rest, j) + [j]
  {
    forall i: nat | i < |rest| + 1 && i != j ensures i in Shifted(rest, j) {
      var i' := if i < j then i else i - 1;
      assert i' in rest;
      var k :| 0 <= k < |rest| && rest[k] == i';
      assert Shifted(rest, j)[k] == i;
    }
  }

  lemma TakeOut<T>(s: seq<T>, k: nat)
    requires k < |s|
    ensures multiset(s[..k] + s[k + 1..]) == multiset(s) - multiset{s[k]}
  {
    assert s == s[..k] + [s[k]] + s[k + 1..];
  }

  lemma CountRepeated<T(!new)>(b: seq<T>, i: nat, j: nat)
    requires i < j < |b| && b[i] == b[j]
    ensures multiset(b)[b[i]] >= 2
  {
    assert b == b[..j] + b[j..];
    assert b[i] in b[..j] && b[j] in b[j..];
  }

  lemma DistinctMultiset<T(!new)>(a: seq<T>, b: seq<T>)
    requires multiset(a) == multiset(b)
    requires forall i, j :: 0 <= i < j < |a| ==> a[i] != a[j]
    ensures forall i, j :: 0 <= i < j < |b| ==> b[i] != b[j]
    ensures forall x :: x in a <==> x in b
  {
    forall i: nat, j: nat | i < j < |b| && b[i] == b[j] ensures multiset(b)[b[i]] >= 2 { CountRepeated(b, i, j); }
    forall x ensures multiset(a)[x] < 2 { CountDistinct(a, x); }
    forall x ensures x in a <==> x in b { assert x in multiset(a) <==> x in multiset(b); }
  }

  lemma CountDistinct<T(!new)>(a: seq<T>, x: T)
    requires forall i, j :: 0 <= i < j < |a| ==> a[i] != a[j]
    ensures multiset(a)[x] == if x in a then 1 else 0
  {
    if a == [] {
    } else {
      assert a == [a[0]] + a[1..];
      CountDistinct(a[1..], x);
      if x == a[0] { assert x !in a[1..]; }
    }
  }

  // ---- Applying a function to each element ----

  function Mapped<T, U>(f: T -> U, s: seq<T>): seq<U> {
    seq(|s|, i requires 0 <= i < |s| => f(s[i]))
  }

  function Without<T>(s: seq<T>, k: nat): seq<T>
    requires k < |s|
  {
    s[..k] + s[k + 1..]
  }

  lemma MappedWithout<T, U>(f: T -> U, s: seq<T>, k: nat)
    requires k < |s|
    ensures multiset(Mapped(f, s)) == multiset(Mapped(f, Without(s, k))) + multiset{f(s[k])}
  {
    assert Mapped(f, Without(s, k)) == Without(Mapped(f, s), k);
    TakeOut(Mapped(f, s), k);
  }

  lemma BothWithout<T>(a: seq<T>, b: seq<T>, j: nat, k: nat)
    requires multiset(a) == multiset(b) && j < |a| && k < |b| && a[j] == b[k]
    ensures multiset(Without(a, j)) == multiset(Without(b, k))
  {
    TakeOut(a, j);
    TakeOut(b, k);
  }

  /** A function applied to each element of a permutation gives a permutation. */
  lemma {:induction false} MappedPermuted<T, U>(f: T -> U, a: seq<T>, b: seq<T>)
    requires multiset(a) == multiset(b)
    ensures multiset(Mapped(f, a)) == multiset(Mapped(f, b))
    decreases |a|
  {
    assert |a| == |multiset(a)| == |multiset(b)| == |b|;
    if a == [] {
      assert Mapped(f, a) == Mapped(f, b);
    } else {
      assert b[0] in multiset(a);
      var j :| 0 <= j < |a| && a[j] == b[0];
      BothWithout(a, b, j, 0);
      MappedPermuted(f, Without(a, j), Without(b, 0));
      MappedWithout(f, a, j);
      MappedWithout(f, b, 0);
    }
  }
}
