/**
 Loops over sequences as folds, searches in them and filters of them. The parsers of diffs are folds of a one-line
 step, and the counters of the metrics are sizes of filters.
 */
module Loops {
  // ---- Sequences ----

  lemma Assoc<T>(a: seq<T>, b: seq<T>, c: seq<T>)
    ensures a + b + c == a + (b + c)
  {}

  lemma PrefixNext<T>(s: seq<T>, n: nat)
    requires n < |s|
    ensures s[..n + 1] == s[..n] + [s[n]]
  {}

  lemma InitOf<T>(s: seq<T>, x: T)
    ensures (s + [x])[..|s|] == s
  {}

  lemma Parts<T>(a: seq<T>, b: seq<T>)
    ensures (a + b)[..|a|] == a && (a + b)[|a|..] == b
  {}

  lemma MultisetOfAppended<T>(s: seq<T>, x: T)
    ensures multiset(s + [x]) == multiset(s) + multiset{x}
  {}

  /** What holds of [] and is kept by appending holds of every sequence. */
  lemma {:induction false} ByAppending<T(!new)>(p: seq<T> -> bool, s: seq<T>)
    requires p([]) && forall a, x {:trigger p(a + [x])} :: p(a) ==> p(a + [x])
    ensures p(s)
  {
    if s == [] {
    } else {
      ByAppending(p, s[..|s| - 1]);
      assert s == s[..|s| - 1] + [s[|s| - 1]];
    }
  }

  // ---- Walking a set ----

  /** One more element of a set is met: how many of those met are in the other set. */
  lemma CountOne<T>(a: set<T>, b: set<T>, rest: set<T>, x: T)
    requires rest <= a && x in rest
    ensures a - (rest - {x}) == a - rest + {x}
    ensures |(a - (rest - {x})) * b| == |(a - rest) * b| + if x in b then 1 else 0
  {
    var before := (a - rest) * b;
    assert (a - (rest - {x})) * b == if x in b then before + {x} else before;
  }

  // ---- Folds ----

  /** The state after a loop whose body is `step`. */
  function Fold<S, T>(step: (S, T) -> S, s: S, xs: seq<T>): S {
    if xs == [] then s else step(Fold(step, s, xs[..|xs| - 1]), xs[|xs| - 1])
  }

  lemma {:induction false} FoldAppend<S, T>(step: (S, T) -> S, s: S, xs: seq<T>, x: T)
    ensures Fold(step, s, xs + [x]) == step(Fold(step, s, xs), x)
  {
    assert (xs + [x])[..|xs|] == xs;
  }

  lemma {:induction false} FoldConcat<S, T>(step: (S, T) -> S, s: S, a: seq<T>, b: seq<T>)
    ensures Fold(step, s, a + b) == Fold(step, Fold(step, s, a), b)
    decreases |b|
  {
    if b == [] {
      assert a + b == a;
    } else {
      FoldConcat(step, s, a, b[..|b| - 1]);
      FoldAppend(step, s, a + b[..|b| - 1], b[|b| - 1]);
      assert a + b == a + b[..|b| - 1] + [b[|b| - 1]];
    }
  }

  lemma FoldOne<S, T>(step: (S, T) -> S, s: S, x: T)
    ensures Fold(step, s, [x]) == step(s, x)
  {
    assert [x][..0] == [];
  }

  /** If each step leads from one state of a list to the next, the loop leads from the first state to the last. */
  lemma {:induction false} FoldThrough<S, T>(step: (S, T) -> S, states: seq<S>, xs: seq<T>)
    requires |states| == |xs| + 1
    requires forall i :: 0 <= i < |xs| ==> step(states[i], xs[i]) == states[i + 1]
    ensures Fold(step, states[0], xs) == states[|xs|]
  {
    var n := |xs|;
    if n == 0 {
    } else {
      assert states[n - 1 + 1] == states[n];
      FoldThrough(step, states[..n], xs[..n - 1]);
    }
  }

  predicate Any<T>(p: T -> bool, xs: seq<T>) { exists i :: 0 <= i < |xs| && p(xs[i]) }

  lemma AnyLast<T>(p: T -> bool, xs: seq<T>)
    requires xs != []
    ensures Any(p, xs) <==> Any(p, xs[..|xs| - 1]) || p(xs[|xs| - 1])
  {
    var init := xs[..|xs| - 1];
    if Any(p, init) {
      var i :| 0 <= i < |init| && p(init[i]);
      assert p(xs[i]);
    }
    if Any(p, xs) {
      var i :| 0 <= i < |xs| && p(xs[i]);
      assert i < |xs| - 1 ==> p(init[i]);
    }
  }

  /** Some element satisfies q together with the elements before it. */
  predicate AnyAfter<T>(q: (seq<T>, T) -> bool, xs: seq<T>) { exists i :: 0 <= i < |xs| && q(xs[..i], xs[i]) }

  lemma AnyAfterLast<T>(q: (seq<T>, T) -> bool, xs: seq<T>)
    requires xs != []
    ensures AnyAfter(q, xs) <==> AnyAfter(q, xs[..|xs| - 1]) || q(xs[..|xs| - 1], xs[|xs| - 1])
  {
    var init := xs[..|xs| - 1];
    forall i | 0 <= i < |init| ensures init[..i] == xs[..i] && init[i] == xs[i] {}
    if AnyAfter(q, init) {
      var i :| 0 <= i < |init| && q(init[..i], init[i]);
      assert q(xs[..i], xs[i]);
    }
    if AnyAfter(q, xs) {
      var i :| 0 <= i < |xs| && q(xs[..i], xs[i]);
      assert i < |xs| - 1 ==> q(init[..i], init[i]);
    }
  }

  // ---- Filters ----

  function Filter<T>(p: T -> bool, xs: seq<T>): seq<T> {
    if xs == [] then []
    else if p(xs[|xs| - 1]) then Filter(p, xs[..|xs| - 1]) + [xs[|xs| - 1]]
    else Filter(p, xs[..|xs| - 1])
  }

  lemma FilterNext<T>(p: T -> bool, xs: seq<T>, i: nat)
    requires i < |xs|
    ensures Filter(p, xs[..i + 1]) == if p(xs[i]) then Filter(p, xs[..i]) + [xs[i]] else Filter(p, xs[..i])
  {
    assert xs[..i + 1][..i] == xs[..i];
  }

  /** A filter keeps an element as often as it occurs, or not at all. */
  lemma {:induction false} FilterCount<T>(p: T -> bool, xs: seq<T>, x: T)
    ensures multiset(Filter(p, xs))[x] == if p(x) then multiset(xs)[x] else 0
  {
    if xs == [] {
    } else {
      FilterCount(p, xs[..|xs| - 1], x);
      assert xs == xs[..|xs| - 1] + [xs[|xs| - 1]];
    }
  }

  lemma {:induction false} FilterPermuted<T(!new)>(p: T -> bool, a: seq<T>, b: seq<T>)
    requires multiset(a) == multiset(b)
    ensures multiset(Filter(p, a)) == multiset(Filter(p, b)) && |Filter(p, a)| == |Filter(p, b)|
  {
    forall x ensures multiset(Filter(p, a))[x] == multiset(Filter(p, b))[x] {
      FilterCount(p, a, x);
      FilterCount(p, b, x);
    }
    assert multiset(Filter(p, a)) == multiset(Filter(p, b));
    assert |multiset(Filter(p, a))| == |multiset(Filter(p, b))|;
  }

  /** Filtering twice keeps what both filters keep. */
  lemma {:induction false} FilterTwice<T>(p: T -> bool, q: T -> bool, r: T -> bool, xs: seq<T>)
    requires forall x :: x in xs ==> r(x) == (p(x) && q(x))
    ensures Filter(p, Filter(q, xs)) == Filter(r, xs)
  {
    if xs == [] {
    } else {
      var init, last := xs[..|xs| - 1], xs[|xs| - 1];
      FilterTwice(p, q, r, init);
      var kept := Filter(q, init);
      assert (kept + [last])[..|kept|] == kept;
      assert last in xs;
    }
  }

  lemma {:induction false} FilterWithin<T>(p: T -> bool, xs: seq<T>)
    ensures forall x :: x in Filter(p, xs) <==> x in xs && p(x)
  {
    if xs == [] {
    } else {
      FilterWithin(p, xs[..|xs| - 1]);
      assert xs == xs[..|xs| - 1] + [xs[|xs| - 1]];
    }
  }

  /** The places of the elements that a filter keeps. */
  ghost function Indices<T>(p: T -> bool, xs: seq<T>): set<nat> {
    set i: nat | i < |xs| && p(xs[i])
  }

  lemma IndicesNext<T>(p: T -> bool, xs: seq<T>, x: T)
    ensures Indices(p, xs + [x]) == Indices(p, xs) + if p(x) then {|xs|} else {}
  {
    assert forall i: nat :: i < |xs| ==> (xs + [x])[i] == xs[i];
  }

  lemma IndicesSame<T(!new)>(p: T -> bool, q: T -> bool, xs: seq<T>)
    requires forall x :: p(x) <==> q(x)
    ensures Indices(p, xs) == Indices(q, xs)
  {}

  lemma {:induction false} FilterIndices<T>(p: T -> bool, xs: seq<T>)
    ensures |Filter(p, xs)| == |Indices(p, xs)|
  {
    if xs == [] {
      assert Indices(p, xs) == {};
    } else {
      var init, last := xs[..|xs| - 1], xs[|xs| - 1];
      FilterIndices(p, init);
      IndicesNext(p, init, last);
      assert xs == init + [last];
    }
  }
}
