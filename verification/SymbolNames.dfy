/** joinedSymbols of chunk.go: which names a chunk carries. */
module SymbolNames {
  import opened Units

  /** The symbol names of the pieces, without the empty ones of gaps. */
  function Named(pieces: seq<Span>): (all: seq<string>)
    ensures "" !in all
  {
    if pieces == [] then []
    else
      var before, last := Named(pieces[..|pieces| - 1]), pieces[|pieces| - 1].symbol;
      if last == "" then before else before + [last]
  }

  /** The names met, without empty ones and without direct repetitions. */
  function Names(pieces: seq<Span>): seq<string> {
    if pieces == [] then []
    else
      var names, last := Names(pieces[..|pieces| - 1]), pieces[|pieces| - 1].symbol;
      if last != "" && (names == [] || names[|names| - 1] != last) then names + [last] else names
  }

  predicate NoRepeats(names: seq<string>) {
    forall k :: 0 <= k < |names| - 1 ==> names[k] != names[k + 1]
  }

  /** Starting at 0 and never going up by more than one at a time. */
  ghost predicate Climbs(at: seq<nat>) {
    (at != [] ==> at[0] == 0) && forall i, j :: 0 <= i < j < |at| ==> at[i] <= at[j] <= at[i] + j - i
  }

  /** at[i] is where the i-th of all names has gone: to the same name, in order, with no name of the result left out. */
  ghost predicate Collapses(names: seq<string>, all: seq<string>, at: seq<nat>) {
    && |at| == |all| && NoRepeats(names) && Climbs(at)
    && (forall i :: 0 <= i < |at| ==> at[i] < |names| && names[at[i]] == all[i])
    && (if all == [] then names == [] else at[|at| - 1] == |names| - 1)
  }

  lemma ClimbNext(at: seq<nat>, to: nat)
    requires Climbs(at) && if at == [] then to == 0 else at[|at| - 1] <= to <= at[|at| - 1] + 1
    ensures Climbs(at + [to])
  {}

  lemma CollapseNext(names: seq<string>, all: seq<string>, at: seq<nat>, last: string) returns (at': seq<nat>)
    requires Collapses(names, all, at)
    ensures Collapses(if names == [] || names[|names| - 1] != last then names + [last] else names, all + [last], at')
  {
    var to := if names == [] || names[|names| - 1] != last then |names| else |names| - 1;
    ClimbNext(at, to);
    at' := at + [to];
  }

  /** The result is the list of all names with each run of one name collapsed into one. */
  lemma {:induction false} NamesCollapse(pieces: seq<Span>) returns (at: seq<nat>)
    ensures Collapses(Names(pieces), Named(pieces), at)
  {
    at := [];
    if pieces == [] {
    } else {
      var init, last := pieces[..|pieces| - 1], pieces[|pieces| - 1].symbol;
      at := NamesCollapse(init);
      if last != "" { at := CollapseNext(Names(init), Named(init), at, last); }
    }
  }

  lemma CollapseInit(names: seq<string>, all: seq<string>, at: seq<nat>)
    requires Collapses(names, all, at) && all != []
    ensures names != [] && names[|names| - 1] == all[|all| - 1]
    ensures |all| > 1 && all[|all| - 1] == all[|all| - 2] ==> Collapses(names, all[..|all| - 1], at[..|at| - 1])
    ensures |all| > 1 && all[|all| - 1] != all[|all| - 2] ==>
      Collapses(names[..|names| - 1], all[..|all| - 1], at[..|at| - 1])
  {
    var n := |at| - 1;
    if n > 0 { assert at[n] == at[n - 1] || names[at[n - 1]] != names[at[n - 1] + 1]; }
  }

  /** There is only one way to collapse a list. */
  lemma {:induction false} CollapseUnique(a: seq<string>, b: seq<string>, all: seq<string>, atA: seq<nat>,
                                          atB: seq<nat>)
    requires Collapses(a, all, atA) && Collapses(b, all, atB)
    ensures a == b
    decreases |all|
  {
    if all == [] {
    } else {
      var n := |all| - 1;
      CollapseInit(a, all, atA);
      CollapseInit(b, all, atB);
      if n > 0 && all[n] == all[n - 1] {
        CollapseUnique(a, b, all[..n], atA[..n], atB[..n]);
      } else if n > 0 {
        CollapseUnique(a[..|a| - 1], b[..|b| - 1], all[..n], atA[..n], atB[..n]);
        assert a == a[..|a| - 1] + [all[n]] && b == b[..|b| - 1] + [all[n]];
      }
    }
  }

  method JoinedSymbols(pieces: seq<Span>) returns (names: seq<string>, ghost at: seq<nat>)
    ensures names == Names(pieces) && "" !in names && Collapses(names, Named(pieces), at)
  {
    names, at := [], [];
    for i := 0 to |pieces|
      invariant names == Names(pieces[..i]) && "" !in names && Collapses(names, Named(pieces[..i]), at)
    {
      assert pieces[..i + 1][..i] == pieces[..i];
      var symbol := pieces[i].symbol;
      if symbol != "" { at := CollapseNext(names, Named(pieces[..i]), at, symbol); }
      if symbol != "" && (names == [] || names[|names| - 1] != symbol) {
        names := names + [symbol];
      }
    }
    assert pieces[..|pieces|] == pieces;
  }
}
