/** boundedEnd of chunk.go: a binary search for the longest prefix of a unit whose token count fits. */
module BoundedSearch {
  import opened Wrappers
  import opened Utf8

  // The search moves every probe to a character boundary, which on multi-byte text can undo its progress, so it is
  // modelled with a budget of iterations: None is a search that has not come to an end within its budget.

  /** A token counter; callers may inject any. */
  type Counter = seq<Byte> -> int

  const NEWLINE: Byte := 10

  /** What the search runs on. `limit` and `start` stay fixed, `maximum` is the token cap. */
  datatype Task = Task(content: seq<Byte>, start: nat, limit: nat, maximum: int, counter: Counter) {
    predicate Ok() { start < limit <= |content| }

    function Tokens(end: nat): int
      requires Ok() && start <= end <= limit
    {
      counter(content[start..end])
    }

    predicate Fits(end: nat)
      requires Ok() && start <= end <= limit
    {
      Tokens(end) <= maximum
    }

    /** Longer prefixes never count fewer tokens. */
    ghost predicate Monotone()
      requires Ok()
    {
      forall a, b :: start <= a <= b <= limit ==> Grows(a, b)
    }

    ghost predicate Grows(a: nat, b: nat)
      requires Ok() && start <= a <= b <= limit
    {
      Tokens(a) <= Tokens(b)
    }

    /** Only the first character may be longer than one byte. */
    predicate SingleByteAfter(first: nat) {
      first <= limit <= |content| && forall i :: first <= i < limit ==> RuneStart(content[i])
    }
  }

  function AlignBack(t: Task, m: nat): (r: nat)
    requires t.Ok() && t.start <= m <= t.limit
    ensures t.start <= r <= m
    ensures r == t.limit || r == t.start || RuneStart(t.content[r])
  {
    if m < t.limit && m > t.start && !RuneStart(t.content[m]) then AlignBack(t, m - 1) else m
  }

  function AlignForward(t: Task, m: nat): (r: nat)
    requires t.Ok() && t.start < m <= t.limit
    ensures m <= r <= t.limit
    ensures r == t.limit || RuneStart(t.content[r])
    decreases t.limit - m
  {
    if m < t.limit && !RuneStart(t.content[m]) then AlignForward(t, m + 1) else m
  }

  lemma {:induction false} AlignBackSkips(t: Task, m: nat)
    requires t.Ok() && t.start <= m <= t.limit
    ensures forall i :: AlignBack(t, m) < i <= m && i < t.limit ==> IsTail(t.content[i])
    ensures AlignBack(t, m) < m ==> m < t.limit
  {
    if m < t.limit && m > t.start && !RuneStart(t.content[m]) { AlignBackSkips(t, m - 1); }
  }

  lemma {:induction false} AlignForwardSkips(t: Task, m: nat)
    requires t.Ok() && t.start < m <= t.limit
    ensures forall i :: m <= i < AlignForward(t, m) ==> IsTail(t.content[i])
    decreases t.limit - m
  {
    if m < t.limit && !RuneStart(t.content[m]) { AlignForwardSkips(t, m + 1); }
  }

  /** Where a probe lands: back at a boundary, or at the end of the first character. */
  function Align(t: Task, m: nat): (r: nat)
    requires t.Ok() && t.start < m <= t.limit
    ensures t.start < r <= t.limit
    ensures r == t.limit || RuneStart(t.content[r])
  {
    var back := AlignBack(t, m);
    if back == t.start then AlignForward(t, t.start + 1) else back
  }

  method AlignLoop(t: Task, m: nat) returns (r: nat)
    requires t.Ok() && t.start < m <= t.limit
    ensures r == Align(t, m)
  {
    r := m;
    while r < t.limit && r > t.start && !RuneStart(t.content[r])
      invariant t.start <= r <= m && AlignBack(t, r) == AlignBack(t, m)
      decreases r
    {
      r := r - 1;
    }
    if r == t.start {
      r := t.start + 1;
      while r < t.limit && !RuneStart(t.content[r])
        invariant t.start < r <= t.limit && AlignForward(t, r) == AlignForward(t, t.start + 1)
        decreases t.limit - r
      {
        r := r + 1;
      }
    }
  }

  datatype Window = Window(low: int, high: int, best: nat)

  predicate WindowOk(t: Task, w: Window) {
    t.Ok() && t.start < w.low <= t.limit + 1 && w.high <= t.limit && t.start <= w.best <= t.limit && t.start <= w.high
  }

  function Middle(w: Window): int { w.low + (w.high - w.low) / 2 }

  function Probe(t: Task, w: Window): (w': Window)
    requires WindowOk(t, w) && w.low <= w.high
    ensures WindowOk(t, w')
  {
    var m := Align(t, Middle(w));
    if t.Fits(m) then Window(m + 1, w.high, m) else Window(w.low, m - 1, w.best)
  }

  /** The loop of a search, at most `budget` iterations of it; None if it has not come to its end by then. */
  function Iterate(probe: Window -> Window, w: Window, budget: nat): Option<nat>
    decreases budget
  {
    if w.low > w.high then Some(w.best)
    else if budget == 0 then None
    else Iterate(probe, probe(w), budget - 1)
  }

  /** The window after n turns of the loop. */
  ghost function WindowAfter(probe: Window -> Window, w: Window, n: nat): Window
    decreases n
  {
    if n == 0 then w else WindowAfter(probe, probe(w), n - 1)
  }

  /** The loop is left after n turns. */
  ghost predicate LeftAfter(probe: Window -> Window, w: Window, n: nat) {
    && WindowAfter(probe, w, n).low > WindowAfter(probe, w, n).high
    && forall m: nat :: m < n ==> WindowAfter(probe, w, m).low <= WindowAfter(probe, w, m).high
  }

  lemma LeftNext(probe: Window -> Window, w: Window, n: nat)
    requires w.low <= w.high
    ensures LeftAfter(probe, probe(w), n) <==> LeftAfter(probe, w, n + 1)
  {
    if LeftAfter(probe, probe(w), n) {
      forall m: nat | m < n + 1 ensures WindowAfter(probe, w, m).low <= WindowAfter(probe, w, m).high {
        if m > 0 { assert WindowAfter(probe, w, m) == WindowAfter(probe, probe(w), m - 1); }
      }
    }
    if LeftAfter(probe, w, n + 1) {
      forall m: nat | m < n ensures WindowAfter(probe, probe(w), m).low <= WindowAfter(probe, probe(w), m).high {
        assert WindowAfter(probe, w, m + 1) == WindowAfter(probe, probe(w), m);
      }
    }
  }

  /** The search answers exactly if the loop is left within the budget, and then with the best end found by then. */
  lemma {:induction false} IterateAnswersIff(probe: Window -> Window, w: Window, budget: nat)
    ensures Iterate(probe, w, budget).Some? <==> exists n: nat :: n <= budget && LeftAfter(probe, w, n)
    ensures forall n: nat :: n <= budget && LeftAfter(probe, w, n) ==>
      Iterate(probe, w, budget) == Some(WindowAfter(probe, w, n).best)
    decreases budget
  {
    if w.low > w.high {
      assert LeftAfter(probe, w, 0);
      forall n: nat | LeftAfter(probe, w, n) ensures n == 0 { assert WindowAfter(probe, w, 0) == w; }
    } else {
      assert !LeftAfter(probe, w, 0);
      if budget > 0 {
        IterateAnswersIff(probe, probe(w), budget - 1);
        forall n: nat ensures LeftAfter(probe, probe(w), n) <==> LeftAfter(probe, w, n + 1) { LeftNext(probe, w, n); }
        forall n: nat | n <= budget && LeftAfter(probe, w, n)
          ensures Iterate(probe, w, budget) == Some(WindowAfter(probe, w, n).best)
        {
          assert LeftAfter(probe, probe(w), n - 1);
        }
      }
    }
  }

  /** What holds of each window holds of the last, and so of the best end. */
  lemma {:induction false} IterateKeeps(probe: Window -> Window, inv: Window -> bool, good: nat -> bool, w: Window,
                                        budget: nat)
    requires inv(w) && forall v {:trigger probe(v)} :: inv(v) && v.low <= v.high ==> inv(probe(v))
    requires forall v: Window :: inv(v) && v.low > v.high ==> good(v.best)
    ensures Iterate(probe, w, budget).Some? ==> good(Iterate(probe, w, budget).value)
    decreases budget
  {
    if w.low <= w.high && budget > 0 { IterateKeeps(probe, inv, good, probe(w), budget - 1); }
  }

  /** If the windows shrink, the search comes to an end. */
  lemma {:induction false} IterateEnds(probe: Window -> Window, inv: Window -> bool, w: Window, budget: nat)
    requires inv(w) && budget >= w.high - w.low + 1
    requires forall v {:trigger probe(v)} :: inv(v) && v.low <= v.high ==>
      inv(probe(v)) && probe(v).high - probe(v).low < v.high - v.low
    ensures Iterate(probe, w, budget).Some?
    decreases budget
  {
    if w.low <= w.high { IterateEnds(probe, inv, probe(w), budget - 1); }
  }

  /** If no window is ever empty, it does not. */
  lemma {:induction false} IterateNever(probe: Window -> Window, inv: Window -> bool, w: Window, budget: nat)
    requires inv(w) && (forall v: Window :: inv(v) ==> v.low <= v.high) &&
      forall v {:trigger probe(v)} :: inv(v) ==> inv(probe(v))
    ensures Iterate(probe, w, budget) == None
    decreases budget
  {
    if budget == 0 {
    } else {
      IterateNever(probe, inv, probe(w), budget - 1);
    }
  }

  /** The body of the search loop. */
  function Prober(t: Task): Window -> Window {
    w => if WindowOk(t, w) && w.low <= w.high then Probe(t, w) else w
  }

  lemma StaysOk(t: Task, w: Window)
    requires WindowOk(t, w)
    ensures WindowOk(t, Prober(t)(w))
  {}

  function Search(t: Task, w: Window, budget: nat): (r: Option<nat>)
    requires WindowOk(t, w)
    ensures r.Some? ==> t.start <= r.value <= t.limit
  {
    SearchInUnit(t, w, budget);
    Iterate(Prober(t), w, budget)
  }

  lemma {:induction false} SearchInUnit(t: Task, w: Window, budget: nat)
    requires WindowOk(t, w)
    ensures Iterate(Prober(t), w, budget).Some? ==> t.start <= Iterate(Prober(t), w, budget).value <= t.limit
  {
    var inv, good := (v: Window) => WindowOk(t, v), (best: nat) => t.start <= best <= t.limit;
    forall v | inv(v) ensures inv(Prober(t)(v)) { StaysOk(t, v); }
    IterateKeeps(Prober(t), inv, good, w, budget);
    assert Iterate(Prober(t), w, budget).Some? ==> good(Iterate(Prober(t), w, budget).value);
  }

  function FirstWindow(t: Task): Window
    requires t.Ok()
  {
    Window(t.start + 1, t.limit, t.start)
  }

  /** strings.LastIndexByte of a newline in content[start..best], as a position; -1 if there is none. */
  function LastNewline(t: Task, best: nat): (r: int)
    requires t.Ok() && t.start <= best <= t.limit
    ensures r == -1 || (t.start <= r < best && t.content[r] == NEWLINE)
    ensures forall i :: t.start <= i < best && i > r ==> t.content[i] != NEWLINE
    decreases best
  {
    if best == t.start then -1
    else if t.content[best - 1] == NEWLINE then best - 1
    else LastNewline(t, best - 1)
  }

  /**
   What happens after the loop: a lone character if nothing fits, else a retreat to a newline that is not too early.
   */
  function Finish(t: Task, best: nat): (r: nat)
    requires t.Ok() && t.start <= best <= t.limit
    ensures t.start < r <= t.limit
  {
    if best <= t.start then t.start + DecodeSize(t.content[t.start..t.limit])
    else
      var newline := LastNewline(t, best);
      if newline >= 0 && t.Tokens(newline + 1) >= Half(t.maximum) then newline + 1 else best
  }

  /** Go's maximum/2 truncates toward zero. */
  function Half(m: int): (h: int)
    ensures m >= 0 ==> m - 1 <= 2 * h <= m
    ensures m < 0 ==> m <= 2 * h <= m + 1
  {
    if m >= 0 then m / 2 else -(-m / 2)
  }

  function End(t: Task, budget: nat): Option<nat>
    requires t.Ok()
  {
    match Search(t, FirstWindow(t), budget)
    case None => None
    case Some(best) => Some(Finish(t, best))
  }

  method ProbeOnce(t: Task, w: Window) returns (w': Window)
    requires WindowOk(t, w) && w.low <= w.high
    ensures w' == Probe(t, w)
  {
    var middle := AlignLoop(t, Middle(w));
    if t.counter(t.content[t.start..middle]) <= t.maximum {
      w' := Window(middle + 1, w.high, middle);
    } else {
      w' := Window(w.low, middle - 1, w.best);
    }
  }

  method RunSearch(t: Task, budget: nat) returns (r: Option<nat>)
    requires t.Ok()
    ensures r == Search(t, FirstWindow(t), budget)
  {
    var w := FirstWindow(t);
    var left: nat := budget;
    ghost var goal := Search(t, w, budget);
    while w.low <= w.high
      invariant WindowOk(t, w) && Search(t, w, left) == goal
      decreases left
    {
      if left == 0 {
        return None;
      }
      left := left - 1;
      w := ProbeOnce(t, w);
    }
    r := Some(w.best);
  }

  method BoundedEnd(t: Task, budget: nat) returns (r: Option<nat>)
    requires t.Ok()
    ensures r == End(t, budget)
  {
    var best := RunSearch(t, budget);
    r := if best.None? then None else Some(Finish(t, best.value));
  }
}
