/** When boundedEnd comes to an end, what it then returns, and exactly when it always does. */
module SearchTheorems {
  import opened Wrappers
  import opened Utf8
  import opened BoundedSearch

  // ---- Partial correctness, for all valid text and any counter ----

  ghost predicate GoodBest(t: Task, best: nat) {
    t.Ok() && t.start <= best <= t.limit &&
      (best == t.start || (t.Fits(best) && (best == t.limit || RuneStart(t.content[best]))))
  }

  lemma ProbeKeepsBest(t: Task, w: Window)
    requires WindowOk(t, w) && GoodBest(t, w.best)
    ensures WindowOk(t, Prober(t)(w)) && GoodBest(t, Prober(t)(w).best)
  {}

  lemma SearchKeepsBest(t: Task, w: Window, budget: nat)
    requires WindowOk(t, w) && GoodBest(t, w.best) && Search(t, w, budget).Some?
    ensures GoodBest(t, Search(t, w, budget).value)
  {
    var inv, good := (v: Window) => WindowOk(t, v) && GoodBest(t, v.best), (best: nat) => GoodBest(t, best);
    forall v | inv(v) ensures inv(Prober(t)(v)) { ProbeKeepsBest(t, v); }
    IterateKeeps(Prober(t), inv, good, w, budget);
    assert good(Search(t, w, budget).value);
  }

  /** Whatever it returns is past the start, within the unit, and between two characters. */
  lemma CutsBetweenCharacters(t: Task, budget: nat)
    requires t.Ok() && Valid(t.content) && Aligned(t.content, t.start) && Aligned(t.content, t.limit)
    requires End(t, budget).Some?
    ensures t.start < End(t, budget).value <= t.limit && Aligned(t.content, End(t, budget).value)
  {
    SearchKeepsBest(t, FirstWindow(t), budget);
    FinishAligned(t, Search(t, FirstWindow(t), budget).value);
  }

  lemma FinishAligned(t: Task, best: nat)
    requires GoodBest(t, best) && Valid(t.content) && Aligned(t.content, t.start) && Aligned(t.content, t.limit)
    ensures Aligned(t.content, Finish(t, best))
  {
    if best <= t.start {
      NextBoundary(t.content, t.start, t.limit);
    } else {
      RetreatAligned(t, best);
    }
  }

  lemma RetreatAligned(t: Task, best: nat)
    requires t.Ok() && t.start < best <= t.limit && Valid(t.content) && Aligned(t.content, best)
    ensures Aligned(t.content, Finish(t, best))
  {
    var newline := LastNewline(t, best);
    if newline >= 0 { AfterAscii(t.content, newline); }
  }

  /** What it returns fits, unless not even one probed prefix did; then it is the first character alone. */
  lemma FitsOrOneCharacter(t: Task, budget: nat)
    requires t.Ok() && t.Monotone() && End(t, budget).Some?
    ensures t.Fits(End(t, budget).value) || End(t, budget).value == t.start + DecodeSize(t.content[t.start..t.limit])
  {
    SearchKeepsBest(t, FirstWindow(t), budget);
    var best, r := Search(t, FirstWindow(t), budget).value, End(t, budget).value;
    if best > t.start { assert t.Grows(r, best); }
  }

  // ---- Total correctness where only the first character may be long ----

  /** The end of the first character. */
  ghost function First(t: Task): nat
    requires t.Ok()
    ensures t.start < First(t) <= t.limit
  {
    AlignForward(t, t.start + 1)
  }

  lemma AlignSingle(t: Task, m: nat)
    requires t.Ok() && t.start < m <= t.limit && t.SingleByteAfter(First(t))
    ensures Align(t, m) == if m < First(t) then First(t) else m
  {
    AlignBackSkips(t, m);
    AlignForwardSkips(t, t.start + 1);
  }

  /** The longest cut that fits, counting cuts behind the first character; `start` if none fits. */
  ghost predicate Longest(t: Task, best: nat)
    requires t.Ok()
  {
    && (best == t.start || (First(t) <= best <= t.limit && t.Fits(best)))
    && (forall e :: First(t) <= e <= t.limit && e > best ==> !t.Fits(e))
  }

  ghost predicate Narrowed(t: Task, w: Window) {
    && WindowOk(t, w)
    && (w.best == t.start || (First(t) <= w.best && t.Fits(w.best)))
    && w.low == w.best + 1
    && (forall e :: First(t) <= e <= t.limit && e > w.high ==> !t.Fits(e))
  }

  lemma ProbeNarrows(t: Task, w: Window)
    requires Easy(t) && Narrowed(t, w) && w.low <= w.high
    ensures Narrowed(t, Probe(t, w)) && Probe(t, w).high - Probe(t, w).low < w.high - w.low
  {
    AlignSingle(t, Middle(w));
    var m := Align(t, Middle(w));
    forall e | First(t) <= e <= t.limit && e >= m && !t.Fits(m) ensures !t.Fits(e) {
      assert t.Grows(m, e);
    }
  }

  lemma NarrowedToLongest(t: Task, w: Window)
    requires Narrowed(t, w) && w.low > w.high
    ensures Longest(t, w.best)
  {}

  /** With a prefix-monotone counter and single-byte characters behind a first one that fits. */
  ghost predicate Easy(t: Task) {
    t.Ok() && t.Monotone() && t.SingleByteAfter(First(t)) && (t.Fits(First(t)) || First(t) == t.start + 1)
  }

  lemma ProberNarrows(t: Task, w: Window)
    requires Easy(t) && Narrowed(t, w) && w.low <= w.high
    ensures Narrowed(t, Prober(t)(w)) && Prober(t)(w).high - Prober(t)(w).low < w.high - w.low
  {
    ProbeNarrows(t, w);
  }

  lemma SearchFindsLongest(t: Task, w: Window, budget: nat)
    requires Easy(t) && Narrowed(t, w) && budget >= w.high - w.low + 1
    ensures Search(t, w, budget).Some? && Longest(t, Search(t, w, budget).value)
  {
    var inv, good := (v: Window) => Narrowed(t, v), (best: nat) => Longest(t, best);
    forall v | inv(v) && v.low <= v.high
      ensures inv(Prober(t)(v)) && Prober(t)(v).high - Prober(t)(v).low < v.high - v.low
    {
      ProberNarrows(t, v);
    }
    forall v | inv(v) && v.low > v.high ensures good(v.best) { NarrowedToLongest(t, v); }
    IterateEnds(Prober(t), inv, w, budget);
    IterateKeeps(Prober(t), inv, good, w, budget);
    assert good(Search(t, w, budget).value);
  }

  /** A cut the loop's result is turned into: itself, or a newline before it that leaves at least half the maximum. */
  ghost predicate CutFor(t: Task, longest: nat, r: nat)
    requires t.Ok() && t.start <= longest <= t.limit
  {
    if longest == t.start then r == t.start + DecodeSize(t.content[t.start..t.limit])
    else
      && t.start < r <= longest && t.Fits(r)
      && (r < longest ==> IsLastNewline(t, longest, r - 1) && t.Tokens(r) >= Half(t.maximum))
      && (r == longest ==>
        forall i :: t.start <= i < longest - 1 && IsLastNewline(t, longest, i) ==> t.Tokens(i + 1) < Half(t.maximum))
  }

  ghost predicate IsLastNewline(t: Task, end: nat, i: int)
    requires t.Ok() && end <= t.limit
  {
    0 <= i < end && t.content[i] == NEWLINE && forall j :: i < j < end ==> t.content[j] != NEWLINE
  }

  lemma FinishCuts(t: Task, longest: nat)
    requires t.Ok() && t.Monotone() && t.start <= longest <= t.limit && (longest == t.start || t.Fits(longest))
    ensures CutFor(t, longest, Finish(t, longest))
  {
    var r := Finish(t, longest);
    if longest > t.start {
      var newline := LastNewline(t, longest);
      assert t.Grows(r, longest);
      forall i | t.start <= i < longest && IsLastNewline(t, longest, i) ensures i == newline {}
    }
  }

  /**
   Total correctness: the search finds the longest cut that fits, in no more steps than the unit has bytes. The cut
   returned is that one or a newline before it that leaves at least half the maximum; if nothing fits it is the
   first character.
   */
  lemma BoundedEndTotal(t: Task, budget: nat) returns (longest: nat)
    requires Easy(t) && budget >= t.limit - t.start
    ensures t.start <= longest <= t.limit && Longest(t, longest)
    ensures End(t, budget).Some? && CutFor(t, longest, End(t, budget).value)
  {
    SearchFindsLongest(t, FirstWindow(t), budget);
    longest := Search(t, FirstWindow(t), budget).value;
    FinishCuts(t, longest);
  }

  // ---- The answer on any text ----

  /** A cut between two characters. */
  ghost predicate Boundary(t: Task, e: nat)
    requires t.Ok()
  {
    t.start < e <= t.limit && (e == t.limit || RuneStart(t.content[e]))
  }

  /** The longest cut between two characters that fits; `start` if none does. */
  ghost predicate LongestCut(t: Task, best: nat)
    requires t.Ok()
  {
    && (best == t.start || (Boundary(t, best) && t.Fits(best)))
    && forall e: nat :: Boundary(t, e) && e > best ==> !t.Fits(e)
  }

  ghost predicate Closing(t: Task, w: Window) {
    && WindowOk(t, w) && w.low == w.best + 1
    && (w.best == t.start || (Boundary(t, w.best) && t.Fits(w.best)))
    && forall e: nat :: Boundary(t, e) && e > w.high ==> !t.Fits(e)
  }

  lemma ProbeCloses(t: Task, w: Window)
    requires t.Ok() && t.Monotone() && Closing(t, w) && w.low <= w.high
    ensures Closing(t, Prober(t)(w))
  {
    var m := Align(t, Middle(w));
    if !t.Fits(m) {
      forall e: nat | Boundary(t, e) && e >= m ensures !t.Fits(e) { assert t.Grows(m, e); }
    }
  }

  /** On any text: if the search ends, it has found the longest cut between two characters that fits. */
  lemma EndIsLongest(t: Task, budget: nat) returns (longest: nat)
    requires t.Ok() && t.Monotone() && End(t, budget).Some?
    ensures t.start <= longest <= t.limit && LongestCut(t, longest) && CutFor(t, longest, End(t, budget).value)
  {
    var inv, good := (v: Window) => Closing(t, v), (best: nat) => t.Ok() && LongestCut(t, best);
    forall v | inv(v) && v.low <= v.high ensures inv(Prober(t)(v)) { ProbeCloses(t, v); }
    forall v: Window | inv(v) && v.low > v.high ensures good(v.best) { ClosedIsLongest(t, v); }
    IterateKeeps(Prober(t), inv, good, FirstWindow(t), budget);
    longest := Search(t, FirstWindow(t), budget).value;
    assert good(longest);
    FinishCuts(t, longest);
  }

  lemma ClosedIsLongest(t: Task, w: Window)
    requires Closing(t, w) && w.low > w.high
    ensures LongestCut(t, w.best)
  {}

  // ---- Divergence on multi-byte text ----

  /** A character of two bytes or more at content[p..n], behind the first character of the unit. */
  ghost predicate LongAt(t: Task, p: nat, n: nat) {
    t.Ok() && t.start < p && p + 2 <= n <= t.limit && RuneStart(t.content[p]) &&
      forall i :: p < i < n ==> IsTail(t.content[i])
  }

  /** Cuts up to p fit; behind the character at p either nothing fits, or the unit ends there. */
  ghost predicate Trap(t: Task, p: nat, n: nat) {
    && LongAt(t, p, n)
    && (forall e :: t.start < e <= p ==> t.Fits(e))
    && (n == t.limit || forall e :: n <= e <= t.limit ==> !t.Fits(e))
  }

  ghost predicate Trapped(t: Task, p: nat, n: nat, w: Window) {
    WindowOk(t, w) && w.low <= p + 1 && n - 1 <= w.high && (n == t.limit && t.Fits(n) ==> w.high == t.limit)
  }

  lemma AlignSkips(t: Task, p: nat, n: nat, m: nat)
    requires LongAt(t, p, n) && t.start < m <= t.limit
    ensures Align(t, m) <= p || n <= Align(t, m)
    ensures m < n ==> Align(t, m) <= p
  {
    AlignBackSkips(t, m);
    AlignForwardSkips(t, t.start + 1);
  }

  lemma StaysTrapped(t: Task, p: nat, n: nat, w: Window)
    requires Trap(t, p, n) && Trapped(t, p, n, w)
    ensures w.low <= w.high && Trapped(t, p, n, Prober(t)(w))
  {
    AlignSkips(t, p, n, Middle(w));
  }

  lemma NeverEnds(t: Task, p: nat, n: nat, w: Window, budget: nat)
    requires Trap(t, p, n) && Trapped(t, p, n, w)
    ensures Search(t, w, budget) == None
  {
    var inv := (v: Window) => Trapped(t, p, n, v);
    forall v | inv(v) ensures v.low <= v.high && inv(Prober(t)(v)) { StaysTrapped(t, p, n, v); }
    IterateNever(Prober(t), inv, w, budget);
  }

  ghost predicate Ends(t: Task)
    requires t.Ok()
  {
    exists budget :: End(t, budget).Some?
  }

  /**
   The search runs for ever when the longest cut that fits is followed by a long character, and also when the
   whole rest of the unit fits but ends in a long character.
   */
  lemma DivergesAtLongCharacter(t: Task, p: nat, n: nat)
    requires LongAt(t, p, n) && t.Monotone() && t.Fits(p) && (!t.Fits(n) || n == t.limit)
    ensures !Ends(t)
  {
    forall e | t.start < e <= p ensures t.Fits(e) { assert t.Grows(e, p); }
    forall e | n <= e <= t.limit && !t.Fits(n) ensures !t.Fits(e) { assert t.Grows(n, e); }
    forall budget ensures End(t, budget) == None { NeverEnds(t, p, n, FirstWindow(t), budget); }
  }

  /** Every probe lands behind the first character. */
  lemma AlignPassesFirst(t: Task, m: nat)
    requires t.Ok() && t.start < m <= t.limit
    ensures Align(t, m) >= First(t)
  {
    AlignBackSkips(t, m);
    AlignForwardSkips(t, t.start + 1);
  }

  /** Nothing has fitted so far, and the upper end has not passed the last byte of the first character. */
  ghost predicate Shut(t: Task, w: Window) {
    WindowOk(t, w) && w.low == t.start + 1 && w.high >= First(t) - 1
  }

  lemma StaysShut(t: Task, w: Window)
    requires Shut(t, w) && First(t) > t.start + 1
    requires forall e :: First(t) <= e <= t.limit ==> !t.Fits(e)
    ensures w.low <= w.high && Shut(t, Prober(t)(w))
  {
    AlignPassesFirst(t, Middle(w));
  }

  lemma NeverOpens(t: Task, w: Window, budget: nat)
    requires Shut(t, w) && First(t) > t.start + 1
    requires forall e :: First(t) <= e <= t.limit ==> !t.Fits(e)
    ensures Search(t, w, budget) == None
  {
    var inv := (v: Window) => Shut(t, v);
    forall v | inv(v) ensures v.low <= v.high && inv(Prober(t)(v)) { StaysShut(t, v); }
    IterateNever(Prober(t), inv, w, budget);
  }

  /**
   The search also runs for ever when the first character is long and does not fit: the code that would return it
   alone stands behind the loop.
   */
  lemma DivergesAtLongFirst(t: Task)
    requires t.Ok() && t.Monotone() && First(t) > t.start + 1 && !t.Fits(First(t))
    ensures !Ends(t)
  {
    forall e | First(t) <= e <= t.limit ensures !t.Fits(e) { assert t.Grows(First(t), e); }
    forall budget ensures End(t, budget) == None { NeverOpens(t, FirstWindow(t), budget); }
  }

  // ---- Exactly when boundedEnd always comes to an end ----

  /** Being monotone is a matter of the text and the counter, for any earlier end and any cap. */
  lemma SameCounter(whole: Task, t: Task)
    requires whole.Ok() && whole.Monotone() && t.Ok() && t.limit <= whole.limit
    requires t.content == whole.content && t.start == whole.start && t.counter == whole.counter
    ensures t.Monotone()
  {
    forall a: nat, b: nat | t.start <= a <= b <= t.limit ensures t.Grows(a, b) { assert whole.Grows(a, b); }
  }

  /** Valid text from a character boundary on, and a counter that longer prefixes never lower. */
  ghost predicate Readable(content: seq<Byte>, start: nat, counter: Counter) {
    Valid(content) && start < |content| && Aligned(content, start) &&
      Task(content, start, |content|, 0, counter).Monotone()
  }

  /** What splitPiece calls the search on: a unit over the cap. Chunk lets no cap below one through. */
  ghost predicate IsCall(t: Task) {
    t.Ok() && Aligned(t.content, t.limit) && t.maximum >= 1 && !t.Fits(t.limit)
  }

  /** With this counter the search ends for every unit from this start and every cap that it is over. */
  ghost predicate CallsEnd(content: seq<Byte>, start: nat, counter: Counter)
    requires start < |content|
  {
    forall limit: nat, maximum :: IsCall(Task(content, start, limit, maximum, counter)) ==>
      Ends(Task(content, start, limit, maximum, counter))
  }

  lemma SingleProbeShrinks(t: Task, w: Window)
    requires WindowOk(t, w) && w.low <= w.high && First(t) == t.start + 1 && t.SingleByteAfter(First(t))
    ensures WindowOk(t, Prober(t)(w)) && Prober(t)(w).high - Prober(t)(w).low < w.high - w.low
  {
    AlignSingle(t, Middle(w));
  }

  /** On ASCII bytes the search ends, for every counter whatsoever. */
  lemma EndsOnAscii(t: Task, budget: nat)
    requires t.Ok() && budget >= t.limit - t.start && forall i :: t.start <= i < t.limit ==> t.content[i] < 0x80
    ensures End(t, budget).Some?
  {
    assert First(t) == t.start + 1;
    var inv := (v: Window) => WindowOk(t, v);
    forall v | inv(v) && v.low <= v.high
      ensures inv(Prober(t)(v)) && Prober(t)(v).high - Prober(t)(v).low < v.high - v.low
    {
      SingleProbeShrinks(t, v);
    }
    IterateEnds(Prober(t), inv, FirstWindow(t), budget);
  }

  /** content[p..n] is one character of two bytes or more that does not begin before start. */
  ghost predicate LongCharacter(content: seq<Byte>, start: nat, p: nat, n: nat) {
    && start <= p && p + 2 <= n <= |content| && Aligned(content, n) && RuneStart(content[p])
    && forall k :: p < k < n ==> IsTail(content[k])
  }

  /** The character a non-ASCII byte belongs to. */
  lemma {:induction false} CharacterAround(content: seq<Byte>, start: nat, i: nat) returns (p: nat, n: nat)
    requires Valid(content) && start < |content| && Aligned(content, start) && start <= i < |content|
    requires content[i] >= 0x80
    ensures LongCharacter(content, start, p, n)
    decreases |content| - start
  {
    NextBoundary(content, start, |content|);
    assert content[start..][0] == content[start];
    var next := start + RuneSize(content[start..]);
    if i < next {
      p, n := start, next;
    } else {
      p, n := CharacterAround(content, next, i);
    }
  }

  /** The tokens of the first n - start bytes from the start. */
  ghost function Counted(content: seq<Byte>, start: nat, counter: Counter, n: nat): int
    requires start <= n <= |content|
  {
    counter(content[start..n])
  }

  /** A cap that such a character defies: what comes before it fits, and the character does not if it counts. */
  ghost function DefiedCap(content: seq<Byte>, start: nat, counter: Counter, p: nat, n: nat): int
    requires start <= p <= n <= |content|
  {
    if p == start then Counted(content, start, counter, n) - 1
    else if Counted(content, start, counter, p) < 1 then 1
    else Counted(content, start, counter, p)
  }

  lemma DefiedCapDiverges(content: seq<Byte>, start: nat, counter: Counter, p: nat, n: nat)
    requires Readable(content, start, counter) && LongCharacter(content, start, p, n)
    ensures !Ends(Task(content, start, n, DefiedCap(content, start, counter, p, n), counter))
  {
    var t := Task(content, start, n, DefiedCap(content, start, counter, p, n), counter);
    SameCounter(Task(content, start, |content|, 0, counter), t);
    if p == start {
      AlignForwardSkips(t, start + 1);
      assert First(t) == n;
      DivergesAtLongFirst(t);
    } else {
      DivergesAtLongCharacter(t, p, n);
    }
  }

  /** The counter counts the character, and it is not the first token. */
  ghost predicate Counts(content: seq<Byte>, start: nat, counter: Counter, p: nat, n: nat)
    requires start <= p <= n <= |content|
  {
    Counted(content, start, counter, n) > 1 &&
      (p == start || Counted(content, start, counter, n) > Counted(content, start, counter, p))
  }

  /** Any long character that counts makes some call of splitPiece run for ever. */
  lemma EndlessCall(content: seq<Byte>, start: nat, counter: Counter, p: nat, limit: nat) returns (maximum: int)
    requires Readable(content, start, counter) && LongCharacter(content, start, p, limit)
    requires Counts(content, start, counter, p, limit)
    ensures IsCall(Task(content, start, limit, maximum, counter))
    ensures !Ends(Task(content, start, limit, maximum, counter))
  {
    maximum := DefiedCap(content, start, counter, p, limit);
    DefiedCapDiverges(content, start, counter, p, limit);
    SameCounter(Task(content, start, |content|, 0, counter), Task(content, start, limit, maximum, counter));
  }

  lemma LongBehind(content: seq<Byte>, start: nat, first: nat, i: nat) returns (p: nat, n: nat)
    requires Valid(content) && start <= first < |content| && Aligned(content, first) && first <= i < |content|
    requires content[i] >= 0x80
    ensures LongCharacter(content, start, p, n) && p >= first
  {
    p, n := CharacterAround(content, first, i);
  }

  /** No character is long but perhaps the first, and that is one token at most. */
  ghost predicate NoneLong(content: seq<Byte>, start: nat, counter: Counter) {
    forall p: nat, n: nat :: LongCharacter(content, start, p, n) ==>
      p == start && Counted(content, start, counter, n) <= 1
  }

  lemma SingleBehindFirst(t: Task, first: nat)
    requires t.Ok() && Valid(t.content) && t.start < first <= t.limit && Aligned(t.content, first)
    requires NoneLong(t.content, t.start, t.counter)
    ensures t.SingleByteAfter(first)
  {
    forall i | first <= i < t.limit ensures RuneStart(t.content[i]) {
      if t.content[i] >= 0x80 { var p, n := LongBehind(t.content, t.start, first, i); }
    }
  }

  lemma FirstFits(t: Task)
    requires t.Ok() && t.maximum >= 1 && Aligned(t.content, t.start) && Aligned(t.content, t.limit)
    requires NoneLong(t.content, t.start, t.counter)
    ensures t.Fits(First(t)) || First(t) == t.start + 1
  {
    AlignForwardSkips(t, t.start + 1);
    if First(t) > t.start + 1 { assert LongCharacter(t.content, t.start, t.start, First(t)); }
  }

  lemma EndsWithoutLong(t: Task)
    requires t.Ok() && t.Monotone() && t.maximum >= 1 && NoneLong(t.content, t.start, t.counter)
    requires Valid(t.content) && Aligned(t.content, t.start) && Aligned(t.content, t.limit)
    ensures Ends(t)
  {
    FirstFits(t);
    SingleBehindFirst(t, First(t));
    var longest := BoundedEndTotal(t, t.limit - t.start);
  }

  /** Long characters behind the first are counted. */
  ghost predicate CountsLong(content: seq<Byte>, start: nat, counter: Counter) {
    forall p: nat, n: nat :: LongCharacter(content, start, p, n) && p > start ==> Counts(content, start, counter, p, n)
  }

  /** Exactly when the calls with one counter end, if it counts every long character behind the first. */
  lemma CallsEndIff(content: seq<Byte>, start: nat, counter: Counter)
    requires Readable(content, start, counter) && CountsLong(content, start, counter)
    ensures CallsEnd(content, start, counter) <==> NoneLong(content, start, counter)
  {
    if NoneLong(content, start, counter) {
      forall limit: nat, maximum | IsCall(Task(content, start, limit, maximum, counter))
        ensures Ends(Task(content, start, limit, maximum, counter))
      {
        SameCounter(Task(content, start, |content|, 0, counter), Task(content, start, limit, maximum, counter));
        EndsWithoutLong(Task(content, start, limit, maximum, counter));
      }
    } else {
      var p: nat, n: nat :|
        LongCharacter(content, start, p, n) && !(p == start && Counted(content, start, counter, n) <= 1);
      var maximum := EndlessCall(content, start, counter, p, n);
    }
  }

  /** A counter of two tokens a byte. */
  function DoubleLength(s: seq<Byte>): int { 2 * |s| }

  lemma {:induction false} DoubleLengthReads(content: seq<Byte>, start: nat)
    requires Valid(content) && start < |content| && Aligned(content, start)
    ensures Readable(content, start, DoubleLength)
  {
    var t := Task(content, start, |content|, 0, DoubleLength);
    forall a: nat, b: nat | t.start <= a <= b <= t.limit ensures t.Grows(a, b) {}
  }

  lemma AsciiCallsEnd(content: seq<Byte>, start: nat, counter: Counter)
    requires start < |content| && Ascii(content[start..])
    ensures CallsEnd(content, start, counter)
  {
    forall i | start <= i < |content| ensures content[i] < 0x80 { assert content[i] == content[start..][i - start]; }
    forall limit: nat, maximum | IsCall(Task(content, start, limit, maximum, counter))
      ensures Ends(Task(content, start, limit, maximum, counter))
    {
      EndsOnAscii(Task(content, start, limit, maximum, counter), limit - start);
    }
  }

  lemma {:induction false} EndlessDouble(content: seq<Byte>, start: nat, i: nat)
    requires Valid(content) && start < |content| && Aligned(content, start) && start <= i < |content|
    requires content[i] >= 0x80
    ensures !CallsEnd(content, start, DoubleLength)
  {
    var p, limit := CharacterAround(content, start, i);
    DoubleLengthReads(content, start);
    var maximum := EndlessCall(content, start, DoubleLength, p, limit);
  }

  /** For all counters together: every call from the start ends if and only if every byte from there on is ASCII. */
  lemma {:induction false} AlwaysEndsIffAscii(content: seq<Byte>, start: nat)
    requires Valid(content) && start < |content| && Aligned(content, start)
    ensures (forall counter :: CallsEnd(content, start, counter)) <==> Ascii(content[start..])
  {
    if Ascii(content[start..]) {
      forall counter ensures CallsEnd(content, start, counter) { AsciiCallsEnd(content, start, counter); }
    } else {
      var i :| 0 <= i < |content[start..]| && content[start..][i] >= 0x80;
      EndlessDouble(content, start, start + i);
    }
  }

  lemma EndlessWhole(content: seq<Byte>, p: nat, n: nat) returns (t: Task)
    requires Valid(content) && content != [] && LongCharacter(content, 0, p, n)
    ensures t == Task(content, 0, |content|, t.maximum, DoubleLength) && IsCall(t) && !Ends(t)
  {
    DoubleLengthReads(content, 0);
    t := Task(content, 0, |content|, if p == 0 then 1 else 2 * p, DoubleLength);
    SameCounter(Task(content, 0, |content|, 0, DoubleLength), t);
    if p == 0 {
      AlignForwardSkips(t, 1);
      DivergesAtLongFirst(t);
    } else {
      DivergesAtLongCharacter(t, p, n);
    }
  }

  /** The same of a whole file that is one unit: what Chunk does first when the file has no symbols. */
  lemma {:induction false} WholeFileEndsIffAscii(content: seq<Byte>)
    requires Valid(content) && content != []
    ensures (forall counter, maximum :: IsCall(Task(content, 0, |content|, maximum, counter)) ==>
              Ends(Task(content, 0, |content|, maximum, counter)))
            <==> Ascii(content)
  {
    assert content[0..] == content;
    if Ascii(content) {
      AlwaysEndsIffAscii(content, 0);
      forall counter, maximum | IsCall(Task(content, 0, |content|, maximum, counter))
        ensures Ends(Task(content, 0, |content|, maximum, counter))
      {
        assert CallsEnd(content, 0, counter);
      }
    } else {
      var i :| 0 <= i < |content| && content[i] >= 0x80;
      var p, n := CharacterAround(content, 0, i);
      var t := EndlessWhole(content, p, n);
    }
  }
}
