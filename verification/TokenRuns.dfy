/** What a call of Token comes to in a run, told from the run's steps and its history. */
module TokenRuns {
  import opened Wrappers
  import opened TokenCache

  // ---- Reading the history ----

  /** The token that was last accepted for an installation. */
  function LastToken(history: seq<Event>, inst: int): Option<Token> {
    if history == [] then None
    else
      var last := history[|history| - 1];
      if last.Published? && last.inst == inst && last.outcome.error == None then Some(last.outcome.token)
      else LastToken(history[..|history| - 1], inst)
  }

  /** What a clock that shows `now` shows after these steps. */
  function ClockFrom(now: int, labels: seq<Label>): int {
    if labels == [] then now
    else
      var last := labels[|labels| - 1];
      if last.Clock? then last.to else ClockFrom(now, labels[..|labels| - 1])
  }

  function ClockAfter(labels: seq<Label>): int { ClockFrom(0, labels) }

  lemma {:induction false} ClockFromNext(now: int, l: Label, rest: seq<Label>)
    ensures ClockFrom(now, [l] + rest) == ClockFrom(if l.Clock? then l.to else now, rest)
  {
    if rest == [] {
      assert [l] + rest == [l] && [l][..0] == [];
    } else {
      var n := |rest| - 1;
      ClockFromNext(now, l, rest[..n]);
      assert ([l] + rest)[..n + 1] == [l] + rest[..n];
    }
  }

  ghost predicate HasStarted(history: seq<Event>, inst: int, call: nat) {
    exists at :: Started(inst, call, at) in history
  }

  /** The call for this installation has started, and its outcome has not been published. */
  ghost predicate Open(history: seq<Event>, inst: int, call: nat) {
    HasStarted(history, inst, call) && forall outcome :: Published(inst, call, outcome) !in history
  }

  ghost predicate CacheTold(s: State) {
    forall inst :: LastToken(s.history, inst) == if inst in s.tokens then Some(s.tokens[inst]) else None
  }

  ghost predicate CallTold(s: State, c: nat)
    requires c < |s.calls|
  {
    && HasStarted(s.history, s.calls[c].inst, c)
    && (s.calls[c].outcome.Some? ==> Published(s.calls[c].inst, c, s.calls[c].outcome.value) in s.history)
  }

  ghost predicate EventTold(s: State, e: Event) {
    match e
    case Started(inst, call, _) => call < |s.calls| && s.calls[call].inst == inst
    case Published(inst, call, outcome) =>
      call < |s.calls| && s.calls[call].inst == inst && s.calls[call].outcome == Some(outcome)
    case MinterSaid(_, _, _, _) => true
  }

  /** The history tells the whole state of cache and calls. */
  ghost predicate Told(s: State) {
    && CacheTold(s)
    && (forall c: nat :: c < |s.calls| ==> CallTold(s, c))
    && (forall e :: e in s.history ==> EventTold(s, e))
  }

  lemma {:induction false} LastTokenNext(history: seq<Event>, e: Event, inst: int)
    ensures LastToken(history + [e], inst) ==
      if e.Published? && e.inst == inst && e.outcome.error == None then Some(e.outcome.token)
      else LastToken(history, inst)
  {
    assert (history + [e])[..|history|] == history;
  }

  lemma StartedStays(history: seq<Event>, e: Event, inst: int, call: nat)
    requires HasStarted(history, inst, call)
    ensures HasStarted(history + [e], inst, call)
  {
    var at :| Started(inst, call, at) in history;
    assert Started(inst, call, at) in history + [e];
  }

  lemma ToldCalls(s: State, t: State, e: Event)
    requires Told(s) && t.history == s.history + [e] && EventTold(t, e)
    requires |s.calls| <= |t.calls| && forall c: nat :: c < |t.calls| ==>
      if c < |s.calls| then
        t.calls[c].inst == s.calls[c].inst && (t.calls[c].outcome == s.calls[c].outcome ||
          (s.calls[c].outcome == None && t.calls[c].outcome.Some? &&
            e == Published(t.calls[c].inst, c, t.calls[c].outcome.value)))
      else t.calls[c].outcome == None && HasStarted(t.history, t.calls[c].inst, c)
    ensures forall c: nat :: c < |t.calls| ==> CallTold(t, c)
    ensures forall x :: x in t.history ==> EventTold(t, x)
  {
    forall c: nat | c < |t.calls| ensures CallTold(t, c) {
      if c < |s.calls| {
        assert CallTold(s, c);
        StartedStays(s.history, e, s.calls[c].inst, c);
      }
    }
    forall x | x in t.history ensures EventTold(t, x) {
      if x in s.history { assert EventTold(s, x); }
    }
  }

  lemma ToldCache(s: State, t: State, e: Event)
    requires CacheTold(s) && t.history == s.history + [e]
    requires t.tokens == if e.Published? &&
      e.outcome.error == None then s.tokens[e.inst := e.outcome.token] else s.tokens
    ensures CacheTold(t)
  {
    forall inst ensures LastToken(t.history, inst) == if inst in t.tokens then Some(t.tokens[inst]) else None {
      LastTokenNext(s.history, e, inst);
    }
  }

  lemma ToldEnter(cfg: Config, s: State, tid: nat, inst: int)
    requires Told(s) && tid !in s.threads
    ensures Told(EnterStep(cfg, s, tid, inst))
  {
    var t := EnterStep(cfg, s, tid, inst);
    if t.history == s.history {
      assert t.calls == s.calls && t.tokens == s.tokens;
      ToldSame(s, t);
    } else {
      var e := Started(inst, |s.calls|, s.clock);
      assert e in t.history;
      ToldCalls(s, t, e);
      ToldCache(s, t, e);
    }
  }

  lemma ToldSame(s: State, t: State)
    requires Told(s) && t.history == s.history && t.calls == s.calls && t.tokens == s.tokens
    ensures Told(t)
  {
    forall c: nat | c < |t.calls| ensures CallTold(t, c) { assert CallTold(s, c); }
    forall e | e in t.history ensures EventTold(t, e) { assert EventTold(s, e); }
  }

  lemma ToldPublish(cfg: Config, s: State, tid: nat)
    requires Safe(cfg, s) && Told(s) && tid in s.threads && s.threads[tid].Minted?
    ensures Told(PublishStep(s, tid))
  {
    var t, e := PublishStep(s, tid), Published(s.threads[tid].inst, s.threads[tid].call, s.threads[tid].outcome);
    assert SoundThread(cfg, s, tid, s.threads[tid]);
    ToldCalls(s, t, e);
    ToldCache(s, t, e);
  }

  lemma ToldStep(cfg: Config, s: State, l: Label)
    requires Safe(cfg, s) && Told(s) && Enabled(cfg, s, l)
    ensures Told(Apply(cfg, s, l))
  {
    var t := Apply(cfg, s, l);
    match l
    case Enter(tid, inst) => ToldEnter(cfg, s, tid, inst);
    case Publish(tid) => ToldPublish(cfg, s, tid);
    case MintReturns(tid, token, error) =>
      var e := MinterSaid(s.threads[tid].inst, token, error, s.clock);
      ToldCalls(s, t, e);
      ToldCache(s, t, e);
    case _ => ToldSame(s, t);
  }

  /** Sound, and told by its history. */
  ghost predicate Sound(cfg: Config, s: State) { Safe(cfg, s) && Told(s) }

  lemma SoundStep(cfg: Config, s: State, l: Label)
    requires Sound(cfg, s) && Enabled(cfg, s, l)
    ensures Sound(cfg, Apply(cfg, s, l)) && s.history <= Apply(cfg, s, l).history
  {
    SafeStep(cfg, s, l);
    ToldStep(cfg, s, l);
  }

  lemma {:induction false} SoundRun(cfg: Config, from: State, labels: seq<Label>, to: State)
    requires Sound(cfg, from) && Runs(cfg, from, labels, to)
    ensures Sound(cfg, to) && from.history <= to.history
    decreases |labels|
  {
    if labels == [] {
    } else {
      SoundStep(cfg, from, labels[0]);
      SoundRun(cfg, Apply(cfg, from, labels[0]), labels[1..], to);
    }
  }

  lemma InitialIsSound(cfg: Config)
    ensures Sound(cfg, Initial)
  {}

  lemma OpenIsInFlight(cfg: Config, s: State, inst: int, call: nat)
    requires Sound(cfg, s) && Open(s.history, inst, call)
    ensures inst in s.inflight && s.inflight[inst] == call
  {
    var at :| Started(inst, call, at) in s.history;
    assert EventTold(s, Started(inst, call, at));
    assert CallTold(s, call);
  }

  lemma InFlightIsOpen(cfg: Config, s: State, inst: int)
    requires Sound(cfg, s) && inst in s.inflight
    ensures Open(s.history, inst, s.inflight[inst])
  {
    var call := s.inflight[inst];
    assert CallTold(s, call);
    forall outcome ensures Published(inst, call, outcome) !in s.history {
      assert Published(inst, call, outcome) in s.history ==> EventTold(s, Published(inst, call, outcome));
    }
  }

  // ---- Cutting a run ----

  lemma {:induction false} CutRun(cfg: Config, from: State, labels: seq<Label>, i: nat, to: State) returns (mid: State)
    requires Runs(cfg, from, labels, to) && i <= |labels|
    ensures Runs(cfg, from, labels[..i], mid) && Runs(cfg, mid, labels[i..], to)
    decreases i
  {
    if i == 0 {
      mid := from;
      assert labels[0..] == labels;
    } else {
      var rest := labels[1..];
      mid := CutRun(cfg, Apply(cfg, from, labels[0]), rest, i - 1, to);
      assert rest[..i - 1] == labels[..i][1..] && rest[i - 1..] == labels[i..];
    }
  }

  lemma {:induction false} ClockOfRun(cfg: Config, labels: seq<Label>, s: State)
    requires Runs(cfg, Initial, labels, s)
    ensures s.clock == ClockAfter(labels)
    decreases |labels|
  {
    if labels == [] {
    } else {
      var n := |labels| - 1;
      var mid := CutRun(cfg, Initial, labels, n, s);
      ClockOfRun(cfg, labels[..n], mid);
      assert labels[n..] == [labels[n]] && labels[n..][1..] == [];
    }
  }

  lemma {:induction false} OneRun(cfg: Config, from: State, labels: seq<Label>, a: State, b: State)
    requires Runs(cfg, from, labels, a) && Runs(cfg, from, labels, b)
    ensures a == b
    decreases |labels|
  {
    if labels == [] {
    } else {
      OneRun(cfg, Apply(cfg, from, labels[0]), labels[1..], a, b);
    }
  }

  // ---- One caller through a run ----

  const REFUSED: Outcome := Outcome(Token("", 0), Some(NoMinter))
  const CANCELLED: Outcome := Outcome(Token("", 0), Some(Cancelled))

  lemma {:induction false} ReturnedStays(cfg: Config, from: State, labels: seq<Label>, to: State, tid: nat)
    requires Runs(cfg, from, labels, to) && tid in from.threads && from.threads[tid].Returned?
    ensures tid in to.threads && to.threads[tid] == from.threads[tid]
    ensures Cancel(tid) !in labels && Deliver(tid) !in labels && Publish(tid) !in labels
    decreases |labels|
  {
    if labels == [] {
    } else {
      ReturnedStays(cfg, Apply(cfg, from, labels[0]), labels[1..], to, tid);
      assert labels == [labels[0]] + labels[1..];
    }
  }

  /** What becomes of a caller that waits on a call: nothing yet, its cancellation, or what the call published. */
  ghost predicate WaitedFor(labels: seq<Label>, s: State, tid: nat, inst: int, call: nat) {
    && tid in s.threads
    && (Cancel(tid) in labels ==> s.threads[tid] == Returned(inst, CANCELLED, GaveUp))
    && (Cancel(tid) !in labels && Deliver(tid) !in labels ==> s.threads[tid] == Waiting(inst, call))
    && (Cancel(tid) !in labels && Deliver(tid) in labels ==>
      exists outcome :: Published(inst, call, outcome) in s.history
                        && s.threads[tid] == Returned(inst, outcome, AsWaiter(call)))
  }

  /** The step is one of this caller's own. */
  predicate Own(l: Label, tid: nat) { !l.Clock? && l.tid == tid }

  lemma OthersLeaveIt(cfg: Config, s: State, l: Label, tid: nat)
    requires Enabled(cfg, s, l) && tid in s.threads && !Own(l, tid)
    ensures tid in Apply(cfg, s, l).threads && Apply(cfg, s, l).threads[tid] == s.threads[tid]
  {}

  lemma WaitedNext(l: Label, rest: seq<Label>, s: State, tid: nat, inst: int, call: nat)
    requires WaitedFor(rest, s, tid, inst, call) && !Own(l, tid)
    ensures WaitedFor([l] + rest, s, tid, inst, call)
  {
    assert Cancel(tid) in [l] + rest <==> Cancel(tid) in rest;
    assert Deliver(tid) in [l] + rest <==> Deliver(tid) in rest;
  }

  /** A waiter's own step is its last. */
  lemma {:induction false} WaiterMoves(cfg: Config, from: State, l: Label, rest: seq<Label>, to: State, tid: nat)
    requires Sound(cfg, from) && tid in from.threads && from.threads[tid].Waiting? && Own(l, tid)
    requires Enabled(cfg, from, l) && Runs(cfg, Apply(cfg, from, l), rest, to)
    ensures WaitedFor([l] + rest, to, tid, from.threads[tid].inst, from.threads[tid].call)
  {
    SoundStep(cfg, from, l);
    SoundRun(cfg, Apply(cfg, from, l), rest, to);
    ReturnedStays(cfg, Apply(cfg, from, l), rest, to, tid);
    DeliveredIsPublished(cfg, from, tid);
    assert Cancel(tid) in [l] + rest <==> l.Cancel?;
    assert Deliver(tid) in [l] + rest <==> l.Deliver?;
  }

  lemma {:induction false} WaiterThrough(cfg: Config, from: State, labels: seq<Label>, to: State, tid: nat)
    requires Sound(cfg, from) && Runs(cfg, from, labels, to) && tid in from.threads && from.threads[tid].Waiting?
    ensures WaitedFor(labels, to, tid, from.threads[tid].inst, from.threads[tid].call)
    decreases |labels|
  {
    if labels == [] {
    } else {
      var l, rest := labels[0], labels[1..];
      assert labels == [l] + rest;
      if Own(l, tid) {
        WaiterMoves(cfg, from, l, rest, to, tid);
      } else {
        SoundStep(cfg, from, l);
        OthersLeaveIt(cfg, from, l, tid);
        WaiterThrough(cfg, Apply(cfg, from, l), rest, to, tid);
        WaitedNext(l, rest, to, tid, from.threads[tid].inst, from.threads[tid].call);
      }
    }
  }

  lemma DeliveredIsPublished(cfg: Config, s: State, tid: nat)
    requires Sound(cfg, s) && tid in s.threads && s.threads[tid].Waiting?
    ensures var Waiting(inst, call) := s.threads[tid];
      call < |s.calls| && (s.calls[call].outcome.Some? ==>
        Published(inst, call, s.calls[call].outcome.value) in s.history)
  {
    assert SoundThread(cfg, s, tid, s.threads[tid]);
    assert CallTold(s, s.threads[tid].call);
  }

  /** The outcome is the minter's answer; a token that is empty or does not outlive the skew is an error. */
  ghost predicate Verdict(cfg: Config, outcome: Outcome, token: Token, error: Option<Error>, at: int) {
    && outcome.token == token
    && (error.Some? ==> outcome.error == error)
    && (error.None? && (token.value == "" || token.expires <= at + cfg.Skew()) ==>
      outcome.error == Some(EmptyOrExpiring))
    && (error.None? && token.value != "" && token.expires > at + cfg.Skew() ==> outcome.error == None)
  }

  ghost predicate Answered(cfg: Config, now: int, labels: seq<Label>, s: State, tid: nat, inst: int,
                           outcome: Outcome) {
    exists j: nat, token, error :: AnsweredAt(cfg, now, labels, s, tid, inst, outcome, j, token, error)
  }

  /** The j-th step brings the minter's answer, judged at the time it comes. */
  ghost predicate AnsweredAt(cfg: Config, now: int, labels: seq<Label>, s: State, tid: nat, inst: int,
                             outcome: Outcome, j: nat, token: Token, error: Option<Error>) {
    && j < |labels| && labels[j] == MintReturns(tid, token, error)
    && MinterSaid(inst, token, error, ClockFrom(now, labels[..j])) in s.history
    && Verdict(cfg, outcome, token, error, ClockFrom(now, labels[..j]))
  }

  /** What becomes of a caller whose call has this outcome: it publishes and returns that. */
  ghost predicate PublishedThrough(labels: seq<Label>, s: State, tid: nat, inst: int, call: nat, outcome: Outcome) {
    && tid in s.threads && Cancel(tid) !in labels && Deliver(tid) !in labels
    && (Publish(tid) in labels ==>
      s.threads[tid] == Returned(inst, outcome, AsLeader(call)) && Published(inst, call, outcome) in s.history)
    && (Publish(tid) !in labels ==> s.threads[tid] == Minted(inst, call, outcome))
  }

  lemma OthersAdded(l: Label, rest: seq<Label>)
    ensures forall x :: x in [l] + rest <==> x == l || x in rest
  {}

  lemma PublishedNext(l: Label, rest: seq<Label>, s: State, tid: nat, inst: int, call: nat, outcome: Outcome)
    requires PublishedThrough(rest, s, tid, inst, call, outcome) && !Own(l, tid)
    ensures PublishedThrough([l] + rest, s, tid, inst, call, outcome)
  {
    OthersAdded(l, rest);
  }

  lemma {:induction false} LeaderPublishes(cfg: Config, from: State, l: Label, rest: seq<Label>, to: State, tid: nat)
    requires Sound(cfg, from) && tid in from.threads && from.threads[tid].Minted? && Own(l, tid)
    requires Enabled(cfg, from, l) && Runs(cfg, Apply(cfg, from, l), rest, to)
    ensures var Minted(inst, call, outcome) := from.threads[tid];
      PublishedThrough([l] + rest, to, tid, inst, call, outcome)
  {
    var Minted(inst, call, outcome) := from.threads[tid];
    SoundStep(cfg, from, l);
    SoundRun(cfg, Apply(cfg, from, l), rest, to);
    ReturnedStays(cfg, Apply(cfg, from, l), rest, to, tid);
    assert Published(inst, call, outcome) in Apply(cfg, from, l).history;
    OthersAdded(l, rest);
  }

  lemma {:induction false} MintedThrough(cfg: Config, from: State, labels: seq<Label>, to: State, tid: nat)
    requires Sound(cfg, from) && Runs(cfg, from, labels, to) && tid in from.threads && from.threads[tid].Minted?
    ensures var Minted(inst, call, outcome) := from.threads[tid];
      PublishedThrough(labels, to, tid, inst, call, outcome)
    decreases |labels|
  {
    if labels == [] {
    } else {
      var l, rest := labels[0], labels[1..];
      assert labels == [l] + rest;
      if Own(l, tid) {
        LeaderPublishes(cfg, from, l, rest, to, tid);
      } else {
        var Minted(inst, call, outcome) := from.threads[tid];
        SoundStep(cfg, from, l);
        OthersLeaveIt(cfg, from, l, tid);
        MintedThrough(cfg, Apply(cfg, from, l), rest, to, tid);
        PublishedNext(l, rest, to, tid, inst, call, outcome);
      }
    }
  }

  /** The caller publishes and returns the verdict on what the minter answered it. */
  ghost predicate PublishesAnswer(cfg: Config, now: int, labels: seq<Label>, s: State, tid: nat, inst: int, call: nat,
                                  outcome: Outcome) {
    PublishedThrough(labels, s, tid, inst, call, outcome) && Answered(cfg, now, labels, s, tid, inst, outcome)
  }

  /** A caller that leads a call: it is still minting, or it publishes the minter's answer. */
  ghost predicate LedThrough(cfg: Config, now: int, labels: seq<Label>, s: State, tid: nat, inst: int, call: nat) {
    (&& tid in s.threads && s.threads[tid] == Minting(inst, call)
     && Cancel(tid) !in labels && Deliver(tid) !in labels && Publish(tid) !in labels)
    || exists outcome :: PublishesAnswer(cfg, now, labels, s, tid, inst, call, outcome)
  }

  function Tick(now: int, l: Label): int { if l.Clock? then l.to else now }

  lemma LedNext(cfg: Config, now: int, l: Label, rest: seq<Label>, s: State, tid: nat, inst: int, call: nat)
    requires LedThrough(cfg, Tick(now, l), rest, s, tid, inst, call) && !Own(l, tid)
    ensures LedThrough(cfg, now, [l] + rest, s, tid, inst, call)
  {
    OthersAdded(l, rest);
    if outcome :| PublishesAnswer(cfg, Tick(now, l), rest, s, tid, inst, call, outcome) {
      PublishedNext(l, rest, s, tid, inst, call, outcome);
      AnsweredNext(cfg, now, l, rest, s, tid, inst, outcome);
      assert PublishesAnswer(cfg, now, [l] + rest, s, tid, inst, call, outcome);
    }
  }

  lemma AnsweredNext(cfg: Config, now: int, l: Label, rest: seq<Label>, s: State, tid: nat, inst: int, outcome: Outcome)
    requires Answered(cfg, Tick(now, l), rest, s, tid, inst, outcome)
    ensures Answered(cfg, now, [l] + rest, s, tid, inst, outcome)
  {
    var j: nat, token, error :| AnsweredAt(cfg, Tick(now, l), rest, s, tid, inst, outcome, j, token, error);
    assert ([l] + rest)[..j + 1] == [l] + rest[..j];
    ClockFromNext(now, l, rest[..j]);
    assert AnsweredAt(cfg, now, [l] + rest, s, tid, inst, outcome, j + 1, token, error);
  }

  lemma {:induction false} LeaderIsAnswered(cfg: Config, from: State, l: Label, rest: seq<Label>, to: State, tid: nat)
    requires Sound(cfg, from) && tid in from.threads && from.threads[tid].Minting? && Own(l, tid)
    requires Enabled(cfg, from, l) && Runs(cfg, Apply(cfg, from, l), rest, to)
    ensures LedThrough(cfg, from.clock, [l] + rest, to, tid, from.threads[tid].inst, from.threads[tid].call)
  {
    var now, mid, inst, call := from.clock, Apply(cfg, from, l), from.threads[tid].inst, from.threads[tid].call;
    var outcome := mid.threads[tid].outcome;
    SoundStep(cfg, from, l);
    SoundRun(cfg, mid, rest, to);
    MintedThrough(cfg, mid, rest, to, tid);
    assert MinterSaid(inst, l.token, l.error, now) in mid.history;
    OthersAdded(l, rest);
    assert PublishedThrough([l] + rest, to, tid, inst, call, outcome);
    assert ([l] + rest)[..0] == [];
    assert AnsweredAt(cfg, now, [l] + rest, to, tid, inst, outcome, 0, l.token, l.error);
    assert PublishesAnswer(cfg, now, [l] + rest, to, tid, inst, call, outcome);
  }

  lemma {:induction false} LeaderThrough(cfg: Config, from: State, labels: seq<Label>, to: State, tid: nat)
    requires Sound(cfg, from) && Runs(cfg, from, labels, to) && tid in from.threads && from.threads[tid].Minting?
    ensures LedThrough(cfg, from.clock, labels, to, tid, from.threads[tid].inst, from.threads[tid].call)
    decreases |labels|
  {
    if labels == [] {
    } else {
      var l, rest := labels[0], labels[1..];
      assert labels == [l] + rest;
      if Own(l, tid) {
        LeaderIsAnswered(cfg, from, l, rest, to, tid);
      } else {
        SoundStep(cfg, from, l);
        OthersLeaveIt(cfg, from, l, tid);
        LeaderThrough(cfg, Apply(cfg, from, l), rest, to, tid);
        LedNext(cfg, from.clock, l, rest, to, tid, from.threads[tid].inst, from.threads[tid].call);
      }
    }
  }

  // ---- What every call of Token comes to ----

  /** The token outlives the skew. */
  predicate FreshAt(cfg: Config, token: Token, now: int) { token.value != "" && token.expires > now + cfg.Skew() }

  ghost predicate NoneOpen(history: seq<Event>, inst: int) { forall call: nat :: !Open(history, inst, call) }

  /** A call was started after this history, and the caller leads it. */
  ghost predicate Leader(cfg: Config, history: seq<Event>, now: int, rest: seq<Label>, s: State, tid: nat, inst: int,
                         call: nat) {
    |history| < |s.history| && s.history[|history|] == Started(inst, call, now)
    && LedThrough(cfg, now, rest, s, tid, inst, call)
  }

  /**
   What a caller gets that enters after this history, at this time. Without a minter it is refused. On a token accepted
   last that outlives the skew it returns that. On an open call it waits, and unless it is cancelled returns what the
   call publishes. Otherwise it starts a call and returns the verdict on the minter's answer to it.
   */
  ghost predicate Gets(cfg: Config, history: seq<Event>, now: int, rest: seq<Label>, s: State, tid: nat, inst: int) {
    var last := LastToken(history, inst);
    if !cfg.hasMinter then tid in s.threads && s.threads[tid] == Returned(inst, REFUSED, GaveUp)
    else if last.Some? && FreshAt(cfg, last.value, now) then
      tid in s.threads && s.threads[tid] == Returned(inst, Outcome(last.value, None), FromCache)
    else
      && (forall call: nat :: Open(history, inst, call) ==> WaitedFor(rest, s, tid, inst, call))
      && (NoneOpen(history, inst) ==> exists call: nat :: Leader(cfg, history, now, rest, s, tid, inst, call))
  }

  /** Every caller of Token in every run, from the steps and the history alone. */
  lemma {:induction false} CallerGets(cfg: Config, labels: seq<Label>, i: nat, tid: nat, inst: int, mid: State,
                                      s: State)
    requires i < |labels| && labels[i] == Enter(tid, inst)
    requires Runs(cfg, Initial, labels[..i], mid) && Runs(cfg, Initial, labels, s)
    ensures Gets(cfg, mid.history, ClockAfter(labels[..i]), labels[i + 1..], s, tid, inst)
  {
    var from := CutRun(cfg, Initial, labels, i, s);
    OneRun(cfg, Initial, labels[..i], from, mid);
    ClockOfRun(cfg, labels[..i], mid);
    InitialIsSound(cfg);
    SoundRun(cfg, Initial, labels[..i], mid);
    assert labels[i..][0] == labels[i] && labels[i..][1..] == labels[i + 1..];
    Entered(cfg, mid, labels[i + 1..], s, tid, inst);
  }

  lemma {:induction false} Entered(cfg: Config, mid: State, rest: seq<Label>, s: State, tid: nat, inst: int)
    requires Sound(cfg, mid) && tid !in mid.threads && Runs(cfg, EnterStep(cfg, mid, tid, inst), rest, s)
    ensures Gets(cfg, mid.history, mid.clock, rest, s, tid, inst)
  {
    var next := EnterStep(cfg, mid, tid, inst);
    SoundStep(cfg, mid, Enter(tid, inst));
    assert LastToken(mid.history, inst) == if inst in mid.tokens then Some(mid.tokens[inst]) else None;
    if next.threads[tid].Returned? {
      ReturnedStays(cfg, next, rest, s, tid);
    } else if next.threads[tid].Waiting? {
      WaiterThrough(cfg, next, rest, s, tid);
      InFlightIsOpen(cfg, mid, inst);
      forall call: nat | Open(mid.history, inst, call) ensures call == mid.inflight[inst] {
        OpenIsInFlight(cfg, mid, inst, call);
      }
    } else {
      EnteredAlone(cfg, mid, rest, s, tid, inst);
    }
  }

  lemma {:induction false} EnteredAlone(cfg: Config, mid: State, rest: seq<Label>, s: State, tid: nat, inst: int)
    requires Sound(cfg, mid) && tid !in mid.threads && Runs(cfg, EnterStep(cfg, mid, tid, inst), rest, s)
    requires EnterStep(cfg, mid, tid, inst).threads[tid].Minting?
    ensures NoneOpen(mid.history, inst) && Leader(cfg, mid.history, mid.clock, rest, s, tid, inst, |mid.calls|)
  {
    var next := EnterStep(cfg, mid, tid, inst);
    SoundStep(cfg, mid, Enter(tid, inst));
    SoundRun(cfg, next, rest, s);
    LeaderThrough(cfg, next, rest, s, tid);
    assert next.history[|mid.history|] == Started(inst, |mid.calls|, mid.clock);
    forall call: nat ensures !Open(mid.history, inst, call) { NotInFlightIsClosed(cfg, mid, inst, call); }
  }

  lemma NotInFlightIsClosed(cfg: Config, s: State, inst: int, call: nat)
    requires Sound(cfg, s) && inst !in s.inflight
    ensures !Open(s.history, inst, call)
  {
    if Open(s.history, inst, call) { OpenIsInFlight(cfg, s, inst, call); }
  }

  /** A caller gives up only for lack of a minter, or because it was cancelled. */
  lemma {:induction false} GivesUpOnlyIf(cfg: Config, labels: seq<Label>, i: nat, tid: nat, inst: int, mid: State,
                                         s: State)
    requires i < |labels| && labels[i] == Enter(tid, inst)
    requires Runs(cfg, Initial, labels[..i], mid) && Runs(cfg, Initial, labels, s)
    ensures tid in s.threads
    ensures s.threads[tid].Returned? && s.threads[tid].route.GaveUp? ==>
      !cfg.hasMinter || Cancel(tid) in labels[i + 1..]
  {
    CallerGets(cfg, labels, i, tid, inst, mid, s);
  }
}
