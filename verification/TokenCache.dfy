/** Single-flight installation tokens (client.go, CachedTokenSource.Token). */
module TokenCache {
  import opened Wrappers

  // Every concurrent call of Token is a thread; the code between Lock and Unlock is one step, minting and waiting
  // happen between steps. Time is in nanoseconds and read from the clock at the moment of the step.

  datatype Token = Token(value: string, expires: int)
  datatype Error = NoMinter | Cancelled | MintFailed(reason: string) | EmptyOrExpiring
  /** Go's (Token, error) pair: a rejected token is returned next to its error. */
  datatype Outcome = Outcome(token: Token, error: Option<Error>)

  const TWO_MINUTES: int := 120_000_000_000

  datatype Config = Config(hasMinter: bool, configuredSkew: int) {
    function Skew(): (s: int)
      ensures s > 0 && (configuredSkew > 0 ==> s == configuredSkew) && (configuredSkew <= 0 ==> s == 120_000_000_000)
    {
      if configuredSkew <= 0 then TWO_MINUTES else configuredSkew
    }
  }

  predicate Usable(tokens: map<int, Token>, inst: int, now: int, skew: int) {
    inst in tokens && tokens[inst].value != "" && now + skew < tokens[inst].expires
  }

  /** What the leader makes of the minter's answer. */
  function Judge(token: Token, error: Option<Error>, now: int, skew: int): Outcome {
    if error.None? && (token.value == "" || !(token.expires > now + skew)) then Outcome(token, Some(EmptyOrExpiring))
    else Outcome(token, error)
  }

  // ---- The protocol ----

  datatype Route = FromCache | AsLeader(call: nat) | AsWaiter(call: nat) | GaveUp
  datatype Thread =
    | Minting(inst: int, call: nat)
    | Minted(inst: int, call: nat, outcome: Outcome)
    | Waiting(inst: int, call: nat)
    | Returned(inst: int, outcome: Outcome, route: Route)

  /** A mintCall: `outcome` is None until `done` is closed. */
  datatype Call = Call(inst: int, leader: nat, outcome: Option<Outcome>)

  datatype Event =
    | Started(inst: int, call: nat, at: int)
    | MinterSaid(inst: int, token: Token, error: Option<Error>, at: int)
    | Published(inst: int, call: nat, outcome: Outcome)

  datatype State = State(
    clock: int,
    tokens: map<int, Token>,
    inflight: map<int, nat>,
    calls: seq<Call>,
    threads: map<nat, Thread>,
    history: seq<Event>)

  datatype Label =
    | Clock(to: int)
    | Enter(tid: nat, inst: int)
    | MintReturns(tid: nat, token: Token, error: Option<Error>)
    | Publish(tid: nat)
    | Deliver(tid: nat)
    | Cancel(tid: nat)

  ghost const Initial := State(0, map[], map[], [], map[], [])

  ghost predicate Enabled(cfg: Config, s: State, l: Label) {
    match l
    case Clock(_) => true
    case Enter(tid, _) => tid !in s.threads
    case MintReturns(tid, _, _) => tid in s.threads && s.threads[tid].Minting?
    case Publish(tid) => tid in s.threads && s.threads[tid].Minted?
    case Deliver(tid) => tid in s.threads && s.threads[tid].Waiting? && s.threads[tid].call < |s.calls| &&
      s.calls[s.threads[tid].call].outcome.Some?
    case Cancel(tid) => tid in s.threads && s.threads[tid].Waiting?
  }

  ghost function Move(s: State, tid: nat, t: Thread): State {
    s.(threads := s.threads[tid := t])
  }

  /** The first critical section: a fresh token is returned, an open call is joined, otherwise the caller leads. */
  ghost function EnterStep(cfg: Config, s: State, tid: nat, inst: int): State {
    if !cfg.hasMinter then
      Move(s, tid, Returned(inst, Outcome(Token("", 0), Some(NoMinter)), GaveUp))
    else if Usable(s.tokens, inst, s.clock, cfg.Skew()) then
      Move(s, tid, Returned(inst, Outcome(s.tokens[inst], None), FromCache))
    else if inst in s.inflight then
      Move(s, tid, Waiting(inst, s.inflight[inst]))
    else
      Move(s, tid, Minting(inst, |s.calls|)).(
        inflight := s.inflight[inst := |s.calls|],
        calls := s.calls + [Call(inst, tid, None)],
        history := s.history + [Started(inst, |s.calls|, s.clock)])
  }

  /** The second critical section: cache on success, fill the call, retire it and wake its waiters. */
  ghost function PublishStep(s: State, tid: nat): State
    requires tid in s.threads && s.threads[tid].Minted?
  {
    var Minted(inst, call, outcome) := s.threads[tid];
    Move(s, tid, Returned(inst, outcome, AsLeader(call))).(
      tokens := if outcome.error.None? then s.tokens[inst := outcome.token] else s.tokens,
      inflight := s.inflight - {inst},
      calls := if call < |s.calls| then s.calls[call := s.calls[call].(outcome := Some(outcome))] else s.calls,
      history := s.history + [Published(inst, call, outcome)])
  }

  ghost function Apply(cfg: Config, s: State, l: Label): State
    requires Enabled(cfg, s, l)
  {
    match l
    case Clock(to) => s.(clock := to)
    case Enter(tid, inst) => EnterStep(cfg, s, tid, inst)
    case MintReturns(tid, token, error) =>
      var Minting(inst, call) := s.threads[tid];
      Move(s, tid, Minted(inst, call, Judge(token, error, s.clock, cfg.Skew()))).(
        history := s.history + [MinterSaid(inst, token, error, s.clock)])
    case Publish(tid) => PublishStep(s, tid)
    case Deliver(tid) =>
      var Waiting(inst, call) := s.threads[tid];
      Move(s, tid, Returned(inst, s.calls[call].outcome.value, AsWaiter(call)))
    case Cancel(tid) =>
      Move(s, tid, Returned(s.threads[tid].inst, Outcome(Token("", 0), Some(Cancelled)), GaveUp))
  }

  ghost predicate Runs(cfg: Config, from: State, labels: seq<Label>, to: State)
    decreases |labels|
  {
    if labels == [] then from == to
    else Enabled(cfg, from, labels[0]) && Runs(cfg, Apply(cfg, from, labels[0]), labels[1..], to)
  }

  /** No step of the run sets the clock back. */
  ghost predicate ClockOnlyAdvances(cfg: Config, from: State, labels: seq<Label>)
    decreases |labels|
  {
    labels == [] ||
    (&& (labels[0].Clock? ==> labels[0].to >= from.clock)
     && Enabled(cfg, from, labels[0])
     && ClockOnlyAdvances(cfg, Apply(cfg, from, labels[0]), labels[1..]))
  }

  // ---- What every interleaving keeps ----

  ghost predicate Leads(t: Thread, inst: int, call: nat) {
    (t.Minting? || t.Minted?) && t.inst == inst && t.call == call
  }

  /**
   The minter was asked for this installation and answered with this non-empty token, which then outlived the skew.
   */
  ghost predicate MintedAt(cfg: Config, s: State, inst: int, token: Token, at: int) {
    MinterSaid(inst, token, None, at) in s.history && token.value != "" && token.expires > at + cfg.Skew()
  }

  ghost predicate MintedFor(cfg: Config, s: State, inst: int, token: Token) {
    exists at :: MintedAt(cfg, s, inst, token, at)
  }

  /**
   The minter was asked for this installation and failed with this error, or its token was empty or about to expire.
   */
  ghost predicate RefusedAt(cfg: Config, s: State, inst: int, token: Token, error: Error, said: Option<Error>,
                            at: int) {
    && MinterSaid(inst, token, said, at) in s.history
    && (said == Some(error) ||
      (said.None? && error == EmptyOrExpiring && (token.value == "" || token.expires <= at + cfg.Skew())))
  }

  ghost predicate RefusedFor(cfg: Config, s: State, inst: int, token: Token, error: Error) {
    exists said, at :: RefusedAt(cfg, s, inst, token, error, said, at)
  }

  ghost predicate SoundOutcome(cfg: Config, s: State, inst: int, outcome: Outcome) {
    if outcome.error.None? then MintedFor(cfg, s, inst, outcome.token)
    else RefusedFor(cfg, s, inst, outcome.token, outcome.error.value)
  }

  ghost predicate OpenCalls(s: State) {
    && (forall i :: i in s.inflight ==>
         && s.inflight[i] < |s.calls| && s.calls[s.inflight[i]].inst == i && s.calls[s.inflight[i]].outcome.None?)
    && (forall c :: 0 <= c < |s.calls| && s.calls[c].outcome.None? ==>
         && s.calls[c].inst in s.inflight && s.inflight[s.calls[c].inst] == c
         && s.calls[c].leader in s.threads && Leads(s.threads[s.calls[c].leader], s.calls[c].inst, c))
    && (forall c :: 0 <= c < |s.calls| && s.calls[c].outcome.Some? ==>
         && s.calls[c].leader in s.threads
         && s.threads[s.calls[c].leader] == Returned(s.calls[c].inst, s.calls[c].outcome.value, AsLeader(c)))
  }

  ghost predicate SoundThread(cfg: Config, s: State, tid: nat, t: Thread) {
    match t
    case Minting(inst, call) =>
      call < |s.calls| && s.calls[call] == Call(inst, tid, None)
    case Minted(inst, call, outcome) =>
      call < |s.calls| && s.calls[call] == Call(inst, tid, None) && SoundOutcome(cfg, s, inst, outcome)
    case Waiting(inst, call) =>
      call < |s.calls| && s.calls[call].inst == inst
    case Returned(inst, outcome, route) =>
      && (if route.GaveUp? then outcome.error.Some? else SoundOutcome(cfg, s, inst, outcome))
      && (route.AsLeader? || route.AsWaiter? ==>
           route.call < |s.calls| && s.calls[route.call].inst == inst && s.calls[route.call].outcome == Some(outcome))
      && (route.AsLeader? ==> s.calls[route.call].leader == tid)
  }

  ghost predicate SoundThreads(cfg: Config, s: State) {
    forall tid :: tid in s.threads ==> SoundThread(cfg, s, tid, s.threads[tid])
  }

  ghost predicate SoundCache(cfg: Config, s: State) {
    && (forall i :: i in s.tokens ==> MintedFor(cfg, s, i, s.tokens[i]))
    && (forall c :: 0 <= c < |s.calls| && s.calls[c].outcome.Some? ==>
      SoundOutcome(cfg, s, s.calls[c].inst, s.calls[c].outcome.value))
  }

  ghost predicate Safe(cfg: Config, s: State) {
    OpenCalls(s) && SoundThreads(cfg, s) && SoundCache(cfg, s)
  }

  lemma HistoryGrows(cfg: Config, s: State, t: State)
    requires s.history <= t.history
    ensures forall inst, outcome :: SoundOutcome(cfg, s, inst, outcome) ==> SoundOutcome(cfg, t, inst, outcome)
    ensures forall inst, token :: MintedFor(cfg, s, inst, token) ==> MintedFor(cfg, t, inst, token)
  {
    assert forall e :: e in s.history ==> e in t.history;
    forall inst, token | MintedFor(cfg, s, inst, token) ensures MintedFor(cfg, t, inst, token) {
      var at :| MintedAt(cfg, s, inst, token, at);
      assert MintedAt(cfg, t, inst, token, at);
    }
    forall inst, token, error | RefusedFor(cfg, s, inst, token, error) ensures RefusedFor(cfg, t, inst, token, error) {
      var e, at :| RefusedAt(cfg, s, inst, token, error, e, at);
      assert RefusedAt(cfg, t, inst, token, error, e, at);
    }
  }

  lemma SafeEnter(cfg: Config, s: State, tid: nat, inst: int)
    requires Safe(cfg, s) && tid !in s.threads
    ensures Safe(cfg, EnterStep(cfg, s, tid, inst))
  {
    EnterKeepsCalls(cfg, s, tid, inst);
    EnterKeepsThreads(cfg, s, tid, inst);
    EnterKeepsCache(cfg, s, tid, inst);
  }

  /** One more caller changes nothing for the calls. */
  lemma ArrivalKeepsCalls(s: State, tid: nat, t: Thread)
    requires OpenCalls(s) && tid !in s.threads
    ensures OpenCalls(Move(s, tid, t))
  {}

  lemma StartKeepsCalls(cfg: Config, s: State, tid: nat, inst: int)
    requires OpenCalls(s) && tid !in s.threads && inst !in s.inflight && cfg.hasMinter
    requires !Usable(s.tokens, inst, s.clock, cfg.Skew())
    ensures OpenCalls(EnterStep(cfg, s, tid, inst))
  {
    var t := EnterStep(cfg, s, tid, inst);
    assert forall c :: 0 <= c < |s.calls| ==> t.calls[c] == s.calls[c];
  }

  lemma EnterKeepsCalls(cfg: Config, s: State, tid: nat, inst: int)
    requires OpenCalls(s) && tid !in s.threads
    ensures OpenCalls(EnterStep(cfg, s, tid, inst))
  {
    if cfg.hasMinter && !Usable(s.tokens, inst, s.clock, cfg.Skew()) && inst !in s.inflight {
      StartKeepsCalls(cfg, s, tid, inst);
    } else {
      ArrivalKeepsCalls(s, tid, EnterStep(cfg, s, tid, inst).threads[tid]);
    }
  }

  /** A caller that does not move stays sound while calls and history only grow. */
  lemma StaysSound(cfg: Config, s: State, t: State, tid: nat, thread: Thread)
    requires SoundThread(cfg, s, tid, thread) && s.calls <= t.calls && s.history <= t.history
    ensures SoundThread(cfg, t, tid, thread)
  {
    HistoryGrows(cfg, s, t);
    assert forall c :: 0 <= c < |s.calls| ==> t.calls[c] == s.calls[c];
  }

  lemma EntrantIsSound(cfg: Config, s: State, tid: nat, inst: int)
    requires Safe(cfg, s) && tid !in s.threads
    ensures SoundThread(cfg, EnterStep(cfg, s, tid, inst), tid, EnterStep(cfg, s, tid, inst).threads[tid])
  {
    HistoryGrows(cfg, s, EnterStep(cfg, s, tid, inst));
  }

  lemma EnterKeepsThreads(cfg: Config, s: State, tid: nat, inst: int)
    requires Safe(cfg, s) && tid !in s.threads
    ensures SoundThreads(cfg, EnterStep(cfg, s, tid, inst))
  {
    var t := EnterStep(cfg, s, tid, inst);
    forall k | k in t.threads ensures SoundThread(cfg, t, k, t.threads[k]) {
      if k == tid { EntrantIsSound(cfg, s, tid, inst); } else { StaysSound(cfg, s, t, k, s.threads[k]); }
    }
  }

  lemma EnterKeepsCache(cfg: Config, s: State, tid: nat, inst: int)
    requires SoundCache(cfg, s)
    ensures SoundCache(cfg, EnterStep(cfg, s, tid, inst))
  {
    HistoryGrows(cfg, s, EnterStep(cfg, s, tid, inst));
  }

  lemma SafeMintReturns(cfg: Config, s: State, l: Label)
    requires Safe(cfg, s) && Enabled(cfg, s, l) && l.MintReturns?
    ensures Safe(cfg, Apply(cfg, s, l))
  {
    var t := Apply(cfg, s, l);
    HistoryGrows(cfg, s, t);
    assert SoundThread(cfg, s, l.tid, s.threads[l.tid]);
    assert SoundThread(cfg, t, l.tid, t.threads[l.tid]) by {
      JudgedIsSound(cfg, t, s.threads[l.tid].inst, l.token, l.error, s.clock);
    }
    forall k | k in t.threads && k != l.tid ensures SoundThread(cfg, t, k, t.threads[k]) {
      assert SoundThread(cfg, s, k, s.threads[k]);
    }
  }

  lemma JudgedIsSound(cfg: Config, t: State, inst: int, token: Token, error: Option<Error>, at: int)
    requires MinterSaid(inst, token, error, at) in t.history
    ensures SoundOutcome(cfg, t, inst, Judge(token, error, at, cfg.Skew()))
  {
    var outcome := Judge(token, error, at, cfg.Skew());
    if outcome.error.None? {
      assert MintedAt(cfg, t, inst, token, at);
    } else {
      assert RefusedAt(cfg, t, inst, token, outcome.error.value, error, at);
    }
  }

  lemma SafePublish(cfg: Config, s: State, tid: nat)
    requires Safe(cfg, s) && tid in s.threads && s.threads[tid].Minted?
    ensures Safe(cfg, PublishStep(s, tid))
  {
    assert SoundThread(cfg, s, tid, s.threads[tid]);
    PublishKeepsCalls(cfg, s, tid);
    PublishKeepsThreads(cfg, s, tid);
    HistoryGrows(cfg, s, PublishStep(s, tid));
  }

  lemma PublishKeepsCalls(cfg: Config, s: State, tid: nat)
    requires OpenCalls(s) && tid in s.threads && s.threads[tid].Minted? && SoundThread(cfg, s, tid, s.threads[tid])
    ensures OpenCalls(PublishStep(s, tid))
  {}

  lemma PublishKeepsThreads(cfg: Config, s: State, tid: nat)
    requires Safe(cfg, s) && tid in s.threads && s.threads[tid].Minted?
    ensures SoundThreads(cfg, PublishStep(s, tid))
  {
    var t := PublishStep(s, tid);
    HistoryGrows(cfg, s, t);
    assert SoundThread(cfg, s, tid, s.threads[tid]);
    forall k | k in t.threads && k != tid ensures SoundThread(cfg, t, k, t.threads[k]) {
      assert SoundThread(cfg, s, k, s.threads[k]);
    }
  }

  lemma QuietKeepsCalls(cfg: Config, s: State, l: Label)
    requires OpenCalls(s) && Enabled(cfg, s, l) && (l.Clock? || l.Deliver? || l.Cancel?)
    ensures OpenCalls(Apply(cfg, s, l))
  {}

  lemma QuietIsSound(cfg: Config, s: State, l: Label)
    requires Safe(cfg, s) && Enabled(cfg, s, l) && (l.Deliver? || l.Cancel?)
    ensures SoundThread(cfg, Apply(cfg, s, l), l.tid, Apply(cfg, s, l).threads[l.tid])
  {
    assert SoundThread(cfg, s, l.tid, s.threads[l.tid]);
    HistoryGrows(cfg, s, Apply(cfg, s, l));
  }

  /** Clock, Deliver and Cancel touch at most one thread. */
  lemma SafeQuiet(cfg: Config, s: State, l: Label)
    requires Safe(cfg, s) && Enabled(cfg, s, l) && (l.Clock? || l.Deliver? || l.Cancel?)
    ensures Safe(cfg, Apply(cfg, s, l))
  {
    var t := Apply(cfg, s, l);
    QuietKeepsCalls(cfg, s, l);
    HistoryGrows(cfg, s, t);
    forall k | k in t.threads ensures SoundThread(cfg, t, k, t.threads[k]) {
      if !l.Clock? && k == l.tid { QuietIsSound(cfg, s, l); } else { StaysSound(cfg, s, t, k, s.threads[k]); }
    }
  }

  lemma SafeStep(cfg: Config, s: State, l: Label)
    requires Safe(cfg, s) && Enabled(cfg, s, l)
    ensures Safe(cfg, Apply(cfg, s, l))
  {
    match l
    case Enter(tid, inst) => SafeEnter(cfg, s, tid, inst);
    case MintReturns(_, _, _) => SafeMintReturns(cfg, s, l);
    case Publish(tid) => SafePublish(cfg, s, tid);
    case _ => SafeQuiet(cfg, s, l);
  }

  lemma {:induction false} SafeRun(cfg: Config, from: State, labels: seq<Label>, to: State)
    requires Safe(cfg, from) && Runs(cfg, from, labels, to)
    ensures Safe(cfg, to)
    decreases |labels|
  {
    if labels == [] {
    } else {
      SafeStep(cfg, from, labels[0]);
      SafeRun(cfg, Apply(cfg, from, labels[0]), labels[1..], to);
    }
  }

  /** At most one mint per installation is in flight. */
  lemma AtMostOneMint(cfg: Config, s: State, a: nat, b: nat)
    requires Safe(cfg, s) && a in s.threads && b in s.threads
    requires s.threads[a].Minting? || s.threads[a].Minted?
    requires s.threads[b].Minting? || s.threads[b].Minted?
    requires s.threads[a].inst == s.threads[b].inst
    ensures a == b
  {
    assert SoundThread(cfg, s, a, s.threads[a]) && SoundThread(cfg, s, b, s.threads[b]);
    var c, d := s.threads[a].call, s.threads[b].call;
    assert s.inflight[s.calls[c].inst] == c && s.inflight[s.calls[d].inst] == d;
  }

  /** A waiter is never stranded: its call is filled, or its leader is still on the way. */
  lemma WaiterNeverStranded(cfg: Config, s: State, w: nat)
    requires Safe(cfg, s) && w in s.threads && s.threads[w].Waiting?
    ensures var call := s.calls[s.threads[w].call];
      call.outcome.Some? ||
        (call.leader in s.threads && Leads(s.threads[call.leader], s.threads[w].inst, s.threads[w].call))
  {
    assert SoundThread(cfg, s, w, s.threads[w]);
  }

  ghost predicate ReturnedAs(s: State, tid: nat, inst: int, outcome: Outcome, route: Route)
    requires tid in s.threads
  {
    s.threads[tid] == Returned(inst, outcome, route)
  }

  /** A waiter that was not cancelled got exactly what its leader returned, for the installation it asked for. */
  lemma WaiterGetsLeadersResult(cfg: Config, s: State, w: nat)
    requires Safe(cfg, s) && w in s.threads && s.threads[w].Returned? && s.threads[w].route.AsWaiter?
    ensures exists leader ::
      leader in s.threads &&
      ReturnedAs(s, leader, s.threads[w].inst, s.threads[w].outcome, AsLeader(s.threads[w].route.call))
  {
    assert SoundThread(cfg, s, w, s.threads[w]);
    var leader := s.calls[s.threads[w].route.call].leader;
    assert leader in s.threads;
  }

  /** A successful result, from whatever route, is a non-empty token the minter issued for that very installation. */
  lemma {:induction false} ResultsAreMintedForTheirInstallation(cfg: Config, labels: seq<Label>, s: State, tid: nat)
    requires Runs(cfg, Initial, labels, s) && tid in s.threads && s.threads[tid].Returned?
    requires s.threads[tid].outcome.error.None?
    ensures MintedFor(cfg, s, s.threads[tid].inst, s.threads[tid].outcome.token)
  {
    SafeRun(cfg, Initial, labels, s);
    assert SoundThread(cfg, s, tid, s.threads[tid]);
  }

  /**
   While some call of Token is unfinished, a step other than the clock, a new caller or a cancellation is possible.
   */
  lemma NeverStuck(cfg: Config, s: State, tid: nat)
    requires Safe(cfg, s) && tid in s.threads && !s.threads[tid].Returned?
    ensures exists l :: Enabled(cfg, s, l) && (l.MintReturns? || l.Publish? || l.Deliver?)
  {
    assert SoundThread(cfg, s, tid, s.threads[tid]);
    match s.threads[tid]
    case Minting(_, _) => assert Enabled(cfg, s, MintReturns(tid, Token("", 0), None));
    case Minted(_, _, _) => assert Enabled(cfg, s, Publish(tid));
    case Waiting(inst, c) =>
      var leader := s.calls[c].leader;
      if s.calls[c].outcome.Some? {
        assert Enabled(cfg, s, Deliver(tid));
      } else if s.threads[leader].Minting? {
        assert Enabled(cfg, s, MintReturns(leader, Token("", 0), None));
      } else {
        assert Enabled(cfg, s, Publish(leader));
      }
  }

  // ---- Every caller returns ----

  /** The calls of Token that have not returned, and those of them that wait for the minter. */
  ghost function Unfinished(s: State): set<nat> { set tid | tid in s.threads && !s.threads[tid].Returned? }

  ghost function Unminted(s: State): set<nat> { set tid | tid in s.threads && s.threads[tid].Minting? }

  /** How many steps the callers have before them. */
  ghost function Work(s: State): nat { |Unfinished(s)| + |Unminted(s)| }

  /** A step that carries a caller on: its mint returns, it publishes, it is handed its result, or it gives up. */
  predicate CarriesOn(l: Label) { l.MintReturns? || l.Publish? || l.Deliver? || l.Cancel? }

  /** One caller goes from one set of states to another. */
  lemma WorkOf(s: State, t: State, tid: nat)
    requires tid in s.threads && !s.threads[tid].Returned? && t.threads.Keys == s.threads.Keys
    requires forall k :: k in s.threads && k != tid ==> t.threads[k] == s.threads[k]
    ensures Unfinished(t) == if t.threads[tid].Returned? then Unfinished(s) - {tid} else Unfinished(s)
    ensures !t.threads[tid].Minting? ==> Unminted(t) == Unminted(s) - {tid}
  {}

  lemma WorkStep(cfg: Config, s: State, l: Label)
    requires Enabled(cfg, s, l) && !l.Enter?
    ensures Work(Apply(cfg, s, l)) == Work(s) - if CarriesOn(l) then 1 else 0
  {
    var t := Apply(cfg, s, l);
    if l.Clock? {
      assert Unfinished(t) == Unfinished(s) && Unminted(t) == Unminted(s);
    } else {
      WorkOf(s, t, l.tid);
      assert l.tid in Unfinished(s);
    }
  }

  function Carried(labels: seq<Label>): nat {
    if labels == [] then 0 else Carried(labels[1..]) + if CarriesOn(labels[0]) then 1 else 0
  }

  ghost predicate NobodyEnters(labels: seq<Label>) { forall i :: 0 <= i < |labels| ==> !labels[i].Enter? }

  /** While nobody enters, each such step is one step less: there are no more of them than work at the start. */
  lemma {:induction false} WorkRunsOut(cfg: Config, from: State, labels: seq<Label>, to: State)
    requires Runs(cfg, from, labels, to) && NobodyEnters(labels)
    ensures Carried(labels) + Work(to) == Work(from)
    decreases |labels|
  {
    if labels == [] {
    } else {
      WorkStep(cfg, from, labels[0]);
      WorkRunsOut(cfg, Apply(cfg, from, labels[0]), labels[1..], to);
    }
  }

  ghost predicate AllReturned(s: State) { forall tid :: tid in s.threads ==> s.threads[tid].Returned? }

  /** Somebody can be carried on without being cancelled. */
  ghost predicate CanGoOn(cfg: Config, s: State) {
    exists l :: Enabled(cfg, s, l) && (l.MintReturns? || l.Publish? || l.Deliver?)
  }

  /**
   Every caller returns: while nobody enters, at most Work(from) steps carry callers on, and as long as one has not
   returned such a step is possible. A run that has taken as many steps as it can leaves nobody behind.
   */
  lemma {:induction false} EveryCallerReturns(cfg: Config, from: State, labels: seq<Label>, to: State)
    requires Safe(cfg, from) && Runs(cfg, from, labels, to) && NobodyEnters(labels)
    ensures Carried(labels) <= Work(from)
    ensures AllReturned(to) <==> !CanGoOn(cfg, to)
    ensures Carried(labels) == Work(from) ==> AllReturned(to)
  {
    WorkRunsOut(cfg, from, labels, to);
    SafeRun(cfg, from, labels, to);
    if !AllReturned(to) {
      var tid :| tid in to.threads && !to.threads[tid].Returned?;
      NeverStuck(cfg, to, tid);
      assert tid in Unfinished(to);
    }
  }

  // ---- No mint while a fresh token is cached ----

  ghost predicate Accepted(e: Event) {
    e.Published? && e.outcome.error.None?
  }

  /** Every token ever accepted is stale by now, or it is the cached one and nobody is minting. */
  ghost predicate StaleOrCached(cfg: Config, s: State) {
    forall e :: e in s.history && Accepted(e) ==>
      s.clock + cfg.Skew() >= e.outcome.token.expires ||
      (e.inst !in s.inflight && e.inst in s.tokens && s.tokens[e.inst] == e.outcome.token &&
        e.outcome.token.value != "")
  }

  /** No mint has started for an installation while a token accepted for it earlier was still fresh beyond the skew. */
  ghost predicate MintsOnlyWhenStale(cfg: Config, s: State) {
    forall i, j :: 0 <= i < j < |s.history| && Accepted(s.history[i]) && s.history[j].Started? ==>
      s.history[j].inst == s.history[i].inst ==> s.history[j].at + cfg.Skew() >= s.history[i].outcome.token.expires
  }

  lemma StaleOrCachedStep(cfg: Config, s: State, l: Label)
    requires Safe(cfg, s) && Enabled(cfg, s, l) && (l.Clock? ==> l.to >= s.clock)
    requires StaleOrCached(cfg, s) && MintsOnlyWhenStale(cfg, s)
    ensures StaleOrCached(cfg, Apply(cfg, s, l)) && MintsOnlyWhenStale(cfg, Apply(cfg, s, l))
  {
    match l
    case Enter(tid, inst) => StaleOrCachedEnter(cfg, s, tid, inst);
    case Publish(tid) => StaleOrCachedPublish(cfg, s, tid);
    case _ => QuietHistory(cfg, s, l);
  }

  lemma QuietHistory(cfg: Config, s: State, l: Label)
    requires Enabled(cfg, s, l) && (l.Clock? ==> l.to >= s.clock) && !l.Enter? && !l.Publish?
    requires StaleOrCached(cfg, s) && MintsOnlyWhenStale(cfg, s)
    ensures StaleOrCached(cfg, Apply(cfg, s, l)) && MintsOnlyWhenStale(cfg, Apply(cfg, s, l))
  {}

  lemma StaleOrCachedEnter(cfg: Config, s: State, tid: nat, inst: int)
    requires tid !in s.threads && StaleOrCached(cfg, s) && MintsOnlyWhenStale(cfg, s)
    ensures StaleOrCached(cfg, EnterStep(cfg, s, tid, inst)) && MintsOnlyWhenStale(cfg, EnterStep(cfg, s, tid, inst))
  {
    assert forall i :: 0 <= i < |s.history| ==> s.history[i] in s.history;
  }

  lemma StaleOrCachedPublish(cfg: Config, s: State, tid: nat)
    requires Safe(cfg, s) && tid in s.threads && s.threads[tid].Minted? && StaleOrCached(cfg, s)
    requires MintsOnlyWhenStale(cfg, s)
    ensures StaleOrCached(cfg, PublishStep(s, tid)) && MintsOnlyWhenStale(cfg, PublishStep(s, tid))
  {
    assert SoundThread(cfg, s, tid, s.threads[tid]);
  }

  lemma {:induction false} NoMintWhileFresh(cfg: Config, from: State, labels: seq<Label>, to: State)
    requires Safe(cfg, from) && StaleOrCached(cfg, from) && MintsOnlyWhenStale(cfg, from)
    requires Runs(cfg, from, labels, to) && ClockOnlyAdvances(cfg, from, labels)
    ensures Safe(cfg, to) && StaleOrCached(cfg, to) && MintsOnlyWhenStale(cfg, to)
    decreases |labels|
  {
    if labels == [] {
    } else {
      SafeStep(cfg, from, labels[0]);
      StaleOrCachedStep(cfg, from, labels[0]);
      NoMintWhileFresh(cfg, Apply(cfg, from, labels[0]), labels[1..], to);
    }
  }

  /** The guarantee for whole runs from the empty cache. */
  lemma {:induction false} EveryRun(cfg: Config, labels: seq<Label>, s: State)
    requires Runs(cfg, Initial, labels, s)
    ensures Safe(cfg, s)
    ensures ClockOnlyAdvances(cfg, Initial, labels) ==> MintsOnlyWhenStale(cfg, s)
  {
    SafeRun(cfg, Initial, labels, s);
    if ClockOnlyAdvances(cfg, Initial, labels) { NoMintWhileFresh(cfg, Initial, labels, s); }
  }

  // ---- The object itself: its two critical sections take exactly the steps of the protocol ----

  class MintCall {
    var done: bool
    var outcome: Outcome

    constructor ()
      ensures !done
    {
      done := false;
      outcome := Outcome(Token("", 0), None);
    }
  }

  /** What a caller does after the first critical section. */
  datatype Entry = Refuse(error: Error) | Hit(token: Token) | Join(call: MintCall) | Lead(call: MintCall)

  class CachedTokenSource {
    const cfg: Config
    var tokens: map<int, Token>
    var inflight: map<int, MintCall>
    ghost var model: State
    ghost var issued: seq<MintCall>  // the calls, under the numbers the protocol gives them

    ghost predicate Valid()
      reads this, issued
    {
      && tokens == model.tokens && |issued| == |model.calls|
      && inflight.Keys == model.inflight.Keys
      && (forall i :: i in inflight ==> model.inflight[i] < |issued| && issued[model.inflight[i]] == inflight[i])
      && (forall c, d :: 0 <= c < d < |issued| ==> issued[c] != issued[d])
      && (forall c :: 0 <= c < |issued| ==> Mirrors(issued[c].done, issued[c].outcome, model.calls[c].outcome))
    }

    constructor (cfg: Config)
      ensures Valid() && this.cfg == cfg && model == Initial
    {
      this.cfg := cfg;
      tokens, inflight, model, issued := map[], map[], Initial, [];
    }

    // Every method below takes the model through steps of the protocol, so SafeStep makes the model Safe throughout.

    /** Lines 64-83: one step of the protocol, at the time `now` the clock shows. */
    method Enter(ghost tid: nat, inst: int, now: int) returns (e: Entry)
      requires Valid() && tid !in model.threads
      modifies this
      ensures Valid() && model == EnterStep(cfg, old(model).(clock := now), tid, inst)
      ensures tid in model.threads && Describes(e, model.threads[tid], inst, issued)
      ensures old(issued) <= issued && fresh(set c | c in issued[|old(issued)|..])
    {
      if cfg.hasMinter && !(inst in tokens && tokens[inst].value != "" && now + cfg.Skew() < tokens[inst].expires) &&
        inst !in inflight {
        var call := StartCall(tid, inst, now);
        return Lead(call);
      }
      model := EnterStep(cfg, model.(clock := now), tid, inst);
      if !cfg.hasMinter {
        e := Refuse(NoMinter);
      } else if inst in tokens && tokens[inst].value != "" && now + cfg.Skew() < tokens[inst].expires {
        e := Hit(tokens[inst]);
      } else {
        e := Join(inflight[inst]);
      }
    }

    /** Lines 80-82: a new call in flight. */
    method StartCall(ghost tid: nat, inst: int, ghost now: int) returns (call: MintCall)
      requires Valid() && tid !in model.threads
      requires cfg.hasMinter && inst !in inflight
      requires !(inst in tokens && tokens[inst].value != "" && now + cfg.Skew() < tokens[inst].expires)
      modifies this
      ensures Valid() && model == EnterStep(cfg, old(model).(clock := now), tid, inst)
      ensures tid in model.threads && Describes(Lead(call), model.threads[tid], inst, issued)
      ensures issued == old(issued) + [call] && fresh(call)
    {
      model := EnterStep(cfg, model.(clock := now), tid, inst);
      call := new MintCall();
      inflight := inflight[inst := call];
      issued := issued + [call];
    }

    /** Lines 85-88, outside the lock: the minter has answered and the clock is read again. */
    method Validate(ghost tid: nat, inst: int, token: Token, error: Option<Error>, now: int) returns (outcome: Outcome)
      requires Valid() && tid in model.threads && model.threads[tid].Minting? && model.threads[tid].inst == inst
      modifies this`model
      ensures Valid() && model == Apply(cfg, old(model).(clock := now), MintReturns(tid, token, error))
      ensures model.threads[tid] == Minted(inst, old(model).threads[tid].call, outcome)
    {
      model := Apply(cfg, model.(clock := now), MintReturns(tid, token, error));
      outcome := Outcome(token, error);
      if error.None? && (token.value == "" || !(token.expires > now + cfg.Skew())) {
        outcome := Outcome(token, Some(EmptyOrExpiring));
      }
    }

    /** Lines 90-100: one step of the protocol. */
    method Publish(ghost tid: nat, inst: int, call: MintCall, outcome: Outcome)
      requires Valid() && tid in model.threads && model.threads[tid].Minted?
      requires model.threads[tid].inst == inst && model.threads[tid].outcome == outcome
      requires model.threads[tid].call < |issued| && issued[model.threads[tid].call] == call
      modifies this, call
      ensures Valid() && issued == old(issued) && model == PublishStep(old(model), tid)
      ensures call.done && call.outcome == outcome
    {
      if outcome.error.None? {
        tokens := tokens[inst := outcome.token];
      }
      call.outcome := outcome;
      inflight := inflight - {inst};
      call.done := true;
      model := PublishStep(model, tid);
    }
  }

  ghost predicate Mirrors(done: bool, outcome: Outcome, model: Option<Outcome>) {
    model == if done then Some(outcome) else None
  }

  ghost predicate Describes(e: Entry, t: Thread, inst: int, issued: seq<MintCall>) {
    match e
    case Refuse(error) => t == Returned(inst, Outcome(Token("", 0), Some(error)), GaveUp)
    case Hit(token) => t == Returned(inst, Outcome(token, None), FromCache)
    case Join(call) => t.Waiting? && t.inst == inst && t.call < |issued| && issued[t.call] == call
    case Lead(call) => t.Minting? && t.inst == inst && t.call < |issued| && issued[t.call] == call
  }
}
