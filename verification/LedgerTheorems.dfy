/** What holds over every run of grants, reservations, settlements, refunds and replays. */
module LedgerTheorems {
  import opened Ledger

  // ---- Runs ----

  /** Settlements and refunds name a reservation that stands in the ledger. */
  predicate FromLedger(log: Log, op: Op) {
    (op.SettleOp? || op.RefundOp?) && ValidOp(op) ==> op.reservation in log
  }

  datatype Run = Run(ops: seq<Op>, logs: seq<Log>, answers: seq<Answer>) {
    /** The i-th operation leads from the i-th log to the next. */
    ghost predicate StepAt(i: nat)
      requires i < |ops| == |answers| && |logs| == |ops| + 1
    {
      Performs(ops[i], logs[i], logs[i + 1], answers[i]) && FromLedger(logs[i], ops[i])
    }

    ghost predicate Valid() {
      && |answers| == |ops| && |logs| == |ops| + 1 && logs[0] == []
      && forall i: nat :: i < |ops| ==> StepAt(i)
    }

    function Log(): Log
      requires |logs| > 0
    {
      logs[|logs| - 1]
    }

    ghost function Before(): (r: Run)
      requires Valid() && ops != []
      ensures r.Valid() && r.Log() == logs[|ops| - 1]
    {
      var n := |ops| - 1;
      var r := Run(ops[..n], logs[..n + 1], answers[..n]);
      forall i: nat | i < n ensures r.StepAt(i) { assert StepAt(i); }
      r
    }
  }

  // ---- Accounts ----

  predicate Closes(t: Transaction, installation: int, review: string) {
    Terminal(t) && t.installation == installation && t.review == review
  }

  predicate Closed(log: Log, installation: int, review: string) {
    exists k :: 0 <= k < |log| && Closes(log[k], installation, review)
  }

  predicate OpenReservation(t: Transaction, log: Log, installation: int) {
    t.kind.Reserve? && t.installation == installation && !Closed(log, installation, t.review)
  }

  /** The credits held by those entries that are reservations neither settled nor refunded in the log. */
  function Held(entries: Log, log: Log, installation: int): int {
    if entries == [] then 0
    else
      var last := entries[|entries| - 1];
      Held(entries[..|entries| - 1], log, installation) +
        if OpenReservation(last, log, installation) then -last.credits else 0
  }

  /** What an operation grants to the installation, and what it settles as actual usage. */
  function Granted(op: Op, a: Answer, installation: int): int {
    if op.GrantOp? && op.installation == installation && a.Created? then op.credits else 0
  }

  function Used(op: Op, a: Answer, installation: int): int {
    if op.SettleOp? && op.reservation.installation == installation && a.Created? then op.actual else 0
  }

  ghost function TotalGranted(r: Run, installation: int): int
    requires r.Valid()
    decreases |r.ops|
  {
    if r.ops == [] then 0
    else TotalGranted(r.Before(), installation) + Granted(r.ops[|r.ops| - 1], r.answers[|r.ops| - 1], installation)
  }

  ghost function TotalUsed(r: Run, installation: int): int
    requires r.Valid()
    decreases |r.ops|
  {
    if r.ops == [] then 0
    else TotalUsed(r.Before(), installation) + Used(r.ops[|r.ops| - 1], r.answers[|r.ops| - 1], installation)
  }

  // ---- What every log keeps ----

  predicate ReserveOf(r: Transaction, t: Transaction) { r.kind.Reserve? && SameReview(r, t) }

  predicate HasReserve(log: Log, t: Transaction) { exists k :: 0 <= k < |log| && ReserveOf(log[k], t) }

  ghost predicate NoClashes(log: Log) { forall i, j :: 0 <= i < j < |log| ==> !Clash(log[i], log[j]) }

  ghost predicate TerminalsReserved(log: Log) {
    forall i :: 0 <= i < |log| && Terminal(log[i]) ==> HasReserve(log, log[i])
  }

  ghost predicate WellFormed(log: Log) { NoClashes(log) && TerminalsReserved(log) }

  lemma HasReserveLater(log: Log, t: Transaction, s: Transaction)
    requires HasReserve(log, s)
    ensures HasReserve(log + [t], s)
  {
    var k :| 0 <= k < |log| && ReserveOf(log[k], s);
    assert (log + [t])[k] == log[k];
  }

  lemma TerminalsStayReserved(log: Log, t: Transaction)
    requires TerminalsReserved(log) && (Terminal(t) ==> HasReserve(log, t))
    ensures TerminalsReserved(log + [t])
  {
    forall i | 0 <= i < |log + [t]| && Terminal((log + [t])[i]) ensures HasReserve(log + [t], (log + [t])[i]) {
      HasReserveLater(log, t, (log + [t])[i]);
    }
  }

  lemma NoClashesAppend(log: Log, t: Transaction)
    requires NoClashes(log) && !Clashes(log, t)
    ensures NoClashes(log + [t])
  {}

  /** What one operation does to the log: nothing, or it adds its entry. */
  lemma {:induction false} PerformsMeans(op: Op, before: Log, after: Log, a: Answer)
    requires Performs(op, before, after, a)
    ensures a.Created? ==>
              && ValidOp(op) && after == before + [EntryOf(op)] && a.entry == EntryOf(op)
              && Checked(EntryOf(op)) && !Clashes(before, EntryOf(op))
              && (op.ReserveOp? ==> Balance(before, op.installation) >= op.credits)
    ensures !a.Created? ==> after == before
  {}

  lemma StepKeepsWellFormed(op: Op, before: Log, after: Log, a: Answer)
    requires WellFormed(before) && Performs(op, before, after, a) && FromLedger(before, op)
    ensures WellFormed(after)
  {
    PerformsMeans(op, before, after, a);
    if a.Created? {
      var t := EntryOf(op);
      if Terminal(t) {
        var k :| 0 <= k < |before| && before[k] == op.reservation;
        assert ReserveOf(before[k], t);
      }
      TerminalsStayReserved(before, t);
      NoClashesAppend(before, t);
    }
  }

  lemma {:induction false} EveryLogIsWellFormed(r: Run)
    requires r.Valid()
    ensures WellFormed(r.Log())
    decreases |r.ops|
  {
    if r.ops == [] {
    } else {
      var n := |r.ops| - 1;
      EveryLogIsWellFormed(r.Before());
      assert r.StepAt(n);
      StepKeepsWellFormed(r.ops[n], r.logs[n], r.logs[n + 1], r.answers[n]);
    }
  }

  /** In no run is a review both settled and refunded, or either of them twice. */
  lemma SettledOrRefundedOnce(r: Run, i: nat, j: nat)
    requires r.Valid() && i < j < |r.Log()|
    ensures !(Terminal(r.Log()[i]) && Terminal(r.Log()[j]) && SameReview(r.Log()[i], r.Log()[j]))
  {
    EveryLogIsWellFormed(r);
    assert !Clash(r.Log()[i], r.Log()[j]);
  }

  // ---- Conservation ----

  lemma {:induction false} BalanceAppend(log: Log, t: Transaction, installation: int)
    ensures Balance(log + [t], installation) ==
      Balance(log, installation) + if t.installation == installation then t.credits else 0
  {
    assert (log + [t])[..|log|] == log;
  }

  lemma ClosedAppend(log: Log, t: Transaction, installation: int, review: string)
    ensures Closed(log + [t], installation, review) <==>
      Closed(log, installation, review) || Closes(t, installation, review)
  {
    if Closed(log, installation, review) {
      var k :| 0 <= k < |log| && Closes(log[k], installation, review);
      assert Closes((log + [t])[k], installation, review);
    }
    assert (log + [t])[|log|] == t;
  }

  lemma {:induction false} HeldAppend(entries: Log, t: Transaction, log: Log, installation: int)
    ensures Held(entries + [t], log, installation) == Held(entries, log, installation) +
      if OpenReservation(t, log, installation) then -t.credits else 0
  {
    assert (entries + [t])[..|entries|] == entries;
  }

  /** An entry that closes none of the reservations leaves what they hold as it is. */
  lemma {:induction false} HeldUnclosed(entries: Log, log: Log, t: Transaction, installation: int)
    requires forall k :: 0 <= k < |entries| && entries[k].kind.Reserve? && entries[k].installation == installation ==>
                           !Closes(t, installation, entries[k].review)
    ensures Held(entries, log + [t], installation) == Held(entries, log, installation)
    decreases |entries|
  {
    if entries == [] {
    } else {
      HeldUnclosed(entries[..|entries| - 1], log, t, installation);
      ClosedAppend(log, t, installation, entries[|entries| - 1].review);
    }
  }

  /** Closing the one reservation of a review releases exactly what it held. */
  lemma {:induction false} HeldReleased(entries: Log, log: Log, t: Transaction, k: nat)
    requires NoClashes(entries) && k < |entries| && ReserveOf(entries[k], t)
    requires Terminal(t) && !Closed(log, t.installation, t.review)
    ensures Held(entries, log + [t], t.installation) == Held(entries, log, t.installation) + entries[k].credits
    decreases |entries|
  {
    var n := |entries| - 1;
    ClosedAppend(log, t, t.installation, entries[n].review);
    if k == n {
      forall j | 0 <= j < n && entries[j].kind.Reserve? && entries[j].installation == t.installation
        ensures !Closes(t, t.installation, entries[j].review)
      {
        assert !Clash(entries[j], entries[n]);
      }
      HeldUnclosed(entries[..n], log, t, t.installation);
    } else {
      assert !Clash(entries[k], entries[n]);
      HeldReleased(entries[..n], log, t, k);
    }
  }

  ghost predicate Balanced(log: Log, installation: int, granted: int, used: int) {
    Balance(log, installation) == granted - Held(log, log, installation) - used
  }

  lemma {:induction false} EntryOpensNothing(log: Log, t: Transaction, installation: int)
    requires WellFormed(log) && (t.kind.Grant? || t.installation != installation)
    ensures Held(log + [t], log + [t], installation) == Held(log, log, installation)
  {
    HeldUnclosed(log, log, t, installation);
    HeldAppend(log, t, log + [t], installation);
  }

  lemma {:induction false} ReservationHolds(log: Log, t: Transaction)
    requires WellFormed(log) && t.kind.Reserve? && !Clashes(log, t)
    ensures Held(log + [t], log + [t], t.installation) == Held(log, log, t.installation) - t.credits
  {
    HeldUnclosed(log, log, t, t.installation);
    HeldAppend(log, t, log + [t], t.installation);
    ClosedAppend(log, t, t.installation, t.review);
    NoTerminalBeforeReserve(log, t);
  }

  lemma NoTerminalBeforeReserve(log: Log, t: Transaction)
    requires WellFormed(log) && t.kind.Reserve? && !Clashes(log, t)
    ensures !Closed(log, t.installation, t.review)
  {
    forall k | 0 <= k < |log| && SameReview(log[k], t) ensures !Terminal(log[k]) {
      forall j | 0 <= j < |log| ensures !ReserveOf(log[j], log[k]) { assert !Clash(log[j], t); }
      assert !HasReserve(log, log[k]);
    }
  }

  lemma {:induction false} TerminalReleases(log: Log, t: Transaction, reservation: Transaction)
    requires WellFormed(log) && Terminal(t) && !Clashes(log, t) && reservation in log && ReserveOf(reservation, t)
    ensures Held(log + [t], log + [t], t.installation) == Held(log, log, t.installation) + reservation.credits
  {
    var k :| 0 <= k < |log| && log[k] == reservation;
    forall j | 0 <= j < |log| ensures !Closes(log[j], t.installation, t.review) { assert !Clash(log[j], t); }
    HeldReleased(log, log, t, k);
    HeldAppend(log, t, log + [t], t.installation);
  }

  lemma StepKeepsBalanced(op: Op, before: Log, after: Log, a: Answer, installation: int, granted: int, used: int)
    requires WellFormed(before) && Performs(op, before, after, a) && FromLedger(before, op)
    requires Balanced(before, installation, granted, used)
    ensures Balanced(after, installation, granted + Granted(op, a, installation), used + Used(op, a, installation))
  {
    PerformsMeans(op, before, after, a);
    if a.Created? {
      var t := EntryOf(op);
      BalanceAppend(before, t, installation);
      if t.installation != installation || op.GrantOp? {
        EntryOpensNothing(before, t, installation);
      } else if op.ReserveOp? {
        ReservationHolds(before, t);
      } else {
        TerminalReleases(before, t, op.reservation);
      }
    }
  }

  /** The available balance is what was granted, less open reservations, less settled actual usage. */
  lemma {:induction false} CreditsAreConserved(r: Run, installation: int)
    requires r.Valid()
    ensures Balance(r.Log(), installation) ==
            TotalGranted(r, installation) - Held(r.Log(), r.Log(), installation) - TotalUsed(r, installation)
    decreases |r.ops|
  {
    if r.ops == [] {
    } else {
      var n := |r.ops| - 1;
      var p := r.Before();
      CreditsAreConserved(p, installation);
      EveryLogIsWellFormed(p);
      assert r.StepAt(n);
      StepKeepsBalanced(r.ops[n], r.logs[n], r.logs[n + 1], r.answers[n], installation, TotalGranted(p, installation),
                        TotalUsed(p, installation));
    }
  }

  // ---- Replays ----

  lemma {:induction false} LogOnlyGrows(r: Run, i: nat, j: nat)
    requires r.Valid() && i <= j < |r.logs|
    ensures r.logs[i] <= r.logs[j]
    decreases j
  {
    if i == j {
    } else {
      LogOnlyGrows(r, i, j - 1);
      assert r.StepAt(j - 1);
      PerformsMeans(r.ops[j - 1], r.logs[j - 1], r.logs[j], r.answers[j - 1]);
    }
  }

  lemma {:induction false} LogAt(r: Run, j: nat)
    requires r.Valid() && j < |r.logs|
    ensures WellFormed(r.logs[j])
    decreases |r.ops|
  {
    if j == |r.ops| {
      EveryLogIsWellFormed(r);
    } else {
      LogAt(r.Before(), j);
    }
  }

  /**
   Once an operation has created its entry, any later operation with the same key changes nothing and is
   answered with that entry.
   */
  lemma RepeatedKeyChangesNothing(r: Run, i: nat, j: nat)
    requires r.Valid() && i < j < |r.ops| && r.answers[i].Created?
    requires ValidOp(r.ops[j]) && SameKey(EntryOf(r.ops[i]), EntryOf(r.ops[j]))
    ensures r.logs[j + 1] == r.logs[j] && r.answers[j] == Replayed(EntryOf(r.ops[i]))
  {
    var t, u := EntryOf(r.ops[i]), EntryOf(r.ops[j]);
    assert r.StepAt(i) && r.StepAt(j);
    PerformsMeans(r.ops[i], r.logs[i], r.logs[i + 1], r.answers[i]);
    LogOnlyGrows(r, i + 1, j);
    LogAt(r, j);
    OneEntryPerKey(r.logs[j], |r.logs[i]|, u);
  }

  lemma OneEntryPerKey(log: Log, k: nat, u: Transaction)
    requires NoClashes(log) && k < |log| && SameKey(log[k], u)
    ensures KeyUsed(log, u) && forall t :: t in log && SameKey(t, u) ==> t == log[k]
  {
    forall j | 0 <= j < |log| && j != k ensures !SameKey(log[j], u) {
      if j < k {
        assert !Clash(log[j], log[k]);
      } else {
        assert !Clash(log[k], log[j]);
      }
    }
  }

  // ---- No overdraft ----

  /** No settlement uses more than it reserved. */
  ghost predicate WithinReservations(r: Run)
    requires r.Valid()
  {
    forall i :: 0 <= i < |r.ops| && r.ops[i].SettleOp? && r.answers[i].Created? ==>
      r.ops[i].actual <= -r.ops[i].reservation.credits
  }

  /**
   A settlement leaves the balance non-negative exactly when its actual usage is covered by the reservation
   and the balance together.
   */
  lemma {:induction false} SettlementCoveredIff(reservation: Transaction, actual: int, key: string, before: Log,
                                                after: Log, a: Answer)
    requires Performs(SettleOp(reservation, actual, key), before, after, a) && a.Created?
    ensures Balance(after, reservation.installation) >= 0 <==>
      actual <= Balance(before, reservation.installation) - reservation.credits
  {
    BalanceAppend(before, EntryOf(SettleOp(reservation, actual, key)), reservation.installation);
  }

  lemma {:induction false} StepKeepsSolvent(op: Op, before: Log, after: Log, a: Answer, installation: int)
    requires Performs(op, before, after, a) && Balance(before, installation) >= 0
    requires op.SettleOp? && a.Created? ==> op.actual <= -op.reservation.credits
    ensures Balance(after, installation) >= 0
  {
    PerformsMeans(op, before, after, a);
    if a.Created? { BalanceAppend(before, EntryOf(op), installation); }
  }

  /** If no settlement uses more than it reserved, no balance is ever negative. */
  lemma {:induction false} NeverOverdrawn(r: Run, installation: int)
    requires r.Valid() && WithinReservations(r)
    ensures Balance(r.Log(), installation) >= 0
    decreases |r.ops|
  {
    if r.ops == [] {
    } else {
      var n := |r.ops| - 1;
      NeverOverdrawn(r.Before(), installation);
      assert r.StepAt(n);
      StepKeepsSolvent(r.ops[n], r.logs[n], r.logs[n + 1], r.answers[n], installation);
    }
  }

  /** If the step settles, reservation and balance together cover what was used. */
  ghost predicate CoveredAt(r: Run, i: nat)
    requires r.Valid() && i < |r.ops|
  {
    r.ops[i].SettleOp? && r.answers[i].Created? ==>
      r.ops[i].actual <= Balance(r.logs[i], r.ops[i].reservation.installation) - r.ops[i].reservation.credits
  }

  /** No account is overdrawn after i operations. */
  ghost predicate SolventAt(r: Run, i: nat)
    requires i < |r.logs|
  {
    forall installation :: Balance(r.logs[i], installation) >= 0
  }

  lemma {:induction false} CoveredStep(r: Run, i: nat, installation: int)
    requires r.Valid() && i < |r.ops| && CoveredAt(r, i) && Balance(r.logs[i], installation) >= 0
    ensures Balance(r.logs[i + 1], installation) >= 0
  {
    var op := r.ops[i];
    assert r.StepAt(i);
    PerformsMeans(op, r.logs[i], r.logs[i + 1], r.answers[i]);
    if r.answers[i].Created? { BalanceAppend(r.logs[i], EntryOf(op), installation); }
  }

  lemma {:induction false} CoveredUntil(r: Run, i: nat)
    requires r.Valid() && i < |r.logs| && forall k: nat :: k < i ==> CoveredAt(r, k)
    ensures SolventAt(r, i)
    decreases i
  {
    if i == 0 {
    } else {
      CoveredUntil(r, i - 1);
      forall installation ensures Balance(r.logs[i], installation) >= 0 { CoveredStep(r, i - 1, installation); }
    }
  }

  /** No account is ever overdrawn in a run if and only if each settlement made is covered at its step. */
  lemma NeverOverdrawnIff(r: Run)
    requires r.Valid()
    ensures (forall i: nat :: i < |r.logs| ==> SolventAt(r, i)) <==> (forall i: nat :: i < |r.ops| ==> CoveredAt(r, i))
  {
    if forall i: nat :: i < |r.logs| ==> SolventAt(r, i) {
      forall i: nat | i < |r.ops| ensures CoveredAt(r, i) {
        var op := r.ops[i];
        assert r.StepAt(i) && SolventAt(r, i + 1);
        if op.SettleOp? && r.answers[i].Created? {
          SettlementCoveredIff(op.reservation, op.actual, op.key, r.logs[i], r.logs[i + 1], r.answers[i]);
        }
      }
    }
    if forall i: nat :: i < |r.ops| ==> CoveredAt(r, i) {
      forall i: nat | i < |r.logs| ensures SolventAt(r, i) { CoveredUntil(r, i); }
    }
  }

  lemma AppendsNew(before: Log, t: Transaction)
    requires !Clashes(before, t) && Checked(t)
    ensures Appends(before, t, before + [t], Created(t))
  {
    forall k | 0 <= k < |before| ensures !SameKey(before[k], t) { assert !Clash(before[k], t); }
  }

  /** Settle does not compare the two: one credit granted and reserved, two settled, and the balance is minus one. */
  lemma OverdrawnExample() returns (r: Run)
    ensures r.Valid() && Balance(r.Log(), 1) == -1
  {
    var a := Transaction(1, "", "g", Kind.Grant, 1);
    var b := Transaction(1, "r", "k", Kind.Reserve, -1);
    var c := Transaction(1, "r", "s", Kind.Settle, -1);
    var ab, abc := [a] + [b], [a] + [b] + [c];
    r := Run([GrantOp(1, 1, "g"), ReserveOp(1, "r", 1, "k"), SettleOp(b, 2, "s")], [[], [a], ab, abc],
             [Created(a), Created(b), Created(c)]);
    BalanceAppend([], a, 1);
    BalanceAppend([a], b, 1);
    BalanceAppend(ab, c, 1);
    assert [] + [a] == [a];
    assert r.StepAt(0) by { AppendsNew([], a); }
    assert r.StepAt(1) by { AppendsNew([a], b); }
    assert r.StepAt(2) by { AppendsNew(ab, c); assert ab[1] == b; }
  }

  // ---- Which calls create an entry ----

  /** No entry of the installation has the key. */
  ghost predicate KeyFree(log: Log, installation: int, key: string) {
    forall t :: t in log && t.installation == installation ==> t.key != key
  }

  /** No entry of the installation for the review is of one of the kinds. */
  ghost predicate ReviewFree(log: Log, installation: int, review: string, kinds: set<Kind>) {
    forall t :: t in log && t.installation == installation && t.review == review ==> t.kind !in kinds
  }

  lemma KeyFreeIff(log: Log, t: Transaction)
    ensures KeyUsed(log, t) <==> !KeyFree(log, t.installation, t.key)
  {
    if u :| u in log && u.installation == t.installation && u.key == t.key {
      var k :| 0 <= k < |log| && log[k] == u;
      assert SameKey(log[k], t);
    }
    if k :| 0 <= k < |log| && SameKey(log[k], t) { assert log[k] in log; }
  }

  /** The kinds of entries of one review that exclude an entry of this kind. */
  function Excluding(kind: Kind): set<Kind> {
    match kind
    case Grant => {}
    case Reserve => {Kind.Reserve}
    case _ => {Kind.Settle, Kind.Refund}
  }

  lemma ClashesIff(log: Log, t: Transaction)
    ensures Clashes(log, t) <==>
      !KeyFree(log, t.installation, t.key) || !ReviewFree(log, t.installation, t.review, Excluding(t.kind))
  {
    KeyFreeIff(log, t);
    if u :| u in log && u.installation == t.installation && u.review == t.review && u.kind in Excluding(t.kind) {
      var k :| 0 <= k < |log| && log[k] == u;
      assert Clash(log[k], t);
    }
    if k :| 0 <= k < |log| && SameKey(log[k], t) { assert Clash(log[k], t); }
    if k :| 0 <= k < |log| && Clash(log[k], t) { assert log[k] in log; }
  }

  /** The log has gained this entry and every balance what the entry says. */
  ghost predicate Gains(before: Log, after: Log, t: Transaction) {
    after == before + [t] &&
      forall x :: Balance(after, x) == Balance(before, x) + if x == t.installation then t.credits else 0
  }

  lemma AppendedGains(before: Log, t: Transaction, after: Log, a: Answer)
    requires Appends(before, t, after, a) && a.Created?
    ensures Gains(before, after, t)
  {
    forall x ensures Balance(after, x) == Balance(before, x) + if x == t.installation then t.credits else 0 {
      BalanceAppend(before, t, x);
    }
  }

  lemma GrantCreatesIff(installation: int, credits: int, key: string, before: Log, after: Log, a: Answer)
    requires Performs(GrantOp(installation, credits, key), before, after, a)
    ensures a.Created? <==>
      installation > 0 && credits > 0 && 1 <= |key| <= 200 && KeyFree(before, installation, key)
    ensures a.Created? ==> Gains(before, after, Transaction(installation, "", key, Kind.Grant, credits))
    ensures !a.Created? ==> after == before
  {
    var t := Transaction(installation, "", key, Kind.Grant, credits);
    KeyFreeIff(before, t);
    ClashesIff(before, t);
    if a.Created? { AppendedGains(before, t, after, a); }
  }

  lemma {:induction false} ReserveCreatesIff(installation: int, review: string, credits: int, key: string, before: Log,
                                             after: Log, a: Answer)
    requires Performs(ReserveOp(installation, review, credits, key), before, after, a)
    ensures a.Created? <==>
      && installation > 0 && 1 <= |review| <= 200 && credits > 0 && 1 <= |key| <= 200
      && KeyFree(before, installation, key) && ReviewFree(before, installation, review, {Kind.Reserve})
      && Balance(before, installation) >= credits
    ensures a.Created? ==> Gains(before, after, Transaction(installation, review, key, Kind.Reserve, -credits))
    ensures !a.Created? ==> after == before
  {
    var t := Transaction(installation, review, key, Kind.Reserve, -credits);
    KeyFreeIff(before, t);
    ClashesIff(before, t);
    if a.Created? { AppendedGains(before, t, after, a); }
  }

  /** A settlement of nothing used, or of more than was reserved, is accepted like any other. */
  lemma SettleCreatesIff(r: Transaction, actual: int, key: string, before: Log, after: Log, a: Answer)
    requires Performs(SettleOp(r, actual, key), before, after, a)
    ensures a.Created? <==>
      && r.installation > 0 && 1 <= |r.review| <= 200 && r.kind == Kind.Reserve && r.credits < 0
      && actual >= 0 && 1 <= |key| <= 200
      && KeyFree(before, r.installation, key)
      && ReviewFree(before, r.installation, r.review, {Kind.Settle, Kind.Refund})
    ensures a.Created? ==>
      Gains(before, after, Transaction(r.installation, r.review, key, Kind.Settle, -r.credits - actual))
    ensures !a.Created? ==> after == before
  {
    var t := Transaction(r.installation, r.review, key, Kind.Settle, -r.credits - actual);
    KeyFreeIff(before, t);
    ClashesIff(before, t);
    if a.Created? { AppendedGains(before, t, after, a); }
  }

  lemma RefundCreatesIff(r: Transaction, key: string, before: Log, after: Log, a: Answer)
    requires Performs(RefundOp(r, key), before, after, a)
    ensures a.Created? <==>
      && r.installation > 0 && 1 <= |r.review| <= 200 && r.kind == Kind.Reserve && r.credits < 0 && 1 <= |key| <= 200
      && KeyFree(before, r.installation, key)
      && ReviewFree(before, r.installation, r.review, {Kind.Settle, Kind.Refund})
    ensures a.Created? ==> Gains(before, after, Transaction(r.installation, r.review, key, Kind.Refund, -r.credits))
    ensures !a.Created? ==> after == before
  {
    var t := Transaction(r.installation, r.review, key, Kind.Refund, -r.credits);
    KeyFreeIff(before, t);
    ClashesIff(before, t);
    if a.Created? { AppendedGains(before, t, after, a); }
  }
}
