/** The credit ledger (internal/hosted/billing/ledger.go) over an append-only store. */
module Ledger {
  // The store is known by its contract: LedgerStore's comments, and the constraints of
  // migrations/0011_credit_ledger.up.sql.

  datatype Kind = Grant | Reserve | Settle | Refund
  /** A signed change of the available balance. The database's identifier and time stamp are left out. */
  datatype Transaction = Transaction(installation: int, review: string, key: string, kind: Kind, credits: int)
  type Log = seq<Transaction>
  /** Go's (Transaction, bool, error). */
  datatype Answer = Created(entry: Transaction) | Replayed(entry: Transaction) | Rejected

  // ---- The store ----

  predicate Terminal(t: Transaction) { t.kind.Settle? || t.kind.Refund? }

  predicate SameKey(a: Transaction, b: Transaction) { a.installation == b.installation && a.key == b.key }

  predicate SameReview(a: Transaction, b: Transaction) { a.installation == b.installation && a.review == b.review }

  /** Two entries that a unique index keeps apart. */
  predicate Clash(a: Transaction, b: Transaction) {
    || SameKey(a, b)
    || (SameReview(a, b) && a.kind.Reserve? && b.kind.Reserve?)
    || (SameReview(a, b) && Terminal(a) && Terminal(b))
  }

  /** The CHECK constraints of the table. */
  predicate Checked(t: Transaction) {
    && 1 <= |t.key| <= 200 && |t.review| <= 200
    && match t.kind
       case Reserve => t.credits < 0
       case Settle => true
       case _ => t.credits > 0
  }

  predicate Clashes(log: Log, t: Transaction) { exists k :: 0 <= k < |log| && Clash(log[k], t) }

  predicate KeyUsed(log: Log, t: Transaction) { exists k :: 0 <= k < |log| && SameKey(log[k], t) }

  function FirstWithKey(log: Log, t: Transaction): Transaction
    requires KeyUsed(log, t)
  {
    if SameKey(log[0], t) then log[0]
    else
      assert forall k :: 0 < k < |log| ==> log[k] == log[1..][k - 1];
      FirstWithKey(log[1..], t)
  }

  function Balance(log: Log, installation: int): int {
    if log == [] then 0
    else
      var last := log[|log| - 1];
      Balance(log[..|log| - 1], installation) + if last.installation == installation then last.credits else 0
  }

  /**
   LedgerStore.Append: a known key answers with the entry that has it; otherwise the entry is added
   unless a constraint forbids it.
   */
  ghost predicate Appends(before: Log, t: Transaction, after: Log, a: Answer) {
    match a
    case Created(entry) => !KeyUsed(before, t) && Checked(t) && !Clashes(before, t) && entry == t &&
      after == before + [t]
    case Replayed(entry) => entry in before && SameKey(entry, t) && after == before
    case Rejected => !KeyUsed(before, t) && (!Checked(t) || Clashes(before, t)) && after == before
  }

  /** LedgerStore.Reserve: in one step, and only if the balance covers the credits required. */
  ghost predicate Reserves(before: Log, t: Transaction, required: int, after: Log, a: Answer) {
    if KeyUsed(before, t) || Balance(before, t.installation) >= required then Appends(before, t, after, a)
    else a.Rejected? && after == before
  }

  class CreditStore {
    var log: Log

    constructor ()
      ensures log == []
    {
      log := [];
    }

    method Append(t: Transaction) returns (a: Answer)
      modifies this
      ensures Appends(old(log), t, log, a)
    {
      if KeyUsed(log, t) {
        FirstWithKeyHasIt(log, t);
        return Replayed(FirstWithKey(log, t));
      }
      if !Checked(t) || Clashes(log, t) {
        return Rejected;
      }
      log := log + [t];
      a := Created(t);
    }

    method Reserve(t: Transaction, required: int) returns (a: Answer)
      modifies this
      ensures Reserves(old(log), t, required, log, a)
    {
      if !KeyUsed(log, t) && Balance(log, t.installation) < required {
        return Rejected;
      }
      a := Append(t);
    }
  }

  lemma {:induction false} FirstWithKeyHasIt(log: Log, t: Transaction)
    requires KeyUsed(log, t)
    ensures FirstWithKey(log, t) in log && SameKey(FirstWithKey(log, t), t)
  {
    if !SameKey(log[0], t) {
      assert forall k :: 0 < k < |log| ==> log[k] == log[1..][k - 1];
      FirstWithKeyHasIt(log[1..], t);
    }
  }

  // ---- The operations ----

  datatype Op =
    | GrantOp(installation: int, credits: int, key: string)
    | ReserveOp(installation: int, review: string, credits: int, key: string)
    | SettleOp(reservation: Transaction, actual: int, key: string)
    | RefundOp(reservation: Transaction, key: string)

  predicate ValidReservation(t: Transaction) {
    t.installation > 0 && t.review != "" && t.kind.Reserve? && t.credits < 0
  }

  predicate ValidOp(op: Op) {
    match op
    case GrantOp(installation, credits, key) => installation > 0 && credits > 0 && key != ""
    case ReserveOp(installation, review, credits, key) => installation > 0 && review != "" && credits > 0 && key != ""
    case SettleOp(reservation, actual, key) => ValidReservation(reservation) && actual >= 0 && key != ""
    case RefundOp(reservation, key) => ValidReservation(reservation) && key != ""
  }

  /** The entry an operation asks the store to append. */
  function EntryOf(op: Op): Transaction {
    match op
    case GrantOp(installation, credits, key) => Transaction(installation, "", key, Kind.Grant, credits)
    case ReserveOp(installation, review, credits, key) => Transaction(installation, review, key, Kind.Reserve, -credits)
    case SettleOp(r, actual, key) => Transaction(r.installation, r.review, key, Kind.Settle, -r.credits - actual)
    case RefundOp(r, key) => Transaction(r.installation, r.review, key, Kind.Refund, -r.credits)
  }

  /** One call, on any store that keeps the contract. */
  ghost predicate Performs(op: Op, before: Log, after: Log, a: Answer) {
    if !ValidOp(op) then a.Rejected? && after == before
    else if op.ReserveOp? then Reserves(before, EntryOf(op), op.credits, after, a)
    else Appends(before, EntryOf(op), after, a)
  }

  method Grant(store: CreditStore?, installation: int, credits: int, key: string) returns (a: Answer)
    modifies store
    ensures store == null ==> a.Rejected?
    ensures store != null ==> Performs(GrantOp(installation, credits, key), old(store.log), store.log, a)
  {
    if store == null || installation <= 0 || credits <= 0 || key == "" {
      return Rejected;
    }
    a := store.Append(Transaction(installation, "", key, Kind.Grant, credits));
  }

  method Reserve(store: CreditStore?, installation: int, review: string, credits: int, key: string) returns (a: Answer)
    modifies store
    ensures store == null ==> a.Rejected?
    ensures store != null ==> Performs(ReserveOp(installation, review, credits, key), old(store.log), store.log, a)
  {
    if store == null || installation <= 0 || review == "" || credits <= 0 || key == "" {
      return Rejected;
    }
    a := store.Reserve(Transaction(installation, review, key, Kind.Reserve, -credits), credits);
  }

  method Settle(store: CreditStore?, reservation: Transaction, actual: int, key: string) returns (a: Answer)
    modifies store
    ensures store == null ==> a.Rejected?
    ensures store != null ==> Performs(SettleOp(reservation, actual, key), old(store.log), store.log, a)
  {
    if store == null {
      return Rejected;
    }
    if !ValidReservation(reservation) || actual < 0 || key == "" {
      return Rejected;
    }
    var reserved := -reservation.credits;
    a := store.Append(Transaction(reservation.installation, reservation.review, key, Kind.Settle, reserved - actual));
  }

  method Refund(store: CreditStore?, reservation: Transaction, key: string) returns (a: Answer)
    modifies store
    ensures store == null ==> a.Rejected?
    ensures store != null ==> Performs(RefundOp(reservation, key), old(store.log), store.log, a)
  {
    if store == null {
      return Rejected;
    }
    if !ValidReservation(reservation) || key == "" {
      return Rejected;
    }
    a := store.Append(Transaction(reservation.installation, reservation.review, key, Kind.Refund,
                                  -reservation.credits));
  }
}
