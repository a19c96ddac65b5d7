/**
  The balance ledger: the `/deposito` and `/retiro` handlers as transitions
  over the player's balance. The amount is `Number(monto)` of the submitted
  form field, a finite number or NaN/Infinity; balances and amounts are whole
  numbers here. The atomic `$inc` updates become plain arithmetic on the
  balance passed in.

  The handlers hand `Transaction.create` the owner under the key `user_id`.
  Whether the record is stored depends on the owner path of the ledger
  schema the routes load, which is a parameter here: the schema of
  server/models/Transaction.js declares `user`, and under it the key is
  dropped and every record fails validation after the balance has already
  changed; under a schema that declares `user_id` the record is stored.
  The corrected handlers, which write the owner under the schema's own
  path, are the ones the ledger properties are stated for. The older
  handlers of the single-file server keep no record at all.
 */
module Ledger {
  import opened Outcomes
  import opened Records

  /** `Number(monto)` for the submitted field: finite, or NaN/Infinity. */
  datatype JsNumber = Finite(value: int) | NonFinite

  /** `Number.isFinite(amount) && amount > 0`. */
  predicate ValidAmount(a: JsNumber) {
    a.Finite? && a.value > 0
  }

  /** What a ledger handler answers: success with the record it stored (None
      for the handlers that store none), the 400 for an amount that is not a
      positive number, the 400 for a short balance, or the 500 raised when
      the record fails validation. */
  datatype TxReply =
    | Applied(entry: Option<LedgerEntry>)
    | InvalidAmount
    | InsufficientFunds
    | RecordFailed(error: ValidationError)

  /** The stored balance after a handler ran, and its answer. */
  datatype TxResult = TxResult(saldo: int, reply: TxReply)

  /** The key under which the handlers as written put the record's owner. */
  const HandlerOwnerKey := "user_id"

  /** The owner path of the ledger schema in server/models/Transaction.js. */
  const ModelledPath := UserPath

  /** Store the record of a balance change that has already been applied. */
  function Record(path: OwnerPath, saldo: int, f: TxFields): TxResult {
    match CreateTransaction(path, f)
    case Ok(e) => TxResult(saldo, Applied(Some(e)))
    case Err(err) => TxResult(saldo, RecordFailed(err))
  }

  /** The record failed for want of its owner, and for nothing else. */
  predicate MissingOwner(path: OwnerPath, e: ValidationError) {
    PathName(path) in e.paths && "amount" !in e.paths
  }

  /** A deposit that writes the owner under `key` into a schema whose owner path is `path`. */
  function DepositWith(key: string, path: OwnerPath, user: UserId, saldo: int, amount: JsNumber): TxResult {
    if !ValidAmount(amount) then TxResult(saldo, InvalidAmount)
    else
      var post := saldo + amount.value;
      Record(path, post, TxFields(Deposito, key, user, amount.value, post - amount.value, post))
  }

  /** A withdrawal that writes the owner under `key` into a schema whose owner path is `path`. */
  function WithdrawWith(key: string, path: OwnerPath, user: UserId, saldo: int, amount: JsNumber): TxResult {
    if !ValidAmount(amount) then TxResult(saldo, InvalidAmount)
    else if saldo < amount.value then TxResult(saldo, InsufficientFunds)
    else
      var post := saldo - amount.value;
      Record(path, post, TxFields(Retiro, key, user, amount.value, post + amount.value, post))
  }

  /** `/deposito` as written, against a ledger schema whose owner path is `path`. */
  function Deposit(path: OwnerPath, user: UserId, saldo: int, amount: JsNumber): (r: TxResult)
    ensures !ValidAmount(amount) ==> r == TxResult(saldo, InvalidAmount)
    ensures ValidAmount(amount) ==> r.saldo == saldo + amount.value
    ensures ValidAmount(amount) ==> (r.reply.Applied? <==> path == UserIdPath)
    ensures ValidAmount(amount) && path != UserIdPath ==> r.reply.RecordFailed? && MissingOwner(path, r.reply.error)
    ensures r.reply.Applied? ==> r.reply.entry.Some? && r.reply.entry.value.user == user
  {
    DepositWith(HandlerOwnerKey, path, user, saldo, amount)
  }

  /** `/retiro` as written: the guarded update applies only when the balance covers the amount. */
  function Withdraw(path: OwnerPath, user: UserId, saldo: int, amount: JsNumber): (r: TxResult)
    ensures !ValidAmount(amount) ==> r == TxResult(saldo, InvalidAmount)
    ensures ValidAmount(amount) && saldo < amount.value ==> r == TxResult(saldo, InsufficientFunds)
    ensures ValidAmount(amount) && saldo >= amount.value ==> r.saldo == saldo - amount.value
    ensures ValidAmount(amount) && saldo >= amount.value ==> (r.reply.Applied? <==> path == UserIdPath)
    ensures ValidAmount(amount) && saldo >= amount.value && path != UserIdPath ==>
              r.reply.RecordFailed? && MissingOwner(path, r.reply.error)
    ensures r.reply.Applied? ==> r.reply.entry.Some? && r.reply.entry.value.user == user
  {
    WithdrawWith(HandlerOwnerKey, path, user, saldo, amount)
  }

  /** `/deposito` with the owner under the path the schema declares. */
  function DepositFixed(user: UserId, saldo: int, amount: JsNumber): (r: TxResult)
    ensures !ValidAmount(amount) ==> r == TxResult(saldo, InvalidAmount)
    ensures ValidAmount(amount) ==> r.saldo == saldo + amount.value && r.reply.Applied?
    ensures r.reply.Applied? ==> r.reply.entry.Some?
  {
    DepositWith(PathName(ModelledPath), ModelledPath, user, saldo, amount)
  }

  /** `/retiro` with the owner under the path the schema declares. */
  function WithdrawFixed(user: UserId, saldo: int, amount: JsNumber): (r: TxResult)
    ensures !ValidAmount(amount) ==> r == TxResult(saldo, InvalidAmount)
    ensures ValidAmount(amount) && saldo < amount.value ==> r == TxResult(saldo, InsufficientFunds)
    ensures ValidAmount(amount) && saldo >= amount.value ==> r.saldo == saldo - amount.value && r.reply.Applied?
    ensures r.reply.Applied? ==> r.reply.entry.Some?
  {
    WithdrawWith(PathName(ModelledPath), ModelledPath, user, saldo, amount)
  }

  /** A ledger record describes the change it accompanies: its owner and type,
      the balance before and after, and an amount that is their difference. */
  predicate Describes(e: LedgerEntry, user: UserId, t: TxType, before: int, after: int) {
    && e.user == user && e.txType == t && e.status == Pending
    && e.prebalance == before && e.postbalance == after
    && (t == Deposito ==> after == before + e.amount)
    && (t == Retiro ==> after == before - e.amount)
  }

  /** The record of a corrected deposit describes the deposit. */
  lemma DepositRecorded(user: UserId, saldo: int, amount: JsNumber)
    requires ValidAmount(amount)
    ensures var r := DepositFixed(user, saldo, amount);
            Describes(r.reply.entry.value, user, Deposito, saldo, r.saldo)
            && r.reply.entry.value.amount == amount.value
  {
  }

  /** The record of a corrected withdrawal describes the withdrawal. */
  lemma WithdrawRecorded(user: UserId, saldo: int, amount: JsNumber)
    requires ValidAmount(amount) && saldo >= amount.value
    ensures var r := WithdrawFixed(user, saldo, amount);
            Describes(r.reply.entry.value, user, Retiro, saldo, r.saldo)
            && r.reply.entry.value.amount == amount.value
  {
  }

  /** The handlers as written move the balance exactly as the corrected ones
      do, whatever the schema. Against a schema whose owner path is `user_id`
      they are the corrected handlers; against the schema of
      server/models/Transaction.js they never answer success. */
  lemma RecordDependsOnSchema(path: OwnerPath, user: UserId, saldo: int, amount: JsNumber)
    ensures Deposit(path, user, saldo, amount).saldo == DepositFixed(user, saldo, amount).saldo
    ensures Withdraw(path, user, saldo, amount).saldo == WithdrawFixed(user, saldo, amount).saldo
    ensures Deposit(UserIdPath, user, saldo, amount) == DepositFixed(user, saldo, amount)
    ensures Withdraw(UserIdPath, user, saldo, amount) == WithdrawFixed(user, saldo, amount)
    ensures !Deposit(ModelledPath, user, saldo, amount).reply.Applied?
    ensures !Withdraw(ModelledPath, user, saldo, amount).reply.Applied?
    ensures ValidAmount(amount) ==> DepositFixed(user, saldo, amount).reply.Applied?
  {
  }

  /** `/deposito` of the single-file server: no ledger record. */
  function LegacyDeposit(saldo: int, amount: JsNumber): TxResult {
    if !ValidAmount(amount) then TxResult(saldo, InvalidAmount)
    else TxResult(saldo + amount.value, Applied(None))
  }

  /** `/retiro` of the single-file server: no ledger record. */
  function LegacyWithdraw(saldo: int, amount: JsNumber): TxResult {
    if !ValidAmount(amount) then TxResult(saldo, InvalidAmount)
    else if saldo < amount.value then TxResult(saldo, InsufficientFunds)
    else TxResult(saldo - amount.value, Applied(None))
  }

  /** The single-file server's handlers move the balance as the corrected ones
      do and succeed exactly when they do, but store no record. */
  lemma LegacyAgrees(user: UserId, saldo: int, amount: JsNumber)
    ensures LegacyDeposit(saldo, amount).saldo == DepositFixed(user, saldo, amount).saldo
    ensures LegacyWithdraw(saldo, amount).saldo == WithdrawFixed(user, saldo, amount).saldo
    ensures LegacyDeposit(saldo, amount).reply.Applied? == DepositFixed(user, saldo, amount).reply.Applied?
    ensures LegacyWithdraw(saldo, amount).reply.Applied? == WithdrawFixed(user, saldo, amount).reply.Applied?
    ensures LegacyDeposit(saldo, amount).reply.Applied? ==> LegacyDeposit(saldo, amount).reply.entry.None?
    ensures LegacyWithdraw(saldo, amount).reply.Applied? ==> LegacyWithdraw(saldo, amount).reply.entry.None?
  {
  }

  /** A ledger request: deposit or withdraw an amount. */
  datatype Op = Dep(amount: JsNumber) | Wd(amount: JsNumber)

  function Step(user: UserId, saldo: int, op: Op): TxResult {
    match op
    case Dep(a) => DepositFixed(user, saldo, a)
    case Wd(a) => WithdrawFixed(user, saldo, a)
  }

  /** The balance after a sequence of requests, and the records they stored. */
  datatype History = History(saldo: int, entries: seq<LedgerEntry>)

  function Run(user: UserId, saldo: int, ops: seq<Op>): History
    decreases |ops|
  {
    if |ops| == 0 then History(saldo, [])
    else
      var r := Step(user, saldo, ops[0]);
      var h := Run(user, r.saldo, ops[1..]);
      History(h.saldo, (if r.reply.Applied? then [r.reply.entry.value] else []) + h.entries)
  }

  /** One request: a balance that was non-negative stays so, and a stored
      record describes exactly the change the request made. */
  lemma StepRecord(user: UserId, saldo: int, op: Op)
    requires saldo >= 0
    ensures var r := Step(user, saldo, op);
            && r.saldo >= 0
            && (r.reply.Applied? ==> r.reply.entry.Some?)
            && (r.reply.Applied? ==>
                  var e := r.reply.entry.value;
                  && e.prebalance == saldo && e.postbalance == r.saldo && e.user == user && e.amount > 0
                  && Describes(e, user, e.txType, saldo, r.saldo))
            && (!r.reply.Applied? ==> r.saldo == saldo)
  {
    match op
    case Dep(a) =>
      if ValidAmount(a) {
        DepositRecorded(user, saldo, a);
      }
    case Wd(a) =>
      if ValidAmount(a) && saldo >= a.value {
        WithdrawRecorded(user, saldo, a);
      }
  }

  /** The records chain from balance `from` to balance `to`: each starts from
      the balance the previous one ended with. */
  predicate Chained(es: seq<LedgerEntry>, from: int, to: int) {
    && (|es| == 0 ==> to == from)
    && (|es| > 0 ==> es[0].prebalance == from && es[|es| - 1].postbalance == to)
    && (forall i :: 0 <= i < |es| - 1 ==> es[i].postbalance == es[i + 1].prebalance)
  }

  /** Every record belongs to the user, moves a positive amount and describes
      its own change. */
  predicate Owned(es: seq<LedgerEntry>, user: UserId) {
    forall i :: 0 <= i < |es| ==>
      es[i].user == user && es[i].amount > 0 && Describes(es[i], user, es[i].txType, es[i].prebalance, es[i].postbalance)
  }

  lemma ChainedCons(e: LedgerEntry, es: seq<LedgerEntry>, from: int, to: int)
    requires e.prebalance == from && Chained(es, e.postbalance, to)
    ensures Chained([e] + es, from, to)
  {
    var all := [e] + es;
    forall i | 0 <= i < |all| - 1 ensures all[i].postbalance == all[i + 1].prebalance {
      assert all[i + 1] == es[i];
      if i > 0 {
        assert all[i] == es[i - 1];
      }
    }
    if |es| > 0 {
      assert all[|all| - 1] == es[|es| - 1];
    }
  }

  lemma OwnedCons(e: LedgerEntry, es: seq<LedgerEntry>, user: UserId)
    requires e.user == user && e.amount > 0 && Describes(e, user, e.txType, e.prebalance, e.postbalance)
    requires Owned(es, user)
    ensures Owned([e] + es, user)
  {
    var all := [e] + es;
    forall i | 0 <= i < |all|
      ensures all[i].user == user && all[i].amount > 0
      ensures Describes(all[i], user, all[i].txType, all[i].prebalance, all[i].postbalance)
    {
      if i > 0 {
        assert all[i] == es[i - 1];
      }
    }
  }

  /** Whatever requests arrive, a balance that starts non-negative stays
      non-negative; the records chain from the starting balance to the final
      one; and each belongs to the user and records a change of exactly its
      amount. */
  lemma {:induction false} RunKeepsLedger(user: UserId, saldo: int, ops: seq<Op>)
    requires saldo >= 0
    ensures Run(user, saldo, ops).saldo >= 0
    ensures Chained(Run(user, saldo, ops).entries, saldo, Run(user, saldo, ops).saldo)
    ensures Owned(Run(user, saldo, ops).entries, user)
    decreases |ops|
  {
    if |ops| > 0 {
      var r := Step(user, saldo, ops[0]);
      StepRecord(user, saldo, ops[0]);
      RunKeepsLedger(user, r.saldo, ops[1..]);
      var h := Run(user, r.saldo, ops[1..]);
      if r.reply.Applied? {
        var e := r.reply.entry.value;
        assert Run(user, saldo, ops) == History(h.saldo, [e] + h.entries);
        ChainedCons(e, h.entries, saldo, h.saldo);
        OwnedCons(e, h.entries, user);
      } else {
        assert Run(user, saldo, ops) == History(h.saldo, [] + h.entries);
        assert [] + h.entries == h.entries;
      }
    }
  }
}
