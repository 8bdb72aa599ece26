/** The payment example of consistency/twoPhaseCommit.go: a payment service
    asks an account service and a receipt service to vote (phase one) and,
    when both vote yes, debits the account (phase two). Every service is a
    value; a step returns the services as they are afterwards. There is no
    decision log, no abort message to participants and no retry, because the
    code has none. */
module TwoPhaseCommit {
  import opened GoInt

  datatype AccountService = AccountService(balance: Int64)

  datatype ReceiptService = ReceiptService(receiptID: Int64)

  datatype PaymentService = PaymentService(account: AccountService, receipt: ReceiptService)

  /** One vote request issued in phase one, with the argument it was given. */
  datatype PrepareCall = AskAccount(amount: Int64) | AskReceipt(transactionID: Int64)

  /** The verdict of phase one, with the vote requests in the order issued. */
  datatype Prepared = Prepared(ready: bool, asked: seq<PrepareCall>)

  /** Which of the three messages `processTransaction` ends with. */
  datatype Outcome = AbortedInPrepare | Completed | RolledBack

  datatype Processed = Processed(service: PaymentService, outcome: Outcome, asked: seq<PrepareCall>)

  /** The account votes yes exactly when its balance covers the amount. */
  function PreparePayment(s: AccountService, amount: Int64): (vote: bool)
    ensures vote <==> amount <= s.balance
  {
    s.balance >= amount
  }

  /** The receipt service votes yes unconditionally. */
  function PrepareReceipt(s: ReceiptService, transactionID: Int64): (vote: bool)
    ensures vote
  {
    true
  }

  /** Phase one. The receipt service is asked only after the account voted
      yes, and it is handed the amount as its transaction id. */
  function PrepareTransaction(ps: PaymentService, amount: Int64): (r: Prepared)
    ensures r.ready <==> amount <= ps.account.balance
    ensures |r.asked| > 0 && r.asked[0] == AskAccount(amount)
    ensures AskReceipt(amount) in r.asked <==> PreparePayment(ps.account, amount)
    ensures forall c :: c in r.asked ==> c == AskAccount(amount) || c == AskReceipt(amount)
  {
    if !PreparePayment(ps.account, amount) then
      Prepared(false, [AskAccount(amount)])
    else if !PrepareReceipt(ps.receipt, amount) then
      Prepared(false, [AskAccount(amount), AskReceipt(amount)])
    else
      Prepared(true, [AskAccount(amount), AskReceipt(amount)])
  }

  /** Phase two: debit the account with Go's wrapping subtraction and report
      success unconditionally. */
  function CommitTransaction(ps: PaymentService, amount: Int64): (r: (PaymentService, bool))
    ensures r.1
    ensures r.0.receipt == ps.receipt
    ensures InRange(ps.account.balance - amount) ==> r.0.account.balance == ps.account.balance - amount
    ensures (ps.account.balance - amount - r.0.account.balance) % Modulus == 0
  {
    (ps.(account := AccountService(Wrap(ps.account.balance - amount))), true)
  }

  /** The whole protocol for one payment. */
  function ProcessTransaction(ps: PaymentService, amount: Int64): (r: Processed)
    ensures r.outcome != RolledBack
    ensures r.outcome == AbortedInPrepare <==> ps.account.balance < amount
    ensures r.outcome == AbortedInPrepare ==> r.service == ps && r.asked == [AskAccount(amount)]
    ensures r.outcome == Completed ==>
              && r.service.receipt == ps.receipt
              && (ps.account.balance - amount - r.service.account.balance) % Modulus == 0
              && r.asked == [AskAccount(amount), AskReceipt(amount)]
  {
    var p := PrepareTransaction(ps, amount);
    if !p.ready then
      Processed(ps, AbortedInPrepare, p.asked)
    else
      var (after, committed) := CommitTransaction(ps, amount);
      if committed then Processed(after, Completed, p.asked)
      else Processed(after, RolledBack, p.asked)
  }

  /** A non-negative debit that passes the vote leaves a balance between zero
      and the old balance, and it is exactly the old balance minus the amount. */
  lemma DebitKeepsBalanceNonNegative(ps: PaymentService, amount: Int64)
    requires 0 <= amount
    ensures var r := ProcessTransaction(ps, amount);
            r.outcome == Completed ==>
              && r.service.account.balance == ps.account.balance - amount
              && 0 <= r.service.account.balance <= ps.account.balance
  {
    var r := ProcessTransaction(ps, amount);
    if r.outcome == Completed {
      assert InRange(ps.account.balance - amount);
    }
  }

  /** The scenario `TwoPhaseCommit`: balance 1000, receipt id 1, payment 500. */
  function TwoPhaseCommitScenario(): (r: Processed)
    ensures r.outcome == Completed
    ensures r.service.account.balance == 500
    ensures r.service.receipt.receiptID == 1
    ensures ProcessTransactionChecked(PaymentService(AccountService(1000), ReceiptService(1)), 500) == r
  {
    ProcessTransaction(PaymentService(AccountService(1000), ReceiptService(1)), 500)
  }

  /** As written, a negative amount passes the balance check for any balance
      at or above it; a credit to a balance of `MaxInt` wraps to `MinInt`. */
  lemma NegativeAmountWrapsBalance()
    ensures var r := ProcessTransaction(PaymentService(AccountService(MaxInt), ReceiptService(1)), -1);
            r.outcome == Completed && r.service.account.balance == MinInt < 0
  {
    var r := ProcessTransaction(PaymentService(AccountService(MaxInt), ReceiptService(1)), -1);
    assert Wrap(MaxInt + 1) == MinInt by {
      WrapUnique(MaxInt + 1, MinInt);
    }
  }

  /** Corrected vote: besides the balance check, a negative amount is refused. */
  function PreparePaymentChecked(s: AccountService, amount: Int64): (vote: bool)
    ensures vote <==> 0 <= amount <= s.balance
    ensures vote ==> PreparePayment(s, amount)
  {
    amount >= 0 && PreparePayment(s, amount)
  }

  /** `ProcessTransaction` with the corrected vote in place of `PreparePayment`. */
  function ProcessTransactionChecked(ps: PaymentService, amount: Int64): (r: Processed)
    ensures r.outcome != RolledBack
    ensures r.outcome == Completed <==> 0 <= amount <= ps.account.balance
    ensures r.outcome == AbortedInPrepare ==> r.service == ps
    ensures r.outcome == Completed ==>
              && r.service.receipt == ps.receipt
              && r.service.account.balance == ps.account.balance - amount
              && 0 <= r.service.account.balance <= ps.account.balance
  {
    if !PreparePaymentChecked(ps.account, amount) then
      Processed(ps, AbortedInPrepare, [AskAccount(amount)])
    else
      assert PrepareReceipt(ps.receipt, amount);
      var (after, committed) := CommitTransaction(ps, amount);
      Processed(after, if committed then Completed else RolledBack, [AskAccount(amount), AskReceipt(amount)])
  }

  /** The correction changes nothing for real debits: on every non-negative
      amount both versions produce the same services, outcome and requests. */
  lemma CheckedAgreesOnDebits(ps: PaymentService, amount: Int64)
    requires 0 <= amount
    ensures ProcessTransactionChecked(ps, amount) == ProcessTransaction(ps, amount)
  {
  }
}
