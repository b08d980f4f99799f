/**
  The service's unit-test cases, each stated for every store whose last entry
  is the one the test's repository stub hands out (`earlier` stands for
  whatever the stub hides behind it), plus one longer worked scenario.
 */
module Scenarios {
  import opened Wrappers
  import opened Ledger
  import opened Wallet
  import opened History

  /** Last entry {BalanceBefore 100, Amount 50}: one read, balance 150, nothing inserted. */
  lemma BalanceOfStubbedEntry(earlier: Ledger)
    ensures var r := GetBalance(earlier + [Entry(100.0, 50.0)]);
      && r.result == Success(150.0)
      && Reads(r.calls) == 1
      && Inserted(r.calls) == []
  {
  }

  /** Last entry {300, 200}, deposit 100: balance 600, exactly one insert. */
  lemma DepositIncreasesBalance(earlier: Ledger)
    ensures var r := Deposit(earlier + [Entry(300.0, 200.0)], 100.0);
      && r.result == Success(600.0)
      && |Inserted(r.calls)| == 1
  {
  }

  /** Last entry {200, 100}, deposit 0: balance stays 300, exactly one insert. */
  lemma ZeroDepositKeepsBalance(earlier: Ledger)
    ensures var r := Deposit(earlier + [Entry(200.0, 100.0)], 0.0);
      && r.result == Success(300.0)
      && |Inserted(r.calls)| == 1
  {
  }

  /** Last entry {300, 200}, withdraw 50: balance 450, exactly one insert. */
  lemma WithdrawalDecreasesBalance(earlier: Ledger)
    ensures var r := Withdraw(earlier + [Entry(300.0, 200.0)], 50.0);
      && r.result == Success(450.0)
      && |Inserted(r.calls)| == 1
  {
  }

  /** Last entry {200, 100}, withdraw 500: `InsufficientBalance`, no insert. */
  lemma WithdrawalBeyondBalanceFails(earlier: Ledger)
    ensures var r := Withdraw(earlier + [Entry(200.0, 100.0)], 500.0);
      && r.result == Failure(InsufficientBalance)
      && Inserted(r.calls) == []
  {
  }

  /** Last entry {300, 200}, withdraw 0: balance stays 500, exactly one insert. */
  lemma ZeroWithdrawalKeepsBalance(earlier: Ledger)
    ensures var r := Withdraw(earlier + [Entry(300.0, 200.0)], 0.0);
      && r.result == Success(500.0)
      && |Inserted(r.calls)| == 1
  {
  }

  /**
    From a store whose last entry is {100, 50}: deposit 100 records {150, 100}
    and reports 250; withdrawing 500 is refused and the balance stays 250;
    withdrawing 250 is accepted and reports exactly zero.
   */
  lemma DepositThenWithdrawScenario(earlier: Ledger)
    ensures var l0 := earlier + [Entry(100.0, 50.0)];
      var l1 := Step(l0, DepositOp(100.0));
      && Deposit(l0, 100.0).result == Success(250.0)
      && l1 == l0 + [Entry(150.0, 100.0)]
      && Withdraw(l1, 500.0).result == Failure(InsufficientBalance)
      && Step(l1, WithdrawOp(500.0)) == l1
      && Withdraw(l1, 250.0).result == Success(0.0)
      && Balance(Step(l1, WithdrawOp(250.0))) == 0.0
  {
  }
}
