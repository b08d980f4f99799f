/**
  The wallet balance engine: the current balance is derived from the last
  ledger entry on every read, and deposits and withdrawals append one entry
  each. Every operation answers with its result and the trace of calls it made
  on the store; `Commit` turns that trace into the store's new contents.
 */
module Wallet {
  import opened Wrappers
  import opened Ledger

  /** The one failure the engine raises itself. */
  datatype WalletError = InsufficientBalance

  /** An operation's answer together with the store calls it made, in order. */
  datatype Reply = Reply(result: Result<real, WalletError>, calls: seq<StoreCall>)

  /** The balance a ledger stands for: the last entry's after-balance, or zero when the store is empty. */
  function Balance(l: Ledger): real
  {
    match LastEntry(l)
    // an empty store has a zero balance
    case None => 0.0
    case Some(last) => last.BalanceAfter()
  }

  /**
    Balance query: a single read of the last entry and nothing else, so the
    store is left as it was.
   */
  function GetBalance(l: Ledger): (r: Reply)
    ensures r.result.Success?
    ensures |l| == 0 ==> r.result.value == 0.0
    ensures |l| > 0 ==> r.result.value == l[|l| - 1].balanceBefore + l[|l| - 1].amount
    ensures Reads(r.calls) == 1 && Inserted(r.calls) == []
    ensures Commit(l, r.calls) == l
  {
    Reply(Success(Balance(l)), [ReadLast])
  }

  /**
    Deposit: reads the balance, inserts one entry recording the balance before
    and the deposited amount, and answers with the new balance, which is what a
    fresh read of the store would now report.
   */
  function Deposit(l: Ledger, amount: real): (r: Reply)
    requires amount >= 0.0
    ensures r.result == Success(Balance(l) + amount)
    ensures Reads(r.calls) == 1 && |Inserted(r.calls)| == 1
    ensures Commit(l, r.calls) == l + [Entry(Balance(l), amount)]
    ensures Balance(Commit(l, r.calls)) == r.result.value
  {
    var read := GetBalance(l);
    var current := read.result.value;
    var calls := read.calls + [Insert(Entry(current, amount))];
    TraceCountsAppend(read.calls, [Insert(Entry(current, amount))]);
    Reply(Success(current + amount), calls)
  }

  /**
    Withdrawal: reads the balance and refuses with `InsufficientBalance`,
    inserting nothing, exactly when the amount exceeds it; an amount equal to
    the balance is accepted. Otherwise it inserts one entry with the negated
    amount and answers with the new balance, which is never negative.
   */
  function Withdraw(l: Ledger, amount: real): (r: Reply)
    requires amount >= 0.0
    ensures r.result.Failure? <==> amount > Balance(l)
    ensures r.result.Failure? ==> r.result.error == InsufficientBalance
    ensures r.result.Failure? ==> Inserted(r.calls) == [] && Commit(l, r.calls) == l
    ensures r.result.Success? ==> r.result.value == Balance(l) - amount && r.result.value >= 0.0
    ensures r.result.Success? ==> |Inserted(r.calls)| == 1
    ensures r.result.Success? ==> Commit(l, r.calls) == l + [Entry(Balance(l), -amount)]
    ensures r.result.Success? ==> Balance(Commit(l, r.calls)) == r.result.value
    ensures Reads(r.calls) == 1
  {
    var read := GetBalance(l);
    var current := read.result.value;
    if amount > current then
      Reply(Failure(InsufficientBalance), read.calls)
    else
      var calls := read.calls + [Insert(Entry(current, -amount))];
      TraceCountsAppend(read.calls, [Insert(Entry(current, -amount))]);
      Reply(Success(current - amount), calls)
  }
}
