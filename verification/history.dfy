/**
  Sequences of engine operations against one store, and the invariants the
  ledger keeps across them: it is only ever appended to, each entry starts
  from the balance the previous one left, and no operation drives the balance
  below zero.
 */
module History {
  import opened Wrappers
  import opened Ledger
  import opened Wallet

  /** One request to the engine; amounts have already passed the caller's non-negativity check. */
  datatype Op = GetBalanceOp | DepositOp(amount: real) | WithdrawOp(amount: real)

  predicate ValidOp(op: Op)
  {
    match op
    case GetBalanceOp => true
    case DepositOp(a) => a >= 0.0
    case WithdrawOp(a) => a >= 0.0
  }

  predicate ValidOps(ops: seq<Op>)
  {
    forall i :: 0 <= i < |ops| ==> ValidOp(ops[i])
  }

  /** Dispatches one request to the engine operation it names. */
  function Handle(l: Ledger, op: Op): Reply
    requires ValidOp(op)
  {
    match op
    case GetBalanceOp => GetBalance(l)
    case DepositOp(a) => Deposit(l, a)
    case WithdrawOp(a) => Withdraw(l, a)
  }

  /** The store after one request has been served. */
  function Step(l: Ledger, op: Op): Ledger
    requires ValidOp(op)
  {
    Commit(l, Handle(l, op).calls)
  }

  /** The store after a sequence of requests has been served one after another. */
  function Run(l: Ledger, ops: seq<Op>): Ledger
    requires ValidOps(ops)
    decreases |ops|
  {
    if |ops| == 0 then l else Run(Step(l, ops[0]), ops[1..])
  }

  /** Each entry starts from the balance the one before it left; the first starts from `start`. */
  ghost predicate ChainedFrom(l: Ledger, start: real)
  {
    && (|l| > 0 ==> l[0].balanceBefore == start)
    && forall i :: 1 <= i < |l| ==> l[i].balanceBefore == l[i - 1].BalanceAfter()
  }

  /** No entry starts or ends at a negative balance. */
  ghost predicate Solvent(l: Ledger)
  {
    forall i :: 0 <= i < |l| ==> l[i].balanceBefore >= 0.0 && l[i].BalanceAfter() >= 0.0
  }

  /** The sum of every delta the ledger records. */
  function SumOfAmounts(l: Ledger): real
  {
    if |l| == 0 then 0.0 else SumOfAmounts(l[..|l| - 1]) + l[|l| - 1].amount
  }

  /**
    Deriving the balance from the last entry loses nothing: on a non-empty
    chained ledger it equals the opening balance plus every delta ever recorded.
   */
  lemma {:induction false} BalanceIsOpeningPlusDeltas(l: Ledger, start: real)
    requires ChainedFrom(l, start)
    ensures |l| > 0 ==> Balance(l) == start + SumOfAmounts(l)
    decreases |l|
  {
    if |l| > 0 {
      var earlier := l[..|l| - 1];
      var last := l[|l| - 1];
      assert ChainedFrom(earlier, start);
      BalanceIsOpeningPlusDeltas(earlier, start);
      assert last.balanceBefore == start + SumOfAmounts(earlier) by {
        if |earlier| > 0 {
          assert last.balanceBefore == earlier[|earlier| - 1].BalanceAfter();
        }
      }
      assert SumOfAmounts(l) == SumOfAmounts(earlier) + last.amount;
    }
  }

  /**
    One request changes the store by at most one appended entry, which starts
    from the balance read before it; a balance query and a refused withdrawal
    change nothing.
   */
  lemma StepAppendsAtMostOne(l: Ledger, op: Op)
    requires ValidOp(op)
    ensures var l' := Step(l, op);
      || l' == l
      || (|l'| == |l| + 1 && l'[..|l|] == l && l'[|l|].balanceBefore == Balance(l))
    ensures op.GetBalanceOp? ==> Step(l, op) == l
  {
    var l' := Step(l, op);
    if l' != l {
      assert l'[..|l|] == l;
    }
  }

  lemma StepKeepsChained(l: Ledger, op: Op, start: real)
    requires ValidOp(op)
    requires ChainedFrom(l, start)
    requires |l| == 0 ==> start == 0.0
    ensures ChainedFrom(Step(l, op), start)
  {
    StepAppendsAtMostOne(l, op);
    var l' := Step(l, op);
    if l' != l {
      forall i | 1 <= i < |l'|
        ensures l'[i].balanceBefore == l'[i - 1].BalanceAfter()
      {
        if i < |l| {
          assert l'[i] == l[i] && l'[i - 1] == l[i - 1];
        }
      }
    }
  }

  lemma StepKeepsSolvent(l: Ledger, op: Op)
    requires ValidOp(op)
    requires Solvent(l)
    ensures Solvent(Step(l, op))
    ensures Balance(Step(l, op)) >= 0.0
  {
    var l' := Step(l, op);
    StepAppendsAtMostOne(l, op);
    if |l| > 0 {
      assert l[|l| - 1].BalanceAfter() >= 0.0;
    }
    if l' != l {
      forall i | 0 <= i < |l'|
        ensures l'[i].balanceBefore >= 0.0 && l'[i].BalanceAfter() >= 0.0
      {
        if i < |l| {
          assert l'[i] == l[i];
        }
      }
    }
  }

  /** A run of requests only ever appends: earlier entries are never altered or removed. */
  lemma {:induction false} RunIsAppendOnly(l: Ledger, ops: seq<Op>)
    requires ValidOps(ops)
    ensures |l| <= |Run(l, ops)| <= |l| + |ops|
    ensures Run(l, ops)[..|l|] == l
    decreases |ops|
  {
    if |ops| > 0 {
      var next := Step(l, ops[0]);
      StepAppendsAtMostOne(l, ops[0]);
      assert ValidOps(ops[1..]);
      RunIsAppendOnly(next, ops[1..]);
      assert Run(l, ops)[..|l|] == Run(next, ops[1..])[..|next|][..|l|];
    }
  }

  /** Every run keeps the ledger chained from the opening balance. */
  lemma {:induction false} RunKeepsChained(l: Ledger, ops: seq<Op>, start: real)
    requires ValidOps(ops)
    requires ChainedFrom(l, start)
    requires |l| == 0 ==> start == 0.0
    ensures ChainedFrom(Run(l, ops), start)
    decreases |ops|
  {
    if |ops| > 0 {
      var next := Step(l, ops[0]);
      StepKeepsChained(l, ops[0], start);
      StepAppendsAtMostOne(l, ops[0]);
      assert |next| == 0 ==> start == 0.0;
      assert ValidOps(ops[1..]);
      RunKeepsChained(next, ops[1..], start);
    }
  }

  /** Every run keeps a solvent ledger solvent, so its balance is never negative. */
  lemma {:induction false} RunKeepsSolvent(l: Ledger, ops: seq<Op>)
    requires ValidOps(ops)
    requires Solvent(l)
    ensures Solvent(Run(l, ops))
    ensures Balance(Run(l, ops)) >= 0.0
    decreases |ops|
  {
    if |ops| == 0 {
      if |l| > 0 {
        assert l[|l| - 1].BalanceAfter() >= 0.0;
      }
    } else {
      StepKeepsSolvent(l, ops[0]);
      assert ValidOps(ops[1..]);
      RunKeepsSolvent(Step(l, ops[0]), ops[1..]);
    }
  }

  /**
    A request never drives a non-negative balance below zero, whatever older
    entries the store holds.
   */
  lemma StepKeepsBalanceNonNegative(l: Ledger, op: Op)
    requires ValidOp(op)
    requires Balance(l) >= 0.0
    ensures Balance(Step(l, op)) >= 0.0
  {
  }

  /**
    Any run of requests keeps a non-negative balance non-negative; only the
    balance the run starts from matters, not older entries of the store.
   */
  lemma {:induction false} RunKeepsBalanceNonNegative(l: Ledger, ops: seq<Op>)
    requires ValidOps(ops)
    requires Balance(l) >= 0.0
    ensures Balance(Run(l, ops)) >= 0.0
    decreases |ops|
  {
    if |ops| > 0 {
      StepKeepsBalanceNonNegative(l, ops[0]);
      assert ValidOps(ops[1..]);
      RunKeepsBalanceNonNegative(Step(l, ops[0]), ops[1..]);
    }
  }

  /**
    A store the engine filled from empty is chained from zero, never records a
    negative balance, and reports exactly the sum of the deltas it holds.
   */
  lemma EngineLedgerFromEmpty(ops: seq<Op>)
    requires ValidOps(ops)
    ensures ChainedFrom(Run([], ops), 0.0)
    ensures Solvent(Run([], ops))
    ensures Balance(Run([], ops)) == SumOfAmounts(Run([], ops)) >= 0.0
  {
    RunKeepsChained([], ops, 0.0);
    RunKeepsSolvent([], ops);
    BalanceIsOpeningPlusDeltas(Run([], ops), 0.0);
  }

  /**
    Reading twice with no mutation in between: the two reads make a trace of
    two `ReadLast` calls and no insert, the store served that trace is the
    store it started as, and the second read reports what the first did.
   */
  lemma GetBalanceIsIdempotent(l: Ledger)
    ensures var first := GetBalance(l);
      var second := GetBalance(Commit(l, first.calls));
      && Reads(first.calls + second.calls) == 2
      && Inserted(first.calls + second.calls) == []
      && Commit(l, first.calls + second.calls) == l
      && second.result == first.result
  {
    var first := GetBalance(l);
    var second := GetBalance(Commit(l, first.calls));
    TraceCountsAppend(first.calls, second.calls);
  }

  /**
    A zero deposit is a recorded no-op: the balance is unchanged and one entry
    with a zero delta is still appended.
   */
  lemma ZeroDepositIsRecorded(l: Ledger)
    ensures Deposit(l, 0.0).result.value == Balance(l)
    ensures Step(l, DepositOp(0.0)) == l + [Entry(Balance(l), 0.0)]
  {
  }

  /**
    A zero withdrawal succeeds exactly when the balance is not negative, and
    then leaves the balance unchanged while still appending one zero-delta entry.
   */
  lemma ZeroWithdrawalIsRecorded(l: Ledger)
    ensures Withdraw(l, 0.0).result.Success? <==> Balance(l) >= 0.0
    ensures Balance(l) >= 0.0 ==>
      && Withdraw(l, 0.0).result.value == Balance(l)
      && Step(l, WithdrawOp(0.0)) == l + [Entry(Balance(l), 0.0)]
  {
  }

  /** Withdrawing the whole balance is accepted and empties the wallet. */
  lemma WithdrawWholeBalance(l: Ledger)
    requires Balance(l) >= 0.0
    ensures Withdraw(l, Balance(l)).result == Success(0.0)
    ensures Balance(Step(l, WithdrawOp(Balance(l)))) == 0.0
  {
  }

  /**
    Depositing an amount and withdrawing it again restores the balance and
    leaves two entries whose deltas cancel.
   */
  lemma DepositThenWithdrawRestores(l: Ledger, amount: real)
    requires amount >= 0.0
    requires Balance(l) >= 0.0
    ensures var l' := Run(l, [DepositOp(amount), WithdrawOp(amount)]);
      && Balance(l') == Balance(l)
      && l' == l + [Entry(Balance(l), amount), Entry(Balance(l) + amount, -amount)]
  {
    var l1 := Step(l, DepositOp(amount));
    var ops := [DepositOp(amount), WithdrawOp(amount)];
    assert ops[1..] == [WithdrawOp(amount)];
    assert Run(l, ops) == Run(l1, [WithdrawOp(amount)]);
    assert Run(l1, [WithdrawOp(amount)]) == Step(l1, WithdrawOp(amount));
  }
}
