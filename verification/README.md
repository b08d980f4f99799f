# Online wallet balance engine — Dafny model

This project models the balance engine of the Betsson online-wallet service
(`OnlineWalletService`). The wallet never stores a running total. It keeps an
append-only ledger of entries `{BalanceBefore, Amount}` in a repository that
offers two calls: "get the last entry" and "insert an entry".

- **GetBalance** reads the last entry once and reports `BalanceBefore + Amount`.
- **Deposit** reads the balance, inserts `{balance, amount}` and returns `balance + amount`.
- **Withdraw** reads the balance. If the amount exceeds it, it fails with
  `InsufficientBalance` and inserts nothing. Otherwise it inserts
  `{balance, -amount}` and returns `balance - amount`.

The service's behaviour is specified here by its unit tests (`OnlineWalletsServiceTests/OnlineWalletServiceTests.cs`),
which run it against a stubbed repository and check the returned balance and
how often each repository call was made.

Layout:

- `wrappers.dfy` — `Option` and `Result`.
- `ledger.dfy` — `Entry`, the ledger as `seq<Entry>`, and the repository.
  The repository is modelled as a trace of `StoreCall`s (`ReadLast`,
  `Insert(entry)`). `Commit` applies a trace to the ledger. `Reads` and
  `Inserted` count what a trace does, matching the tests' `Times.Once` and
  `Times.Never` checks.
- `wallet.dfy` — `Balance`, `GetBalance`, `Deposit` and `Withdraw`. Each
  operation returns a `Reply`: its result together with the store calls it made.
- `history.dfy` — sequences of requests (`Run`) and the invariants the ledger
  keeps across them: it is append-only, chained and solvent.
- `scenarios.dfy` — each unit test, stated for every ledger whose last entry is
  the stubbed one.

Modelling decisions:

- Money is `real`. C# `decimal` is a decimal floating-point type (a 96-bit
  mantissa with a scale of 0 to 28). The engine only adds, subtracts, negates
  and compares amounts, so within decimal's 28–29 significant digits its
  results are exact, and exact `real` arithmetic models them. The range and
  precision limits are listed under "Left out".
- The empty ledger has balance zero. The unit tests never exercise this case.
  `Balance` keeps it as a separate, marked case.
- A withdrawal is refused only when `amount > balance`. Withdrawing exactly the
  balance succeeds and leaves zero (`History.WithdrawWholeBalance`).
- A negative deposit is rejected by the web layer with a bad-request answer
  before the engine is called
  (`Betsson.OnlineWalletsController.ApiTests/OnlineWalletControllerTests.cs:91-101`).
  No test shows the same for a withdrawal; the model assumes the same boundary
  rule there. Both rules are the precondition `amount >= 0.0` on `Deposit` and
  `Withdraw` (see "Left out" for what this leaves unmodelled).
- Zero withdrawal: because a withdrawal is refused when `amount > balance`, a
  zero withdrawal is refused on a store whose balance is negative.
  `History.ZeroWithdrawalIsRecorded` states that it succeeds exactly when the
  balance is non-negative. `History.RunKeepsBalanceNonNegative` shows the engine
  never turns a non-negative balance negative, whatever older entries the store
  holds, so a negative balance can only come from a hand-seeded store.

## Model

| member | source | states |
|---|---|---|
| Ledger.LastEntry | OnlineWalletsServiceTests/OnlineWalletServiceTests.cs:47-49 | the repository's last-entry read answers nothing exactly when the store is empty, and otherwise the entry the store ends with |
| Ledger.Commit | OnlineWalletsServiceTests/OnlineWalletServiceTests.cs:68-77 | serving a trace of repository calls leaves the old ledger as a prefix and appends exactly the inserted entries, in order; reads change nothing |
| Wallet.GetBalance | OnlineWalletsServiceTests/OnlineWalletServiceTests.cs:38-57 | the balance is the last entry's BalanceBefore + Amount, or zero for an empty store; it reads the last entry exactly once, inserts nothing and leaves the store unchanged |
| Wallet.Deposit | OnlineWalletsServiceTests/OnlineWalletServiceTests.cs:60-98 | a deposit always succeeds, returns the previous balance plus the amount, reads once, inserts exactly one entry {previous balance, amount}, and the returned balance is what a re-read of the store reports |
| Wallet.Withdraw | OnlineWalletsServiceTests/OnlineWalletServiceTests.cs:102-157 | a withdrawal fails with InsufficientBalance if and only if the amount exceeds the balance, and then inserts nothing and leaves the store unchanged; otherwise it returns the balance minus the amount (never negative), inserts exactly one entry {previous balance, -amount}, and a re-read of the store reports the returned balance |
| History.BalanceIsOpeningPlusDeltas | OnlineWalletsServiceTests/OnlineWalletServiceTests.cs:38-55 | on a non-empty ledger where each entry starts from the previous entry's after-balance, the last-entry balance equals the opening balance plus the sum of all recorded amounts |
| History.StepAppendsAtMostOne | OnlineWalletsServiceTests/OnlineWalletServiceTests.cs:60-157 | one request either leaves the store unchanged or appends exactly one entry starting from the balance read; earlier entries are untouched and a balance query changes nothing |
| History.StepKeepsChained | OnlineWalletsServiceTests/OnlineWalletServiceTests.cs:60-119 | every request keeps the ledger chained: each new entry's BalanceBefore is the previous entry's after-balance |
| History.StepKeepsSolvent | OnlineWalletsServiceTests/OnlineWalletServiceTests.cs:102-136 | on a ledger with no negative balances, no request records a negative before- or after-balance, so the balance stays non-negative |
| History.RunIsAppendOnly | OnlineWalletsServiceTests/OnlineWalletServiceTests.cs:60-157 | over any sequence of requests the original ledger stays a prefix and the ledger grows by at most one entry per request |
| History.RunKeepsChained | OnlineWalletsServiceTests/OnlineWalletServiceTests.cs:60-119 | any sequence of requests keeps a chained ledger chained from the same opening balance |
| History.RunKeepsSolvent | OnlineWalletsServiceTests/OnlineWalletServiceTests.cs:102-136 | any sequence of requests keeps a solvent ledger solvent, and its final balance is non-negative |
| History.StepKeepsBalanceNonNegative | OnlineWalletsServiceTests/OnlineWalletServiceTests.cs:102-136 | from a non-negative balance, no single request leaves a negative balance, whatever older entries the store holds |
| History.RunKeepsBalanceNonNegative | OnlineWalletsServiceTests/OnlineWalletServiceTests.cs:102-136 | any sequence of requests starting from a non-negative balance ends at a non-negative balance, whatever older entries the store holds |
| History.EngineLedgerFromEmpty | OnlineWalletsServiceTests/OnlineWalletServiceTests.cs:60-157 | a ledger built by the engine from an empty store is chained from zero, holds no negative balance, and its balance equals the sum of its amounts |
| History.GetBalanceIsIdempotent | OnlineWalletsServiceTests/OnlineWalletServiceTests.cs:52-56 | two balance queries in a row make two last-entry reads and no insert, leave the store unchanged, and report the same balance |
| History.ZeroDepositIsRecorded | OnlineWalletsServiceTests/OnlineWalletServiceTests.cs:81-98 | a zero deposit keeps the balance but still appends one entry {balance, 0} |
| History.ZeroWithdrawalIsRecorded | OnlineWalletsServiceTests/OnlineWalletServiceTests.cs:140-157 | a zero withdrawal succeeds exactly when the balance is non-negative; it then keeps the balance and still appends one zero-amount entry |
| History.WithdrawWholeBalance | OnlineWalletsServiceTests/OnlineWalletServiceTests.cs:123-136 | at the refusal boundary, withdrawing exactly the balance is accepted and leaves a zero balance |
| History.DepositThenWithdrawRestores | OnlineWalletsServiceTests/OnlineWalletServiceTests.cs:60-119 | depositing and then withdrawing the same amount restores the balance and appends two entries whose amounts cancel |
| Scenarios.BalanceOfStubbedEntry | OnlineWalletsServiceTests/OnlineWalletServiceTests.cs:23-57 | whatever entries precede it, a last entry {100, 50} gives balance 150 after one read and no insert |
| Scenarios.DepositIncreasesBalance | OnlineWalletsServiceTests/OnlineWalletServiceTests.cs:60-78 | last entry {300, 200}, deposit 100 gives 600 with exactly one insert |
| Scenarios.ZeroDepositKeepsBalance | OnlineWalletsServiceTests/OnlineWalletServiceTests.cs:81-99 | last entry {200, 100}, deposit 0 gives 300 with exactly one insert |
| Scenarios.WithdrawalDecreasesBalance | OnlineWalletsServiceTests/OnlineWalletServiceTests.cs:102-120 | last entry {300, 200}, withdraw 50 gives 450 with exactly one insert |
| Scenarios.WithdrawalBeyondBalanceFails | OnlineWalletsServiceTests/OnlineWalletServiceTests.cs:123-137 | last entry {200, 100}, withdraw 500 fails with InsufficientBalance and inserts nothing |
| Scenarios.ZeroWithdrawalKeepsBalance | OnlineWalletsServiceTests/OnlineWalletServiceTests.cs:140-158 | last entry {300, 200}, withdraw 0 gives 500 with exactly one insert |
| Scenarios.DepositThenWithdrawScenario | OnlineWalletsServiceTests/OnlineWalletServiceTests.cs:26-137 | starting from the stubbed last entry {100, 50} of lines 26-34, a worked example of the deposit and withdrawal rules of lines 60-137: deposit 100 records {150, 100} and gives 250; withdraw 500 is refused and leaves the store as it was; withdraw 250 gives exactly 0 |

## Left out

- Asynchrony (`Task`, `await`): every operation is a pure function of the ledger.
- Concurrency: two requests that read the same last entry and then both insert (a lost update) cannot occur in this sequential model.
- Repository failures and persistence: store I/O errors only propagate through the engine, so they are not modelled. The store is a plain sequence.
- Decimal range and precision: C# `decimal` overflows beyond about 7.9e28 and keeps at most 28–29 significant digits. The model uses unbounded exact `real`s.
- Web layer: HTTP routing, status codes, DTO mapping and dependency injection. Its one rule, refusing a negative deposit, is the `amount >= 0.0` precondition. The controller test that only rethrows a stubbed `InsufficientBalance` adds no engine behaviour.
- Wallet.Withdraw: negative amounts are excluded by the `amount >= 0.0` precondition, which assumes the web layer refuses a negative withdrawal as it refuses a negative deposit. No shown source line confirms that. If the service were called with a negative amount, the `amount > balance` test would let it through, and it would record a positive delta and credit the wallet (withdrawing -100 on balance 300 would insert {300, 100} and return 400). The model does not describe that case.
