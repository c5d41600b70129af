# Wallet service: a Dafny model of the balance-mutation core

This project models the core of a small Spring wallet service. Each wallet
holds one decimal balance. `processTransaction` applies a DEPOSIT or WITHDRAW
to a wallet, creating the wallet on its first deposit. `getBalance` reads a
balance. `setBalance` refuses negative balances; the two-argument
constructor does not check the sign. The request body carries
validation constraints. A global exception handler turns every exception into
an HTTP error reply.

Everything is modelled sequentially, as pure functions over immutable values:

- **Store.** The wallet table is a `map<Uuid, Wallet>` whose keys are the
  wallets' own ids (`WalletService.Store`).
- **Money.** Balances and amounts are `int` counts of 10^-4 units. This is
  the `DECIMAL(19, 4)` column scale, so 1000.00 is 10 000 000. No floating
  point appears anywhere.
- **Errors.** An operation returns `Success(Outcome)` or `Failure(error)`. A
  failure carries no store: the transaction rolls back, and the caller keeps
  the store it had. `Outcome.saves` lists every wallet written with
  `repository.save`, in order, so the save counts can be stated.
- **Request fields.** The request's fields are optional because JSON
  decoding may leave them null. The datatype's fields are its getters.
- **Operation type.** The engine tests `operationType == DEPOSIT`, so a
  missing operation type takes the withdrawal path (`IsDeposit`).
- **Error text.** Messages are built the way the source builds them. The
  wallet id is rendered in canonical UUID form. Balances are rendered as
  scale-4 decimals. Both renderings come with inverse readers and proved
  round trips. The not-found message reads back to its wallet id, and the
  insufficient-funds message reads back to both its balance and its required
  amount, so distinct errors give distinct messages (`ErrorMessageInjective`).

Modules:

- `Digits`: positional notation.
- `Uuids`: `UUID.toString`.
- `Money`: scale-4 decimals.
- `Wallets`: the entity.
- `Requests`: the request DTO and its constraints.
- `WalletService`: the engine.
- `Ledger`: runs of many transactions.
- `ExceptionHandler`: the global handler.
- `Api`: the two endpoints, which wire validation, the engine and the handler together.

A non-positive amount is stopped by request validation ("Validation failed",
400). A storage failure other than an optimistic-lock conflict is an ordinary
exception and reaches the catch-all handler (500).

## Model

| member | source | states |
|---|---|---|
| `Uuids.UuidText` | src/main/java/com/example/wallet/service/impl/WalletServiceImpl.java:44 | the id in the not-found message has 36 characters: dashes at positions 8, 13, 18 and 23 and lower-case hex digits everywhere else |
| `Uuids.UuidTextRoundTrip` | src/main/java/com/example/wallet/service/impl/WalletServiceImpl.java:44 | reading the text form back gives the original id, so distinct wallets get distinct messages |
| `Money.DecimalText` | src/main/java/com/example/wallet/service/impl/WalletServiceImpl.java:62-65 | a balance prints as a non-empty run of decimal digits, a point and exactly four decimal digits, with a leading minus exactly when it is negative |
| `Money.DecimalTextRoundTrip` | src/main/java/com/example/wallet/service/impl/WalletServiceImpl.java:62-65 | the printed amount reads back to the exact amount, with no rounding |
| `Wallets.NewWallet` | src/main/java/com/example/wallet/model/Wallet.java:36-39 | `Wallet(id)` keeps the id and starts with balance 0 and version 0 |
| `Wallets.NewWalletWithBalance` | src/main/java/com/example/wallet/model/Wallet.java:42-45 | `Wallet(id, balance)` takes the given balance, negative ones included, or 0 when it is null; the version starts at 0 |
| `Wallets.SetBalance` | src/main/java/com/example/wallet/model/Wallet.java:52-60 | fails exactly when the new balance is negative; otherwise stores it exactly (0 for null), never goes negative, and keeps id and version |
| `Wallets.ConstructorsAgree` | src/main/java/com/example/wallet/model/Wallet.java:36-45 | both constructors build the same wallet when the explicit balance is 0 or null |
| `Wallets.SetBalanceIdempotent` | src/main/java/com/example/wallet/model/Wallet.java:52-60 | setting a balance a second time changes nothing |
| `Wallets.SetOwnBalance` | src/main/java/com/example/wallet/model/Wallet.java:52-60 | writing back a wallet's own non-negative balance leaves it unchanged |
| `Requests.IsValid` | src/main/java/com/example/wallet/controller/dto/WalletRequest.java:14-23 | a request is valid when id, operation type and amount are all present and the amount is positive and at least 0.01; `FieldErrors` is empty exactly on these requests |
| `Requests.FieldErrors` | src/main/java/com/example/wallet/controller/dto/WalletRequest.java:14-23 | no violation is reported exactly when the request is valid; each constraint's error appears exactly when its field is null, the amount is not positive, or it is below 0.01 |
| `Requests.AmountErrors` | src/main/java/com/example/wallet/controller/dto/WalletRequest.java:20-23 | a null amount is reported only as required, a non-positive one as not positive, one below 0.01 as below the minimum; no error exactly when the amount is present, positive and at least 0.01 |
| `WalletService.Save` | src/main/java/com/example/wallet/service/impl/WalletServiceImpl.java:73-74 | a save puts the wallet under its own id and leaves every other row as it was |
| `WalletService.NotFoundMessage` | src/main/java/com/example/wallet/service/impl/WalletServiceImpl.java:44 | the message starts with "Wallet not found: " and the wallet id can be read back from the rest |
| `WalletService.InsufficientFundsMessage` | src/main/java/com/example/wallet/service/impl/WalletServiceImpl.java:62-65 | the message starts with "Insufficient funds. Current balance: ", and splitting it at its first ',' reads back both the current balance and the required amount exactly |
| `WalletService.InsufficientFundsMessageInjective` | src/main/java/com/example/wallet/service/impl/WalletServiceImpl.java:62-65 | two insufficient-funds messages are equal only when their balances and required amounts are equal |
| `WalletService.ErrorMessage` | src/main/java/com/example/wallet/service/impl/WalletServiceImpl.java:44-65 | the engine's exception texts: "Wallet not found: <id>", the insufficient-funds text, and the entity's "Balance cannot be negative" |
| `WalletService.ErrorMessageInjective` | src/main/java/com/example/wallet/service/impl/WalletServiceImpl.java:44-65 | two engine errors with the same message are the same error, across kinds as well as within one |
| `WalletService.IsDeposit` | src/main/java/com/example/wallet/service/impl/WalletServiceImpl.java:38-50 | the engine's `== OperationType.DEPOSIT` test: only DEPOSIT takes the deposit path, and every other value, null included, takes the withdrawal path |
| `WalletService.ProcessTransaction` | src/main/java/com/example/wallet/service/impl/WalletServiceImpl.java:29-77 | three failure cases, each stated in both directions: not found for a withdrawal from a missing wallet; insufficient funds exactly when balance < amount; a negative-balance rejection exactly when a deposit would go below zero. On success the balance is old + amount or old − amount, and a withdrawal equal to the balance leaves 0. The response is (id, new balance), the wallet exists afterwards and keeps its version, and every other wallet is unchanged. Non-negativity is preserved. The store equals the logged saves replayed: one save for an existing wallet, two (the zero wallet first) for a new one |
| `WalletService.GetBalance` | src/main/java/com/example/wallet/service/impl/WalletServiceImpl.java:79-92 | succeeds exactly when the wallet exists, returning its id and stored balance; otherwise reports WalletNotFound for that id; it returns no store, so it cannot change one |
| `Ledger.Run` | src/main/java/com/example/wallet/service/impl/WalletServiceImpl.java:29-77 | a run of transactions records one step per request, and keeps every balance non-negative when it starts so |
| `Ledger.StepEffect` | src/main/java/com/example/wallet/service/impl/WalletServiceImpl.java:36-74 | one call moves any wallet's balance by exactly its committed deposit minus its committed withdrawal, and only a committed call on a wallet can create it |
| `Ledger.BalanceIsNetOfAccepted` | src/main/java/com/example/wallet/service/impl/WalletServiceImpl.java:36-74 | after any sequence of calls, each balance equals its starting balance plus the accepted deposits minus the accepted withdrawals on it; a wallet exists at the end exactly when it existed before or some call committed on it |
| `Ledger.BalanceNeverNegative` | src/main/java/com/example/wallet/service/impl/WalletServiceImpl.java:59-68 | from non-negative balances, no sequence of calls makes any balance negative |
| `Ledger.RepeatedDeposits` | src/main/java/com/example/wallet/service/impl/WalletServiceImpl.java:36-52 | n deposits of a positive amount a all commit and raise the balance by exactly n·a, so a new wallet ends at n·a |
| `Ledger.DepositCommits` | src/main/java/com/example/wallet/service/impl/WalletServiceImpl.java:50-52 | a positive deposit into a store with non-negative balances always commits |
| `Ledger.DepositThenWithdraw` | src/main/java/com/example/wallet/service/impl/WalletServiceImpl.java:49-74 | depositing and then withdrawing the same amount on an existing wallet restores its balance, every other wallet and the set of wallet ids |
| `Ledger.CreationHappensOnce` | src/main/java/com/example/wallet/service/impl/WalletServiceImpl.java:36-46 | a first deposit on an unknown id adds exactly one wallet with two saves; a second deposit updates that wallet with one save and adds none |
| `Ledger.QueryAfterCommit` | src/main/java/com/example/wallet/service/impl/WalletServiceImpl.java:73-91 | a balance query right after a committed call returns the same body the call returned |
| `ExceptionHandler.ValidationMessage` | src/main/java/com/example/wallet/exception/GlobalExceptionHandler.java:65-68 | the message is the first field error as `field: message`, or "Validation error" when there is none |
| `ExceptionHandler.Label` | src/main/java/com/example/wallet/exception/GlobalExceptionHandler.java:20-148 | the error label each of the nine handlers writes into the body, from "Wallet not found" to "Internal server error"; `LabelIdentifiesKind` shows the nine are pairwise distinct |
| `ExceptionHandler.Handle` | src/main/java/com/example/wallet/exception/GlobalExceptionHandler.java:20-148 | the body's status always equals the reply status and the body's path is the request path. 404 exactly for wallet-not-found, 409 exactly for optimistic-lock conflicts, 500 exactly for unhandled exceptions, 400 exactly for client faults. Exception messages pass through unchanged for not-found, insufficient-funds, invalid-request and constraint violations; the other kinds carry fixed or derived texts |
| `ExceptionHandler.LabelIdentifiesKind` | src/main/java/com/example/wallet/exception/GlobalExceptionHandler.java:20-148 | two replies with the same error label come from the same handler and carry the same status |
| `ExceptionHandler.UnexpectedHidesDetail` | src/main/java/com/example/wallet/exception/GlobalExceptionHandler.java:136-148 | the reply to an unhandled exception does not depend on its message, so no error detail reaches the client |
| `ExceptionHandler.ValidationMessageUsesFirstError` | src/main/java/com/example/wallet/exception/GlobalExceptionHandler.java:65-68 | only the first field error affects the validation message |
| `Api.FaultOf` | src/main/java/com/example/wallet/exception/GlobalExceptionHandler.java:136-148 | not-found and insufficient-funds reach their own handlers; the entity's negative-balance rejection has none and falls to the catch-all; the exception message is kept |
| `Api.PostTransaction` | src/main/java/com/example/wallet/controller/WalletController.java:22-27 | an invalid request is answered with 400 "Validation failed" and the first field error, before the engine runs. The reply is 200 exactly when the request is valid and the transaction commits. Every error reply leaves the store unchanged |
| `Api.GetWallet` | src/main/java/com/example/wallet/controller/WalletController.java:29-34 | 200 with (id, balance) exactly when the wallet exists, otherwise 404 with the not-found message |
| `Api.NonPositiveAmountRejected` | src/main/java/com/example/wallet/controller/dto/WalletRequest.java:20-23 | a zero or negative amount gets 400 "Validation failed" with a field error, and the store is unchanged |
| `Api.ValidRequestIsAdmissible` | src/main/java/com/example/wallet/controller/dto/WalletRequest.java:14-23 | a valid request meets the engine's precondition (id and amount present) with a positive amount |
| `Api.ReplyStatusConsistent` | src/main/java/com/example/wallet/controller/WalletController.java:22-27 | every POST error reply carries its own status in the body, and the status is 200 exactly when the reply is a success |
| `Scenarios.DepositIncreasesBalance` | src/test/java/WalletServiceImplTest.java:43-64 | depositing 500.00 into a wallet holding 1000.00 answers (id, 1500.00) with one save |
| `Scenarios.DepositCreatesWallet` | src/test/java/WalletServiceImplTest.java:66-90 | depositing 500.00 into an unknown id answers (id, 500.00) after two saves and adds exactly that id |
| `Scenarios.WithdrawDecreasesBalance` | src/test/java/WalletServiceImplTest.java:92-111 | withdrawing 300.00 from 1000.00 answers (id, 700.00) |
| `Scenarios.WithdrawBeyondBalanceFails` | src/test/java/WalletServiceImplTest.java:113-132 | withdrawing 1500.00 from 1000.00 fails with insufficient funds carrying both amounts, and the store is unchanged |
| `Scenarios.WithdrawFromUnknownFails` | src/test/java/WalletServiceImplTest.java:134-152 | withdrawing from an unknown id fails with not-found and creates no wallet |
| `Scenarios.QueryAnswers` | src/test/java/WalletServiceImplTest.java:154-180 | a balance query answers (id, 1000.00) for the funded wallet and not-found for any other id |

## Left out

- Concurrency: the pessimistic `SELECT ... FOR UPDATE` lock, the `@Transactional` scopes and the lost-update guarantee are not modelled. Each call is one atomic step applied to the store in sequence. Optimistic-lock conflicts appear only as a fault kind of the exception handler.
- ProcessTransaction: does not model the version increment JPA performs on each update, because that happens inside the persistence layer. In the model, versions never change.
- Persistence and framework wiring: the repository, Hibernate, Liquibase configuration and application bootstrap are not modelled. The repository is reduced to a map with `Save` as upsert.
- Timestamps and logging: `createdAt`/`updatedAt`, the `LocalDateTime.now()` timestamp in error bodies, and all log output are not modelled. They are non-deterministic or have no effect on results.
- JSON and UUID parsing: malformed bodies and unparsable ids are not decoded. They appear only as the `UnreadableBody` and `TypeMismatch` fault kinds.
- Null id or null amount reaching the engine: the null-pointer failures the source would raise are not reproduced. The engine requires both fields (`Admissible`), and request validation guarantees them.
- Decimal range and rounding: the 19-digit precision limit of the balance column is not modelled, because balances are unbounded integers. Amounts with more than four fractional digits, which the column would round, are not representable either.
- Ledger.DepositThenWithdraw: states that the whole store is restored, which holds only because versions are frozen in the model. In the program each of the two updates raises `@Version`, so only the balances and the set of wallets come back.
- Money.DecimalText: prints every amount at the column scale of four digits. `BigDecimal` prints a request amount at the scale it was written in, for example `300.00`. The insufficient-funds message can therefore differ in trailing zeros.
- Requests.FieldErrors: lists violations in declaration order. Bean Validation does not fix an order, so "the first field error" in the source may be a different one when several fields fail.
- The no-argument `Wallet()` constructor and the `setId`, `setVersion` and timestamp setters are not modelled. They are used only by the persistence layer.
- The empty stub service class, the unused alternate wallet entity, and the `WalletResponse` DTO are not modelled separately. The DTO is folded into `WalletService.Response`.
