/** The service's unit-test cases, stated for any wallet id: a wallet holding
    1000.00, and requests of 500.00, 300.00, 1500.00 and 100.00. Amounts are
    in 10^-4 units. */
module Scenarios {
  import opened Wrappers
  import opened Uuids
  import opened Wallets
  import opened Requests
  import opened WalletService

  const Thousand: int := 10_000_000
  const FiveHundred: int := 5_000_000
  const ThreeHundred: int := 3_000_000
  const FifteenHundred: int := 15_000_000
  const OneHundred: int := 1_000_000

  /** A store holding just the wallet `id` with balance 1000.00. */
  function Funded(id: Uuid): (s: Store)
    ensures id in s && s[id].balance == Thousand
  {
    map[id := NewWalletWithBalance(id, Some(Thousand))]
  }

  /** Depositing 500.00 into 1000.00 answers (id, 1500.00) with one save. */
  lemma DepositIncreasesBalance(id: Uuid)
    ensures var r := ProcessTransaction(Funded(id), WalletRequest(Some(id), Some(Deposit), Some(FiveHundred)));
            && r.Success?
            && r.value.response == Response(id, 15_000_000)
            && |r.value.saves| == 1
  {
  }

  /** Depositing 500.00 into an unknown id creates the wallet with two saves
      and answers (id, 500.00). */
  lemma DepositCreatesWallet(s: Store, id: Uuid)
    requires id !in s
    ensures var r := ProcessTransaction(s, WalletRequest(Some(id), Some(Deposit), Some(FiveHundred)));
            && r.Success?
            && r.value.response == Response(id, FiveHundred)
            && |r.value.saves| == 2
            && r.value.store.Keys == s.Keys + {id}
  {
  }

  /** Withdrawing 300.00 from 1000.00 answers (id, 700.00). */
  lemma WithdrawDecreasesBalance(id: Uuid)
    ensures var r := ProcessTransaction(Funded(id), WalletRequest(Some(id), Some(Withdraw), Some(ThreeHundred)));
            && r.Success?
            && r.value.response == Response(id, 7_000_000)
  {
  }

  /** Withdrawing 1500.00 from 1000.00 fails with insufficient funds, makes no
      save, and the store keeps 1000.00. */
  lemma WithdrawBeyondBalanceFails(id: Uuid)
    ensures var req := WalletRequest(Some(id), Some(Withdraw), Some(FifteenHundred));
            && ProcessTransaction(Funded(id), req) == Failure(InsufficientFunds(Thousand, FifteenHundred))
            && StoreAfter(Funded(id), req) == Funded(id)
  {
  }

  /** Withdrawing from an unknown id fails with not-found and creates nothing. */
  lemma WithdrawFromUnknownFails(s: Store, id: Uuid)
    requires id !in s
    ensures var req := WalletRequest(Some(id), Some(Withdraw), Some(OneHundred));
            && ProcessTransaction(s, req) == Failure(WalletNotFound(id))
            && id !in StoreAfter(s, req)
  {
  }

  /** A balance query answers (id, 1000.00) for the funded wallet and
      not-found for any id the store lacks. */
  lemma QueryAnswers(id: Uuid, other: Uuid)
    requires other != id
    ensures GetBalance(Funded(id), id) == Success(Response(id, Thousand))
    ensures GetBalance(Funded(id), other) == Failure(WalletNotFound(other))
  {
  }
}
