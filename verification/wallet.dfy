/** The wallet entity: an id, a balance in 10^-4 units and the optimistic-lock
    version. The creation and update timestamps are set by the persistence
    layer and are not part of this model. */
module Wallets {
  import opened Wrappers
  import opened Uuids

  datatype Wallet = Wallet(id: Uuid, balance: int, version: nat)

  /** The only error the entity raises: an attempt to store a negative balance. */
  datatype WalletError = NegativeBalance

  const NegativeBalanceMessage: string := "Balance cannot be negative"

  /** `new Wallet(id)`: the field defaults, balance zero and version zero. */
  function NewWallet(id: Uuid): (w: Wallet)
    ensures w.id == id
    ensures w.balance == 0 && w.version == 0
  {
    Wallet(id, 0, 0)
  }

  /** `new Wallet(id, balance)`: a null balance means zero. The constructor does
      not check the sign, so a negative balance is accepted here. */
  function NewWalletWithBalance(id: Uuid, balance: Option<int>): (w: Wallet)
    ensures w.id == id && w.version == 0
    ensures balance.Some? ==> w.balance == balance.value
    ensures balance.None? ==> w.balance == 0
  {
    Wallet(id, balance.ValueOr(0), 0)
  }

  /** `setBalance`: null stores zero, a negative value is rejected and leaves
      the wallet as it was, anything else is stored exactly. */
  function SetBalance(w: Wallet, balance: Option<int>): (r: Result<Wallet, WalletError>)
    ensures r.Failure? <==> balance.Some? && balance.value < 0
    ensures r.Success? ==> r.value.id == w.id && r.value.version == w.version
    ensures r.Success? ==> r.value.balance >= 0
    ensures r.Success? && balance.Some? ==> r.value.balance == balance.value
    ensures balance.None? ==> r.Success? && r.value.balance == 0
  {
    match balance
    case None => Success(w.(balance := 0))
    case Some(b) => if b < 0 then Failure(NegativeBalance) else Success(w.(balance := b))
  }

  /** The two constructors agree when the explicit balance is zero or null. */
  lemma ConstructorsAgree(id: Uuid)
    ensures NewWallet(id) == NewWalletWithBalance(id, Some(0))
    ensures NewWallet(id) == NewWalletWithBalance(id, None)
  {
  }

  /** Setting a balance twice is the same as setting it once. */
  lemma SetBalanceIdempotent(w: Wallet, balance: Option<int>)
    requires SetBalance(w, balance).Success?
    ensures SetBalance(SetBalance(w, balance).value, balance) == SetBalance(w, balance)
  {
  }

  /** Writing back a wallet's own non-negative balance changes nothing. */
  lemma SetOwnBalance(w: Wallet)
    requires w.balance >= 0
    ensures SetBalance(w, Some(w.balance)) == Success(w)
  {
  }
}
