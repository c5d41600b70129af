/** The ledger engine (`WalletServiceImpl`): applies a deposit or a withdrawal
    to the wallet store, creating the wallet on its first deposit, and answers
    balance queries. Each call is one atomic unit of work: a `Failure` result
    carries no store, because the transaction rolls back and the store the
    caller holds stays as it was. */
module WalletService {
  import opened Wrappers
  import opened Uuids
  import opened Money
  import opened Wallets
  import opened Requests

  /** Every stored wallet sits under its own id (the table's primary key). */
  predicate WellKeyed(m: map<Uuid, Wallet>)
  {
    forall k :: k in m ==> m[k].id == k
  }

  /** The wallet table: at most one wallet per id, keyed by that id. */
  type Store = m: map<Uuid, Wallet> | WellKeyed(m) witness map[]

  /** The invariant the engine promises: no stored balance is negative. */
  predicate NonNegative(s: Store)
  {
    forall k :: k in s ==> s[k].balance >= 0
  }

  /** The balance stored for `id`, counting a missing wallet as zero. */
  function BalanceOf(s: Store, id: Uuid): int
  {
    if id in s then s[id].balance else 0
  }

  /** The response body (`WalletResponse`): the wallet's id and balance. */
  datatype Response = Response(walletId: Uuid, balance: int)

  /** The exceptions the engine lets escape. `InvalidBalance` is the
      entity's negative-balance rejection surfacing from a deposit. */
  datatype ServiceError =
    | WalletNotFound(walletId: Uuid)
    | InsufficientFunds(balance: int, required: int)
    | InvalidBalance

  predicate StartsWith(s: string, prefix: string)
  {
    |prefix| <= |s| && s[..|prefix|] == prefix
  }

  const WalletNotFoundPrefix: string := "Wallet not found: "
  const InsufficientFundsPrefix: string := "Insufficient funds. Current balance: "
  const RequiredSeparator: string := ", Required: "

  /** `DecimalText` never contains the ',' that opens `RequiredSeparator`. */
  lemma DecimalTextHasNoComma(v: int)
    ensures forall i :: 0 <= i < |DecimalText(v)| ==> DecimalText(v)[i] != ','
  {
  }

  /** The index of the first ',' in `s`, or `|s|` when there is none. */
  function CommaIndex(s: string): (k: nat)
    ensures k <= |s|
    ensures forall i :: 0 <= i < k ==> s[i] != ','
    ensures k < |s| ==> s[k] == ','
  {
    if |s| == 0 || s[0] == ',' then 0 else 1 + CommaIndex(s[1..])
  }

  /** "Wallet not found: " followed by the id in canonical form, so the id
      can be read back from the message. */
  function NotFoundMessage(id: Uuid): (m: string)
    ensures StartsWith(m, WalletNotFoundPrefix)
    ensures UuidOfText(m[|WalletNotFoundPrefix|..]) == id
  {
    var m := WalletNotFoundPrefix + UuidText(id);
    assert m[..|WalletNotFoundPrefix|] == WalletNotFoundPrefix;
    assert m[|WalletNotFoundPrefix|..] == UuidText(id);
    UuidTextRoundTrip(id);
    m
  }

  /** Reads the current balance and the required amount back from an
      insufficient-funds message: the balance runs from the prefix up to the
      first ',', and the required amount follows `RequiredSeparator`. */
  function InsufficientFundsOfMessage(m: string): Option<(int, int)>
  {
    if !StartsWith(m, InsufficientFundsPrefix) then None
    else
      var body := m[|InsufficientFundsPrefix|..];
      var k := CommaIndex(body);
      if k + |RequiredSeparator| > |body| || body[k..k + |RequiredSeparator|] != RequiredSeparator then None
      else Some((DecimalOfText(body[..k]), DecimalOfText(body[k + |RequiredSeparator|..])))
  }

  /** Splitting a message at its first ',' recovers the two texts joined
      around `RequiredSeparator`, provided the first has no ','. */
  lemma ReadMessageParts(b: string, r: string)
    requires forall i :: 0 <= i < |b| ==> b[i] != ','
    ensures InsufficientFundsOfMessage(InsufficientFundsPrefix + b + RequiredSeparator + r)
            == Some((DecimalOfText(b), DecimalOfText(r)))
  {
    var m := InsufficientFundsPrefix + b + RequiredSeparator + r;
    assert m[..|InsufficientFundsPrefix|] == InsufficientFundsPrefix;
    var body := m[|InsufficientFundsPrefix|..];
    assert body == b + RequiredSeparator + r;
    assert body[|b|] == ',';
    assert CommaIndex(body) == |b|;
    assert body[..|b|] == b;
    assert body[|b|..|b| + |RequiredSeparator|] == RequiredSeparator;
    assert body[|b| + |RequiredSeparator|..] == r;
  }

  /** "Insufficient funds. Current balance: <balance>, Required: <amount>";
      both amounts can be read back from the text. */
  function InsufficientFundsMessage(balance: int, required: int): (m: string)
    ensures StartsWith(m, InsufficientFundsPrefix)
    ensures InsufficientFundsOfMessage(m) == Some((balance, required))
  {
    var b := DecimalText(balance);
    var r := DecimalText(required);
    DecimalTextHasNoComma(balance);
    ReadMessageParts(b, r);
    DecimalTextRoundTrip(balance);
    DecimalTextRoundTrip(required);
    InsufficientFundsPrefix + b + RequiredSeparator + r
  }

  /** Different balances or required amounts give different messages. */
  lemma InsufficientFundsMessageInjective(b1: int, r1: int, b2: int, r2: int)
    ensures InsufficientFundsMessage(b1, r1) == InsufficientFundsMessage(b2, r2) ==> b1 == b2 && r1 == r2
  {
  }

  /** The exception message of each error. */
  function ErrorMessage(e: ServiceError): string
  {
    match e
    case WalletNotFound(id) => NotFoundMessage(id)
    case InsufficientFunds(balance, required) => InsufficientFundsMessage(balance, required)
    case InvalidBalance => NegativeBalanceMessage
  }

  /** Distinct errors carry distinct messages: the first character tells the
      kinds apart, and within a kind the message reads back to its data. */
  lemma ErrorMessageInjective(e1: ServiceError, e2: ServiceError)
    ensures ErrorMessage(e1) == ErrorMessage(e2) ==> e1 == e2
  {
    if e1.InsufficientFunds? && e2.InsufficientFunds? {
      InsufficientFundsMessageInjective(e1.balance, e1.required, e2.balance, e2.required);
    } else if e1.WalletNotFound? && e2.WalletNotFound? {
    } else if e1.InvalidBalance? && e2.InvalidBalance? {
    } else {
      assert ErrorMessage(e1)[0] != ErrorMessage(e2)[0];
    }
  }

  /** A committed transaction: the new store, the response, and every wallet
      written to the store, in order. */
  datatype Outcome = Outcome(store: Store, response: Response, saves: seq<Wallet>)

  /** `repository.save`: insert the wallet, or overwrite the row with its id. */
  function Save(s: Store, w: Wallet): (s': Store)
    ensures s'.Keys == s.Keys + {w.id}
    ensures s'[w.id] == w
    ensures s' - {w.id} == s - {w.id}
  {
    s[w.id := w]
  }

  /** The store after writing each wallet of `saves` in turn. */
  function Replay(s: Store, saves: seq<Wallet>): Store
  {
    if |saves| == 0 then s else Save(Replay(s, saves[..|saves| - 1]), saves[|saves| - 1])
  }

  /** What the engine needs of a request: an id to look up and an amount. */
  predicate Admissible(req: WalletRequest)
  {
    req.walletId.Some? && req.amount.Some?
  }

  /** The engine compares the operation type with DEPOSIT; every other value,
      null included, takes the withdrawal path. */
  predicate IsDeposit(req: WalletRequest)
  {
    req.operationType == Some(Deposit)
  }

  /** `processTransaction`: lock the wallet row, create the wallet if a
      deposit finds none, then add or subtract the amount and save. */
  function ProcessTransaction(s: Store, req: WalletRequest): (r: Result<Outcome, ServiceError>)
    requires Admissible(req)
    // The three ways it can fail, each exactly characterised.
    ensures r == Failure(WalletNotFound(req.walletId.value))
            <==> req.walletId.value !in s && !IsDeposit(req)
    ensures (r.Failure? && r.error.InsufficientFunds?)
            <==> !IsDeposit(req) && req.walletId.value in s && s[req.walletId.value].balance < req.amount.value
    ensures r.Failure? && r.error.InsufficientFunds?
            ==> r.error == InsufficientFunds(s[req.walletId.value].balance, req.amount.value)
    ensures r == Failure(InvalidBalance)
            <==> IsDeposit(req) && BalanceOf(s, req.walletId.value) + req.amount.value < 0
    // The new balance: old plus amount for a deposit, old minus amount for a
    // withdrawal, which needed an existing wallet holding at least the amount.
    ensures r.Success? && IsDeposit(req)
            ==> BalanceOf(r.value.store, req.walletId.value) == BalanceOf(s, req.walletId.value) + req.amount.value
    ensures r.Success? && !IsDeposit(req)
            ==> && req.walletId.value in s
                && s[req.walletId.value].balance >= req.amount.value
                && BalanceOf(r.value.store, req.walletId.value) == s[req.walletId.value].balance - req.amount.value
    // The request's wallet exists afterwards with a non-negative balance,
    // which the response reports.
    ensures r.Success? ==> r.value.store.Keys == s.Keys + {req.walletId.value}
    ensures r.Success? ==> r.value.store[req.walletId.value].balance >= 0
    ensures r.Success? ==> r.value.response == Response(req.walletId.value, r.value.store[req.walletId.value].balance)
    // Only the request's wallet is touched: it keeps its version, and every
    // other wallet is exactly as it was.
    ensures r.Success? ==> r.value.store - {req.walletId.value} == s - {req.walletId.value}
    ensures r.Success? && req.walletId.value in s
            ==> r.value.store[req.walletId.value].version == s[req.walletId.value].version
    ensures r.Success? && NonNegative(s) ==> NonNegative(r.value.store)
    // The writes: one save for an existing wallet; for a new one, first the
    // zero-balance wallet, then the updated one.
    ensures r.Success? ==> r.value.store == Replay(s, r.value.saves)
    ensures r.Success? ==> |r.value.saves| == if req.walletId.value in s then 1 else 2
    ensures r.Success? && req.walletId.value !in s ==> r.value.saves[0] == NewWallet(req.walletId.value)
  {
    var id := req.walletId.value;
    var amount := req.amount.value;
    var deposit := IsDeposit(req);
    if id !in s && !deposit then Failure(WalletNotFound(id))
    else
      var created := if id in s then [] else [NewWalletWithBalance(id, Some(0))];
      var locked := if id in s then s else Save(s, created[0]);
      assert locked == Replay(s, created) by {
        assert created == [] || created[..0] == [];
      }
      var wallet := locked[id];
      if !deposit && wallet.balance < amount then Failure(InsufficientFunds(wallet.balance, amount))
      else
        var newBalance := if deposit then wallet.balance + amount else wallet.balance - amount;
        match SetBalance(wallet, Some(newBalance))
        case Failure(_) => Failure(InvalidBalance)
        case Success(updated) =>
          assert created + [updated] == (created + [updated])[..|created|] + [updated];
          var saved := Save(locked, updated);
          Success(Outcome(saved, Response(updated.id, updated.balance), created + [updated]))
  }

  /** `getBalance`: a read-only lookup. */
  function GetBalance(s: Store, id: Uuid): (r: Result<Response, ServiceError>)
    ensures r.Success? <==> id in s
    ensures r.Success? ==> r.value.walletId == id && r.value.balance == s[id].balance
    ensures r.Failure? ==> r.error == WalletNotFound(id)
  {
    if id in s then Success(Response(s[id].id, s[id].balance)) else Failure(WalletNotFound(id))
  }

  /** The store after a call: the committed store, or the old one on rollback. */
  function StoreAfter(s: Store, req: WalletRequest): Store
    requires Admissible(req)
  {
    var r := ProcessTransaction(s, req);
    if r.Success? then r.value.store else s
  }
}
