/** The two endpoints as the client sees them: request validation in front of
    the engine, and every escaping exception routed through the global
    exception handler. */
module Api {
  import opened Wrappers
  import opened Uuids
  import opened Requests
  import opened WalletService
  import opened ExceptionHandler

  const StatusOk: int := 200

  /** A reply: 200 with the wallet body, or an error reply. */
  datatype Reply = Ok(response: Response) | Error(error: HttpError)

  function StatusOf(reply: Reply): int
  {
    if reply.Ok? then StatusOk else reply.error.status
  }

  /** Which handler an engine exception reaches. The entity's negative-balance
      rejection has no handler of its own and falls to the catch-all. */
  function FaultOf(e: ServiceError): (f: Fault)
    ensures e.WalletNotFound? <==> f.WalletNotFoundFault?
    ensures e.InsufficientFunds? <==> f.InsufficientFundsFault?
    ensures e.InvalidBalance? <==> f.Unexpected?
    ensures f.message == ErrorMessage(e)
  {
    match e
    case WalletNotFound(_) => WalletNotFoundFault(ErrorMessage(e))
    case InsufficientFunds(_, _) => InsufficientFundsFault(ErrorMessage(e))
    case InvalidBalance => Unexpected(ErrorMessage(e))
  }

  /** `POST /api/v1/wallet`: validate the body, run the transaction, and
      return the new store with the reply. */
  function PostTransaction(s: Store, req: WalletRequest, path: string): (r: (Store, Reply))
    ensures r.1.Error? ==> r.0 == s
    ensures !IsValid(req)
            ==> && r.1.Error?
                && r.1.error.status == BadRequest
                && r.1.error.body.error == "Validation failed"
                && r.1.error.body.message == ValidationMessage(FieldErrors(req))
    ensures r.1.Ok? <==> IsValid(req) && ProcessTransaction(s, req).Success?
    ensures r.1.Ok? ==> && r.0 == ProcessTransaction(s, req).value.store
                        && r.1.response == ProcessTransaction(s, req).value.response
    ensures IsValid(req) && ProcessTransaction(s, req).Failure?
            ==> r.1 == Error(Handle(FaultOf(ProcessTransaction(s, req).error), path))
  {
    if !IsValid(req) then (s, Error(Handle(ValidationFault(FieldErrors(req)), path)))
    else
      match ProcessTransaction(s, req)
      case Success(o) => (o.store, Ok(o.response))
      case Failure(e) => (s, Error(Handle(FaultOf(e), path)))
  }

  /** `GET /api/v1/wallets/{walletId}`. */
  function GetWallet(s: Store, id: Uuid, path: string): (r: Reply)
    ensures r.Ok? <==> id in s
    ensures r.Ok? ==> r.response == Response(id, s[id].balance)
    ensures r.Error? ==> && r.error.status == NotFound
                         && r.error.body.message == ErrorMessage(WalletNotFound(id))
  {
    match GetBalance(s, id)
    case Success(resp) => Ok(resp)
    case Failure(e) => Error(Handle(FaultOf(e), path))
  }

  /** A zero or negative amount is refused with "Validation failed" before the
      engine runs, and the store is unchanged. */
  lemma NonPositiveAmountRejected(s: Store, req: WalletRequest, path: string)
    requires req.amount.Some? && req.amount.value <= 0
    ensures var r := PostTransaction(s, req, path);
            && r.0 == s
            && StatusOf(r.1) == BadRequest
            && r.1.error.body.error == "Validation failed"
            && r.1.error.body.message != ValidationFallback
  {
    var errs := FieldErrors(req);
    assert AmountNotPositive in errs;
  }

  /** A valid request meets the engine's precondition and carries a positive amount. */
  lemma ValidRequestIsAdmissible(req: WalletRequest)
    requires IsValid(req)
    ensures Admissible(req)
    ensures req.amount.value > 0
  {
  }

  /** Every reply carries its own status in the body, and a committed
      transaction is the only way to get a 200 from the POST endpoint. */
  lemma ReplyStatusConsistent(s: Store, req: WalletRequest, path: string)
    ensures var r := PostTransaction(s, req, path);
            && (r.1.Error? ==> r.1.error.body.status == StatusOf(r.1))
            && (StatusOf(r.1) == StatusOk <==> r.1.Ok?)
  {
  }
}
