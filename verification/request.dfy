/** The transaction request body and the Bean Validation constraints declared
    on it. The datatype's fields are the request's getters: each returns
    exactly the value the request was built with. */
module Requests {
  import opened Wrappers
  import opened Uuids
  import opened Money

  datatype OperationType = Deposit | Withdraw

  /** Every field may be missing (null) when the body is decoded. */
  datatype WalletRequest = WalletRequest(
    walletId: Option<Uuid>,
    operationType: Option<OperationType>,
    amount: Option<int>)

  /** One violated constraint: the field name and the constraint's message. */
  datatype FieldError = FieldError(field: string, message: string)

  const WalletIdRequired := FieldError("walletId", "walletId is required")
  const OperationTypeRequired := FieldError("operationType", "operationType is required")
  const AmountRequired := FieldError("amount", "amount is required")
  const AmountNotPositive := FieldError("amount", "amount must be positive")
  const AmountBelowMinimum := FieldError("amount", "Amount must be greater than 0")

  /** The request the validator accepts: all three fields present, and an
      amount that is positive and at least 0.01. */
  predicate IsValid(req: WalletRequest)
  {
    && req.walletId.Some?
    && req.operationType.Some?
    && req.amount.Some?
    && req.amount.value > 0
    && req.amount.value >= MinimumAmount
  }

  /** The violations of the amount's constraints. A null amount violates only
      the not-null constraint: the positivity and minimum constraints treat
      null as valid. */
  function AmountErrors(amount: Option<int>): (errs: seq<FieldError>)
    ensures forall e :: e in errs ==> e.field == "amount"
    ensures |errs| == 0 <==> amount.Some? && amount.value > 0 && amount.value >= MinimumAmount
    ensures AmountRequired in errs <==> amount.None?
    ensures AmountNotPositive in errs <==> amount.Some? && amount.value <= 0
    ensures AmountBelowMinimum in errs <==> amount.Some? && amount.value < MinimumAmount
  {
    match amount
    case None => [AmountRequired]
    case Some(a) =>
      (if a <= 0 then [AmountNotPositive] else [])
      + (if a < MinimumAmount then [AmountBelowMinimum] else [])
  }

  /** The violations the validator reports, in declaration order. */
  function FieldErrors(req: WalletRequest): (errs: seq<FieldError>)
    ensures |errs| == 0 <==> IsValid(req)
    ensures WalletIdRequired in errs <==> req.walletId.None?
    ensures OperationTypeRequired in errs <==> req.operationType.None?
    ensures AmountRequired in errs <==> req.amount.None?
    ensures AmountNotPositive in errs <==> req.amount.Some? && req.amount.value <= 0
    ensures AmountBelowMinimum in errs <==> req.amount.Some? && req.amount.value < MinimumAmount
  {
    var ids := if req.walletId.None? then [WalletIdRequired] else [];
    var types := if req.operationType.None? then [OperationTypeRequired] else [];
    var amounts := AmountErrors(req.amount);
    assert WalletIdRequired !in amounts && OperationTypeRequired !in amounts;
    ids + types + amounts
  }
}
