/** The global exception handler: every exception that escapes a request is
    turned into an HTTP status and an error body carrying the same status, a
    label naming the kind of error, a message and the request path. The
    timestamp in the body is left out. */
module ExceptionHandler {
  import opened Requests

  const BadRequest: int := 400
  const NotFound: int := 404
  const Conflict: int := 409
  const InternalServerError: int := 500

  const ValidationFallback: string := "Validation error"
  const InvalidJsonMessage: string := "Request body contains invalid JSON"
  const InvalidParameterPrefix: string := "Invalid value for parameter: "
  const RetryMessage: string := "The wallet was modified by another transaction. Please retry."
  const UnexpectedMessage: string := "An unexpected error occurred"

  /** The exceptions the handler distinguishes, with what each handler reads
      from them. `Unexpected` is every other exception. */
  datatype Fault =
    | WalletNotFoundFault(message: string)
    | InsufficientFundsFault(message: string)
    | InvalidRequestFault(message: string)
    | ValidationFault(fieldErrors: seq<FieldError>)
    | UnreadableBody
    | TypeMismatch(parameter: string)
    | ConstraintViolationFault(message: string)
    | OptimisticLockFault
    | Unexpected(message: string)

  datatype ErrorBody = ErrorBody(status: int, error: string, message: string, path: string)

  /** The status line and the body of an error reply. */
  datatype HttpError = HttpError(status: int, body: ErrorBody)

  /** Faults whose message the handler copies into the body unchanged. */
  predicate PassesMessage(f: Fault)
  {
    f.WalletNotFoundFault? || f.InsufficientFundsFault? || f.InvalidRequestFault? || f.ConstraintViolationFault?
  }

  /** Faults caused by what the client sent, as opposed to a missing
      resource, a lost race or a server fault. */
  predicate IsClientFault(f: Fault)
  {
    !(f.WalletNotFoundFault? || f.OptimisticLockFault? || f.Unexpected?)
  }

  /** The two faults are of the same kind (same handler). */
  predicate SameKind(f: Fault, g: Fault)
  {
    && (f.WalletNotFoundFault? <==> g.WalletNotFoundFault?)
    && (f.InsufficientFundsFault? <==> g.InsufficientFundsFault?)
    && (f.InvalidRequestFault? <==> g.InvalidRequestFault?)
    && (f.ValidationFault? <==> g.ValidationFault?)
    && (f.UnreadableBody? <==> g.UnreadableBody?)
    && (f.TypeMismatch? <==> g.TypeMismatch?)
    && (f.ConstraintViolationFault? <==> g.ConstraintViolationFault?)
    && (f.OptimisticLockFault? <==> g.OptimisticLockFault?)
    && (f.Unexpected? <==> g.Unexpected?)
  }

  /** The validation message: the first field error as `field: message`, or a
      fixed text when there is none. */
  function ValidationMessage(errs: seq<FieldError>): (m: string)
    ensures |errs| == 0 ==> m == ValidationFallback
    ensures |errs| > 0 ==> |m| >= |errs[0].field| + 2
    ensures |errs| > 0 ==> m[..|errs[0].field|] == errs[0].field
    ensures |errs| > 0 ==> m[|errs[0].field|..] == ": " + errs[0].message
  {
    if |errs| == 0 then ValidationFallback else errs[0].field + ": " + errs[0].message
  }

  /** The error label of each kind of fault. */
  function Label(f: Fault): string
  {
    match f
    case WalletNotFoundFault(_) => "Wallet not found"
    case InsufficientFundsFault(_) => "Insufficient funds"
    case InvalidRequestFault(_) => "Invalid request"
    case ValidationFault(_) => "Validation failed"
    case UnreadableBody => "Invalid JSON"
    case TypeMismatch(_) => "Invalid parameter"
    case ConstraintViolationFault(_) => "Constraint violation"
    case OptimisticLockFault => "Concurrent modification"
    case Unexpected(_) => "Internal server error"
  }

  /** The handlers, seen together as one total mapping. */
  function Handle(f: Fault, path: string): (r: HttpError)
    ensures r.body.status == r.status
    ensures r.body.path == path
    ensures r.body.error == Label(f)
    ensures r.status == NotFound <==> f.WalletNotFoundFault?
    ensures r.status == Conflict <==> f.OptimisticLockFault?
    ensures r.status == InternalServerError <==> f.Unexpected?
    ensures r.status == BadRequest <==> IsClientFault(f)
    ensures PassesMessage(f) ==> r.body.message == f.message
    ensures f.ValidationFault? ==> r.body.message == ValidationMessage(f.fieldErrors)
    ensures f.TypeMismatch? ==> r.body.message == InvalidParameterPrefix + f.parameter
    ensures f.UnreadableBody? ==> r.body.message == InvalidJsonMessage
    ensures f.OptimisticLockFault? ==> r.body.message == RetryMessage
    ensures f.Unexpected? ==> r.body.message == UnexpectedMessage
  {
    var status :=
      match f
      case WalletNotFoundFault(_) => NotFound
      case OptimisticLockFault => Conflict
      case Unexpected(_) => InternalServerError
      case _ => BadRequest;
    var message :=
      match f
      case WalletNotFoundFault(m) => m
      case InsufficientFundsFault(m) => m
      case InvalidRequestFault(m) => m
      case ValidationFault(errs) => ValidationMessage(errs)
      case UnreadableBody => InvalidJsonMessage
      case TypeMismatch(name) => InvalidParameterPrefix + name
      case ConstraintViolationFault(m) => m
      case OptimisticLockFault => RetryMessage
      case Unexpected(_) => UnexpectedMessage;
    HttpError(status, ErrorBody(status, Label(f), message, path))
  }

  /** Different handlers use different labels, so the label of a reply
      identifies the kind of fault, and with it the status. */
  lemma LabelIdentifiesKind(f: Fault, g: Fault, path: string)
    requires Handle(f, path).body.error == Handle(g, path).body.error
    ensures SameKind(f, g)
    ensures Handle(f, path).status == Handle(g, path).status
  {
  }

  /** The body of an unexpected error does not depend on the exception: no
      text of the original error reaches the client. */
  lemma UnexpectedHidesDetail(m1: string, m2: string, path: string)
    ensures Handle(Unexpected(m1), path) == Handle(Unexpected(m2), path)
  {
  }

  /** Only the field error listed first shapes the validation message. */
  lemma ValidationMessageUsesFirstError(e: FieldError, rest1: seq<FieldError>, rest2: seq<FieldError>)
    ensures ValidationMessage([e] + rest1) == ValidationMessage([e] + rest2)
  {
  }
}
