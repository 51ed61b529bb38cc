/**
 * The request gate and the validation-error mapper that app/main.py and
 * backend/app/main.py both install: the access-token middleware, with the
 * list of public paths as a parameter, and the handler that rewrites a
 * request-validation error into a 422 reply.  `decode_access_token` is a
 * parameter: it either raises or returns a payload, and it returns None
 * for an expired or otherwise invalid token.
 */
module Middleware {
  import opened Wrappers
  import opened Entities

  /** The outcome of `decode_access_token(token)`. */
  datatype Decoded = Raised | Returned(payload: Option<Claims>)

  /** What the middleware does with one request. */
  datatype Verdict =
    | Bypass                          // the route runs and `request.state.user` is never set
    | Forward(user: Option<Claims>)   // `request.state.user` is set, then the route runs
    | Reject(status: nat, detail: string)

  const TokenCookie: string := "access_token"
  const MissingToken: string := "Access token is missing or invalid."
  const InvalidToken: string := "Access token is invalid."

  /** `access_token_middleware` over a public list: the cookie value, if any, is looked up by the caller. */
  function Gate(publicPaths: seq<string>, path: string, cookie: Option<string>, decode: string -> Decoded): (v: Verdict)
    ensures v.Bypass? <==> path in publicPaths
    ensures v.Reject? ==> v.status == 401
    ensures v == Reject(401, MissingToken) <==> path !in publicPaths && (cookie.None? || cookie.value == "")
    ensures v == Reject(401, InvalidToken) <==>
      path !in publicPaths && cookie.Some? && cookie.value != "" && decode(cookie.value).Raised?
    ensures v.Forward? <==>
      path !in publicPaths && cookie.Some? && cookie.value != "" && decode(cookie.value).Returned?
    ensures v.Forward? ==> v.user == decode(cookie.value).payload
  {
    if path in publicPaths then Bypass
    else if cookie.None? || cookie.value == "" then Reject(401, MissingToken)
    else match decode(cookie.value)
      case Raised => Reject(401, InvalidToken)
      case Returned(payload) => Forward(payload)
  }

  /**
   * An expired or forged token is not refused: `decode_access_token`
   * returns None for it, and the route runs with no user.
   */
  lemma NullPayloadProceeds(publicPaths: seq<string>, path: string, token: string, decode: string -> Decoded)
    requires path !in publicPaths && token != "" && decode(token) == Returned(None)
    ensures Gate(publicPaths, path, Some(token), decode) == Forward(None)
  {
  }

  // ---------------------------------------------------------------- validation errors

  /** One element of an error's `loc`: a field name or a list index. */
  datatype LocPart = Name(name: string) | Index(index: int)

  /** One entry of `exc.errors()`. */
  datatype ValidationError = ValidationError(loc: seq<LocPart>, msg: string)

  /** One entry of the reply's `errors` list. */
  datatype FieldError = FieldError(field: LocPart, message: string)

  datatype ErrorsReply = ErrorsReply(status: nat, errors: seq<FieldError>)

  const FieldRequired: string := "field required"
  const RequiredMessage: string := "This field is required."
  const EmptyLoc: string := "IndexError: list index out of range"

  function Message(msg: string): (m: string)
    ensures msg == FieldRequired ==> m == RequiredMessage
    ensures msg != FieldRequired ==> m == msg
  {
    if msg == FieldRequired then RequiredMessage else msg
  }

  /** `err["loc"][-1]`, which raises on an empty location. */
  function FieldOf(e: ValidationError): (r: Result<LocPart>)
    ensures r.Ok? <==> e.loc != []
    ensures r.Ok? ==> r.value == e.loc[|e.loc| - 1]
  {
    if e.loc == [] then Err(Crash(EmptyLoc)) else Ok(e.loc[|e.loc| - 1])
  }

  /** The comprehension over `exc.errors()`, one entry per error in order. */
  function FieldErrors(errors: seq<ValidationError>): (r: Result<seq<FieldError>>)
    ensures r.Ok? <==> forall i :: 0 <= i < |errors| ==> errors[i].loc != []
    ensures r.Err? ==> r.failure == Crash(EmptyLoc)
    ensures r.Ok? ==> |r.value| == |errors|
    ensures r.Ok? ==> forall i :: 0 <= i < |errors| ==>
      r.value[i] == FieldError(errors[i].loc[|errors[i].loc| - 1], Message(errors[i].msg))
  {
    if errors == [] then Ok([])
    else match FieldOf(errors[0])
      case Err(f) => Err(f)
      case Ok(field) =>
        match FieldErrors(errors[1..])
        case Err(f) => Err(f)
        case Ok(rest) => Ok([FieldError(field, Message(errors[0].msg))] + rest)
  }

  /** `custom_validation_exception_handler`: a 422 reply carrying the mapped errors. */
  function ValidationResponse(errors: seq<ValidationError>): (r: Result<ErrorsReply>)
    ensures r.Ok? <==> forall i :: 0 <= i < |errors| ==> errors[i].loc != []
    ensures r.Ok? ==> r.value.status == 422 && Ok(r.value.errors) == FieldErrors(errors)
  {
    match FieldErrors(errors)
    case Err(f) => Err(f)
    case Ok(mapped) => Ok(ErrorsReply(422, mapped))
  }
}
