/** The backend's Express error handler: it turns an error object into an
    HTTP status and a JSON body by an ordered cascade of tests on the error's
    name, then on its `statusCode`, with a 500 fallback. */
module ErrorHandler {
  import opened Common

  /** One entry of a Sequelize error's `errors` array. */
  datatype ItemError = ItemError(path: string, message: string)

  /** The properties of an error the handler reads. `statusCode` and
      `details` are optional; `details` is represented by its text. */
  datatype ApiError = ApiError(name: string, message: string, errors: seq<ItemError>,
                               statusCode: Option<int>, details: Option<string>)

  /** The `details` member of a response body. */
  datatype Details =
    | NoDetails
    | FieldDetails(fields: seq<ItemError>)   // [{field, message}, ...]
    | MessageDetails(messages: seq<string>)  // [message, ...]
    | CustomDetails(text: string)            // err.details as given

  datatype Response = Response(status: int, error: string, details: Details)

  const ValidationErrorName: string := "SequelizeValidationError"
  const UniqueConstraintErrorName: string := "SequelizeUniqueConstraintError"
  const JsonWebTokenErrorName: string := "JsonWebTokenError"
  const TokenExpiredErrorName: string := "TokenExpiredError"

  /** The error names the handler recognises before looking at `statusCode`. */
  predicate NamedError(err: ApiError) {
    err.name in {ValidationErrorName, UniqueConstraintErrorName, JsonWebTokenErrorName, TokenExpiredErrorName}
  }

  /** JavaScript truthiness of an optional number: absent and 0 are falsy. */
  predicate TruthyNumber(n: Option<int>) {
    n.Some? && n.value != 0
  }

  /** `err.errors.map(e => ({ field: e.path, message: e.message }))` */
  function FieldsOf(errors: seq<ItemError>): seq<ItemError> {
    errors
  }

  /** `err.errors.map(e => e.message)` */
  function MessagesOf(errors: seq<ItemError>): seq<string> {
    seq(|errors|, i requires 0 <= i < |errors| => errors[i].message)
  }

  /** The handler. `nodeEnv` is `process.env.NODE_ENV`. */
  function Handle(err: ApiError, nodeEnv: Option<string>): Response {
    if err.name == ValidationErrorName then Response(400, "Validation error", FieldDetails(FieldsOf(err.errors)))
    else if err.name == UniqueConstraintErrorName then
      Response(409, "Unique constraint violation", MessageDetails(MessagesOf(err.errors)))
    else if err.name == JsonWebTokenErrorName then Response(401, "Invalid token", NoDetails)
    else if err.name == TokenExpiredErrorName then Response(401, "Token expired", NoDetails)
    else if TruthyNumber(err.statusCode) then
      Response(err.statusCode.value, err.message, if Truthy(err.details) then CustomDetails(err.details.value) else NoDetails)
    else if nodeEnv == Some("production") then Response(500, "Internal server error", NoDetails)
    else Response(500, err.message, NoDetails)
  }

  /** A validation error is a 400 listing one field/message pair per error,
      in order. */
  lemma ValidationErrorIs400(err: ApiError, nodeEnv: Option<string>)
    requires err.name == ValidationErrorName
    ensures var r := Handle(err, nodeEnv);
            && r.status == 400 && r.details.FieldDetails?
            && |r.details.fields| == |err.errors|
            && forall i :: 0 <= i < |err.errors| ==>
                 r.details.fields[i].path == err.errors[i].path && r.details.fields[i].message == err.errors[i].message
  {
  }

  /** A unique-constraint error is a 409 listing the messages in order. */
  lemma UniqueConstraintIs409(err: ApiError, nodeEnv: Option<string>)
    requires err.name == UniqueConstraintErrorName
    ensures var r := Handle(err, nodeEnv);
            && r.status == 409 && r.details.MessageDetails?
            && |r.details.messages| == |err.errors|
            && forall i :: 0 <= i < |err.errors| ==> r.details.messages[i] == err.errors[i].message
  {
  }

  /** Token errors are 401s distinguished by their messages. */
  lemma TokenErrorsAre401(err: ApiError, nodeEnv: Option<string>)
    ensures err.name == JsonWebTokenErrorName ==> Handle(err, nodeEnv) == Response(401, "Invalid token", NoDetails)
    ensures err.name == TokenExpiredErrorName ==> Handle(err, nodeEnv) == Response(401, "Token expired", NoDetails)
  {
  }

  /** The recognised names take precedence: for them the response does not
      depend on `statusCode`, `details`, the message or the environment. */
  lemma NamesTakePrecedence(err: ApiError, statusCode: Option<int>, details: Option<string>, message: string,
                            nodeEnv: Option<string>, otherEnv: Option<string>)
    requires NamedError(err)
    ensures Handle(err.(statusCode := statusCode, details := details, message := message), otherEnv) == Handle(err, nodeEnv)
  {
  }

  /** Any other error with a truthy `statusCode` gets that status and its own
      message, with `details` exactly when they are truthy. */
  lemma StatusCodeUsed(err: ApiError, nodeEnv: Option<string>)
    requires !NamedError(err)
    requires TruthyNumber(err.statusCode)
    ensures var r := Handle(err, nodeEnv);
            && r.status == err.statusCode.value && r.error == err.message
            && (r.details != NoDetails <==> Truthy(err.details))
            && (Truthy(err.details) ==> r.details == CustomDetails(err.details.value))
  {
  }

  /** Everything else is a 500, whose message is hidden in production. */
  lemma FallbackIs500(err: ApiError, nodeEnv: Option<string>)
    requires !NamedError(err)
    requires !TruthyNumber(err.statusCode)
    ensures var r := Handle(err, nodeEnv);
            && r.status == 500 && r.details == NoDetails
            && r.error == if nodeEnv == Some("production") then "Internal server error" else err.message
  {
  }

  /** In production a 500 response does not reveal anything about the error. */
  lemma ProductionHidesInternalErrors(err: ApiError, other: ApiError)
    requires !NamedError(err) && !TruthyNumber(err.statusCode)
    requires !NamedError(other) && !TruthyNumber(other.statusCode)
    ensures Handle(err, Some("production")) == Handle(other, Some("production"))
  {
  }

  /** A status code of 0 is falsy and falls through to the 500 response. */
  lemma ZeroStatusCodeIsFallback(err: ApiError)
    requires !NamedError(err) && err.statusCode == Some(0)
    ensures Handle(err, None).status == 500 && Handle(err, None).error == err.message
  {
  }

  /** The status is one of the handler's fixed codes or the error's own. */
  lemma StatusIsClassified(err: ApiError, nodeEnv: Option<string>)
    ensures var s := Handle(err, nodeEnv).status;
            s in {400, 409, 401, 500} || (err.statusCode.Some? && s == err.statusCode.value)
  {
  }
}
