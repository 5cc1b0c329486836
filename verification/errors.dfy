/** The application's exception hierarchy, the other errors that can reach
    the global error handler (driver, ODM, plain JavaScript errors and thrown
    non-errors), and the handler that turns each into an HTTP status and a
    JSON body. */
module Errors {

  /** The concrete exception classes derived from the generic application exception. */
  datatype ExceptionClass =
    | ObjectNotFound
    | ObjectAlreadyExists
    | NotAuthorized
    | Forbidden
    | InvalidArgument
    | Server
    | Generic

  /** The suffix a class appends to the code it is constructed with
      (its `DEFAULT_NAME`); the server and generic exceptions keep the code as given. */
  function DefaultName(cls: ExceptionClass): string {
    match cls
    case ObjectNotFound => "NotFound"
    case ObjectAlreadyExists => "AlreadyExists"
    case NotAuthorized => "NotAuthorized"
    case Forbidden => "Forbidden"
    case InvalidArgument => "InvalidArgument"
    case Server => ""
    case Generic => ""
  }

  datatype FieldError = FieldError(field: string, messages: seq<string>)

  /** Everything a handler or service can throw. */
  datatype Thrown =
      /** An application exception; `code` is what `getCode()` returns. */
    | App(cls: ExceptionClass, code: string, message: string)
      /** The request-validation exception with the flattened validation issues. */
    | Validation(message: string, fieldErrors: seq<FieldError>, formErrors: seq<string>)
      /** A server-side MongoDB error carrying its numeric code. */
    | MongoServer(errorCode: int, message: string)
      /** A MongoDB network error or network time-out. */
    | MongoNetwork(message: string)
      /** The ODM's document validation error. */
    | MongooseValidation(message: string)
      /** The ODM's failure to cast an identifier or value. */
    | MongooseCast(message: string)
      /** Any other `Error` instance. */
    | PlainError(name: string, message: string)
      /** A thrown value that is not an `Error`. */
    | NonError

  datatype Result<+T> = Ok(value: T) | Err(error: Thrown) {
    predicate IsFailure() { Err? }
  }

  /** Builds an application exception the way the class constructors do. */
  function Raise(cls: ExceptionClass, code: string, message: string): (t: Thrown)
    ensures t.App? && t.cls == cls && t.message == message
    ensures |t.code| == |code| + |DefaultName(cls)|
    ensures t.code[..|code|] == code && t.code[|code|..] == DefaultName(cls)
  {
    App(cls, code + DefaultName(cls), message)
  }

  function NotFoundError(code: string, message: string): Thrown {
    Raise(ObjectNotFound, code, message)
  }

  function AlreadyExistsError(code: string, message: string): Thrown {
    Raise(ObjectAlreadyExists, code, message)
  }

  function NotAuthorizedError(code: string, message: string): Thrown {
    Raise(NotAuthorized, code, message)
  }

  function ForbiddenError(code: string, message: string): Thrown {
    Raise(Forbidden, code, message)
  }

  function InvalidArgumentError(code: string, message: string): Thrown {
    Raise(InvalidArgument, code, message)
  }

  function ServerError(code: string, message: string): Thrown {
    Raise(Server, code, message)
  }

  /** The validation exception appends a fixed word to the message it is given. */
  function ValidationError(message: string, fieldErrors: seq<FieldError>, formErrors: seq<string>): (t: Thrown)
    ensures t.Validation? && |t.message| == |message| + |"ValidationException"|
    ensures t.message[..|message|] == message && t.message[|message|..] == "ValidationException"
  {
    Validation(message + "ValidationException", fieldErrors, formErrors)
  }

  /** The JSON body written by the handler. */
  datatype Body =
    | CodeMessage(code: string, message: string)
    | ValidationBody(code: string, message: string, fieldErrors: seq<FieldError>, formErrors: seq<string>)

  datatype Response = Response(status: int, body: Body)

  /** Status code the handler uses for each application exception class. */
  function StatusFor(cls: ExceptionClass): int {
    match cls
    case ObjectNotFound => 404
    case ObjectAlreadyExists => 409
    case InvalidArgument => 400
    case NotAuthorized => 401
    case Forbidden => 403
    case Server => 500
    case Generic => 500
  }

  /** The code of the answer to anything that is not an application exception. */
  const InternalCode := "InternalServerError"
  /** The code of the answer to a request-validation failure. */
  const ValidationCode := "ValidationError"
  const UnknownErrorMessage := "An unknown error occurred"
  const DuplicateMessage := "Duplicate value for unique field"
  const UnreachableMessage := "Error connecting to mongo db server"
  const OdmValidationMessage := "Validation failed for one or more fields"
  const CastMessage := "Invalid identifier or value for field"

  /** The global error handler. */
  function HandleError(err: Thrown): (r: Response)
    ensures err.App? ==> r == Response(StatusFor(err.cls), CodeMessage(err.code, err.message))
    ensures err.Validation? ==>
      r == Response(400, ValidationBody(ValidationCode, err.message, err.fieldErrors, err.formErrors))
    ensures err.MongoServer? && err.errorCode == 11000 ==>
      r == Response(409, CodeMessage("ObjectAlreadyExists", DuplicateMessage))
    ensures err.MongoServer? && err.errorCode != 11000 ==> r == Response(500, CodeMessage(InternalCode, err.message))
    ensures err.MongoNetwork? ==>
      r == Response(503, CodeMessage("MongoDbServiceUnavailable", UnreachableMessage))
    ensures err.MongooseValidation? ==>
      r == Response(400, CodeMessage("ObjectInvalidArgument", OdmValidationMessage))
    ensures err.MongooseCast? ==> r == Response(400, CodeMessage("ObjectInvalidArgument", CastMessage))
    ensures err.PlainError? ==> r == Response(500, CodeMessage(InternalCode, err.message))
    ensures err.NonError? ==> r == Response(500, CodeMessage(InternalCode, UnknownErrorMessage))
  {
    match err
    case App(cls, code, message) => Response(StatusFor(cls), CodeMessage(code, message))
    case Validation(message, fieldErrors, formErrors) =>
      Response(400, ValidationBody(ValidationCode, message, fieldErrors, formErrors))
    case MongoServer(_, _) => DriverResponse(err)
    case MongoNetwork(_) => DriverResponse(err)
    case MongooseValidation(_) => OdmResponse(err)
    case MongooseCast(_) => OdmResponse(err)
    case PlainError(_, message) => Response(500, CodeMessage(InternalCode, message))
    case NonError => Response(500, CodeMessage(InternalCode, UnknownErrorMessage))
  }

  /** The handler's answer to a MongoDB driver error: a duplicate key is a
      409, another server error a 500 with its own message, and a network
      failure a 503. */
  function DriverResponse(err: Thrown): (r: Response)
    requires err.MongoServer? || err.MongoNetwork?
    ensures err.MongoServer? && err.errorCode == 11000 ==>
      r == Response(409, CodeMessage("ObjectAlreadyExists", DuplicateMessage))
    ensures err.MongoServer? && err.errorCode != 11000 ==> r == Response(500, CodeMessage(InternalCode, err.message))
    ensures err.MongoNetwork? ==>
      r == Response(503, CodeMessage("MongoDbServiceUnavailable", UnreachableMessage))
  {
    if err.MongoNetwork? then
      assert "MongoDbServiceUnavailable" + DefaultName(Server) == "MongoDbServiceUnavailable";
      Respond(ServerError("MongoDbServiceUnavailable", UnreachableMessage), 503)
    else if err.errorCode == 11000 then
      assert "Object" + DefaultName(ObjectAlreadyExists) == "ObjectAlreadyExists";
      Respond(AlreadyExistsError("Object", DuplicateMessage), 409)
    else Response(500, CodeMessage(InternalCode, err.message))
  }

  /** The handler's answer to an ODM validation or cast error: a 400 with
      code "ObjectInvalidArgument" and a fixed message for each. */
  function OdmResponse(err: Thrown): (r: Response)
    requires err.MongooseValidation? || err.MongooseCast?
    ensures err.MongooseValidation? ==>
      r == Response(400, CodeMessage("ObjectInvalidArgument", OdmValidationMessage))
    ensures err.MongooseCast? ==> r == Response(400, CodeMessage("ObjectInvalidArgument", CastMessage))
  {
    assert "Object" + DefaultName(InvalidArgument) == "ObjectInvalidArgument";
    if err.MongooseValidation? then Respond(InvalidArgumentError("Object", OdmValidationMessage), 400)
    else Respond(InvalidArgumentError("Object", CastMessage), 400)
  }

  /** The shared helper that writes `{code, message}` of an application exception. */
  function Respond(err: Thrown, status: int): Response
    requires err.App?
  {
    Response(status, CodeMessage(err.code, err.message))
  }

  /** What the client can tell from the answer: only seven statuses occur,
      only a validation failure carries the validation body, 503 means the
      database was unreachable, and 409 means a duplicate. */
  lemma {:induction false} HandlerStatuses(err: Thrown)
    ensures var r := HandleError(err);
      r.status in {400, 401, 403, 404, 409, 500, 503}
      && (err.Validation? <==> r.body.ValidationBody?)
      && (r.status == 503 <==> err.MongoNetwork?)
      && (r.status == 409 <==> (err.App? && err.cls == ObjectAlreadyExists) || (err.MongoServer? && err.errorCode == 11000))
  {
    match err
    case App(cls, _, _) =>
    case Validation(_, _, _) =>
    case MongoServer(_, _) =>
    case MongoNetwork(_) =>
    case MongooseValidation(_) =>
    case MongooseCast(_) =>
    case PlainError(_, _) =>
    case NonError =>
  }

  /** For application exceptions other than the server and generic ones, the
      status alone tells the client which class was thrown. */
  lemma {:induction false} StatusIdentifiesClass(a: Thrown, b: Thrown)
    requires a.App? && b.App?
    requires a.cls !in {Server, Generic} && b.cls !in {Server, Generic}
    ensures HandleError(a).status == HandleError(b).status <==> a.cls == b.cls
  {
  }

  /** The body code of a raised application exception is the caller's code
      followed by the class name, and the message passes through unchanged. */
  lemma {:induction false} RaisedBodyCarriesCode(cls: ExceptionClass, code: string, message: string)
    ensures var r := HandleError(Raise(cls, code, message));
      r.status == StatusFor(cls)
      && r.body.code == code + DefaultName(cls)
      && r.body.message == message
  {
  }
}
