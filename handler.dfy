/**
 * The global exception handler: every error kind a request can end in becomes
 * an HTTP status and an error body carrying that status, a short label and a
 * message.
 */
module ExceptionHandler {
  import opened Model
  import opened Exceptions

  const BAD_REQUEST: int := 400
  const NOT_FOUND: int := 404
  const INTERNAL_SERVER_ERROR: int := 500

  const GENERIC_MESSAGE: string := "Ocorreu um erro inesperado. Tente novamente mais tarde."

  /**
   * The body's `message`: plain text, or (for field validation) the field -> message
   * map whose `toString` the source puts there.
   */
  datatype Detail = Text(text: string) | FieldMap(errors: map<string, string>)

  datatype ErrorResponse = ErrorResponse(
    timestamp: Instant, status: int, error: string, message: Detail, path: string)

  /** A `ResponseEntity<ErrorResponse>`: the body and the response's HTTP status. */
  datatype Response = Response(body: ErrorResponse, httpStatus: int)

  // ---------------------------------------------------------------------------
  // The field-error map of a validation failure
  // ---------------------------------------------------------------------------

  /** The map that `put`-ing every field error in order leaves behind. */
  function FieldErrorMap(errors: seq<FieldError>): (m: map<string, string>)
    ensures forall f :: f in m ==>
      exists i :: 0 <= i < |errors| && errors[i].field == f && errors[i].defaultMessage == m[f]
    decreases |errors|
  {
    if errors == [] then map[]
    else
      var last := errors[|errors| - 1];
      FieldErrorMap(errors[..|errors| - 1])[last.field := last.defaultMessage]
  }

  /** The map has one key per field that has an error, and no other. */
  lemma {:induction false} FieldErrorMapKeys(errors: seq<FieldError>)
    ensures FieldErrorMap(errors).Keys == set e | e in errors :: e.field
    decreases |errors|
  {
    if errors != [] {
      var init := errors[..|errors| - 1];
      FieldErrorMapKeys(init);
      assert errors == init + [errors[|errors| - 1]];
    }
  }

  /** For a field with several errors, the message of the last one wins. */
  lemma {:induction false} FieldErrorMapLastWins(errors: seq<FieldError>, i: nat)
    requires i < |errors|
    requires forall j :: i < j < |errors| ==> errors[j].field != errors[i].field
    ensures errors[i].field in FieldErrorMap(errors)
    ensures FieldErrorMap(errors)[errors[i].field] == errors[i].defaultMessage
    decreases |errors|
  {
    if i < |errors| - 1 {
      FieldErrorMapLastWins(errors[..|errors| - 1], i);
    }
  }

  /** The `forEach` over the binding result, filling a `HashMap` with `put`. */
  method CollectFieldErrors(errors: seq<FieldError>) returns (m: map<string, string>)
    ensures m == FieldErrorMap(errors)
  {
    m := map[];
    var i := 0;
    while i < |errors|
      invariant 0 <= i <= |errors|
      invariant m == FieldErrorMap(errors[..i])
    {
      assert errors[..i + 1][..i] == errors[..i];
      m := m[errors[i].field := errors[i].defaultMessage];
      i := i + 1;
    }
    assert errors[..|errors|] == errors;
  }

  // ---------------------------------------------------------------------------
  // The handlers
  // ---------------------------------------------------------------------------

  function Respond(status: int, kind: string, message: Detail, path: string, now: Instant): Response {
    Response(ErrorResponse(now, status, kind, message, path), status)
  }

  /**
   * Which handler a thrown error reaches, and the response it builds. `path` is
   * the request description, `now` the clock reading of the body's timestamp.
   */
  function Handle(e: ServiceError, path: string, now: Instant): (r: Response)
    ensures r.body.status == r.httpStatus
    ensures r.body.path == path && r.body.timestamp == now
    ensures r.httpStatus == NOT_FOUND <==> e.ResourceNotFound?
    ensures r.httpStatus == INTERNAL_SERVER_ERROR <==> e.Unexpected?
    ensures r.httpStatus == BAD_REQUEST <==> (e.Business? || e.IllegalArgument? || e.MethodArgumentNotValid?)
    ensures e.MethodArgumentNotValid? ==>
      r.body.error == "Erro de validação" && r.body.message == FieldMap(FieldErrorMap(e.errors))
    ensures e.ResourceNotFound? ==>
      r.body.error == "Recurso não encontrado"
      && r.body.message == Text(NotFoundMessage(e.resource, e.field, e.value))
    ensures e.Business? ==> r.body.error == "Erro de negócio" && r.body.message == Text(e.message)
    ensures e.IllegalArgument? ==> r.body.error == "Argumento inválido" && r.body.message == Text(e.message)
    ensures e.Unexpected? ==>
      r.body.error == "Erro interno do servidor" && r.body.message == Text(GENERIC_MESSAGE)
  {
    match e
    case MethodArgumentNotValid(errors) =>
      Respond(BAD_REQUEST, "Erro de validação", FieldMap(FieldErrorMap(errors)), path, now)
    case ResourceNotFound(resource, field, value) =>
      Respond(NOT_FOUND, "Recurso não encontrado", Text(NotFoundMessage(resource, field, value)), path, now)
    case Business(message) =>
      Respond(BAD_REQUEST, "Erro de negócio", Text(message), path, now)
    case IllegalArgument(message) =>
      Respond(BAD_REQUEST, "Argumento inválido", Text(message), path, now)
    case Unexpected(_) =>
      Respond(INTERNAL_SERVER_ERROR, "Erro interno do servidor", Text(GENERIC_MESSAGE), path, now)
  }

  /** `handleValidationExceptions`: builds the field map with the loop, then the 400 response. */
  method HandleValidationExceptions(errors: seq<FieldError>, path: string, now: Instant)
    returns (r: Response)
    ensures r == Handle(MethodArgumentNotValid(errors), path, now)
    ensures r.httpStatus == BAD_REQUEST && r.body.status == BAD_REQUEST
  {
    var fieldErrors := CollectFieldErrors(errors);
    r := Respond(BAD_REQUEST, "Erro de validação", FieldMap(fieldErrors), path, now);
  }

  /** The response to an unexpected error never depends on the error itself: nothing of it leaks. */
  lemma UnexpectedErrorsLookAlike(m1: string, m2: string, path: string, now: Instant)
    ensures Handle(Unexpected(m1), path, now) == Handle(Unexpected(m2), path, now)
  {
  }
}
