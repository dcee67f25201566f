/** The exceptions the services throw, as one datatype of error kinds. */
module Exceptions {

  /** One entry of a binding result: the field and the constraint's message. */
  datatype FieldError = FieldError(field: string, defaultMessage: string)

  datatype ServiceError =
    /** ResourceNotFoundException(resource, field, value). */
    | ResourceNotFound(resource: string, field: string, value: string)
    /** BusinessException(message). */
    | Business(message: string)
    /** IllegalArgumentException(message). */
    | IllegalArgument(message: string)
    /** MethodArgumentNotValidException: the field errors of a rejected request body. */
    | MethodArgumentNotValid(errors: seq<FieldError>)
    /** Any other exception (a NullPointerException, a driver failure, ...). */
    | Unexpected(message: string)

  /** The message of `new ResourceNotFoundException(resource, field, value)`. */
  function NotFoundMessage(resource: string, field: string, value: string): (r: string)
    ensures |r| > |resource| + |field| + |value| + 2
    ensures r[..|resource|] == resource
    ensures r[|r| - |value| - 2..] == "'" + value + "'"
  {
    resource + " não encontrado com " + field + ": '" + value + "'"
  }
}
