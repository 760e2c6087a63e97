/** The JSON envelope every handler answers with: utils.Success carries a status, a
    message and a payload; utils.Error carries a status, a message and an error kind.
    Profile and UpdateProfile can also panic on a request local of the wrong type. */
module Responses {
  datatype Reply<T> =
    | Success(status: int, message: string, data: T)
    | Failure(status: int, message: string, kind: string)
    | Panic

  const BadRequestKind: string := "BadRequestException"
  const InvalidBody: string := "Invalid request body"
}
