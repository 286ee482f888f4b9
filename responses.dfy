/** The JSON-RPC response objects, before serialisation. */
module Responses {
  import opened Json

  /** The `error` member of an error response: an integer code and a short message. */
  datatype ErrorNode = ErrorNode(code: int, message: string)

  /** `SuccessResponse` carries only `result`, `ErrorResponse` only `error`. */
  datatype Response =
    | SuccessResponse(result: Json)
    | ErrorResponse(error: ErrorNode)

  /** Data-class equality: two error nodes are equal exactly when code and message are. */
  lemma ErrorNodeEquality(a: ErrorNode, b: ErrorNode)
    ensures a == b <==> a.code == b.code && a.message == b.message
    ensures ErrorResponse(a) == ErrorResponse(b) <==> a == b
  {
  }

  /** A response never carries both a result and an error. */
  lemma ExactlyOneMember(r: Response)
    ensures r.SuccessResponse? != r.ErrorResponse?
  {
  }
}
