/** The five protocol errors the server itself produces (section 5.1 of the JSON-RPC 2.0
    specification). */
module RpcExceptions {
  import opened Responses

  const PARSE_ERROR: ErrorNode := ErrorNode(-32700, "Parse error")
  const METHOD_NOT_FOUND: ErrorNode := ErrorNode(-32601, "Method not found")
  const INVALID_REQUEST: ErrorNode := ErrorNode(-32600, "Invalid Request")
  const INVALID_PARAMS: ErrorNode := ErrorNode(-32602, "Invalid params")
  const INTERNAL_ERROR: ErrorNode := ErrorNode(-32603, "Internal error")

  /** The code range JSON-RPC 2.0 reserves for pre-defined errors. */
  predicate Reserved(code: int) {
    -32768 <= code <= -32000
  }

  function ProtocolErrors(): (errors: seq<ErrorNode>)
    ensures |errors| == 5
    ensures forall i, j :: 0 <= i < j < |errors| ==> errors[i].code != errors[j].code
    ensures forall i :: 0 <= i < |errors| ==> Reserved(errors[i].code)
  {
    [PARSE_ERROR, METHOD_NOT_FOUND, INVALID_REQUEST, INVALID_PARAMS, INTERNAL_ERROR]
  }
}
