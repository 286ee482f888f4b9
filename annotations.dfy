/** The three marker annotations of the RPC core, as runtime values. Attribute defaults are
    those of their declarations; the method alias defaults to "". */
module Annotations {

  datatype Annotation =
      /** marks a class as a JSON-RPC service */
    | JsonRpcService
      /** marks a method as callable from the network, optionally under another name */
    | JsonRpcMethod(value: string)
      /** marks an exception class as a JSON-RPC error with a code and a message */
    | JsonRpcError(code: int, message: string)
      /** any annotation the RPC core does not know, identified by its class name */
    | Other(className: string)

  /** The class of an annotation (`Annotation.annotationClass`). */
  datatype AnnotationClass = ServiceClass | MethodClass | ErrorClass | OtherClass(name: string)

  function ClassOf(a: Annotation): (c: AnnotationClass)
    ensures c == MethodClass <==> a.JsonRpcMethod?
    ensures c == ErrorClass <==> a.JsonRpcError?
    ensures c == ServiceClass <==> a.JsonRpcService?
  {
    match a
    case JsonRpcService => ServiceClass
    case JsonRpcMethod(_) => MethodClass
    case JsonRpcError(_, _) => ErrorClass
    case Other(name) => OtherClass(name)
  }

  const MethodDefault: Annotation := JsonRpcMethod("")
}
