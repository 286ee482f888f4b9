/** The dispatcher: from a request text to the responses, through the registry. */
module Server {
  import opened Wrappers
  import opened Json
  import opened Annotations
  import opened Strings
  import opened Throwables
  import opened KotlinReflect
  import opened Metadatas
  import opened Responses
  import opened RpcExceptions
  import opened Reflections

  /** A decoded JSON-RPC request: the method name and the `params` node as sent. */
  datatype Request = Request(methodName: string, params: Json)

  /** What `readTree` makes of a text: a tree, nothing (empty input), or a parse exception. */
  datatype ParseResult = Tree(root: Json) | NoContent | Malformed(error: Throwable)

  /** The JSON mapper's three services to the server: parse a text, convert a tree into a
      `Request` (None when Jackson's `convertValue` fails), and read a tree as a value of a
      declared type (None when that throws). */
  datatype Mapper = Mapper(
    readTree: string -> ParseResult,
    convertRequest: Json -> Option<Request>,
    readValue: (Json, KType) -> Option<Json>)

  /** A service instance: its class and which object it is. */
  datatype ServiceObject = ServiceObject(cls: KClass, identity: nat)

  /** A slot of the positional argument array: left as Kotlin's `Unit` filler, the service
      instance, or a value read from the params. */
  datatype Arg = Unset | Instance(service: ServiceObject) | Decoded(value: Json)

  /** What `KCallable.call` does: return a value, return null, or throw. */
  datatype CallResult = Returned(value: Json) | ReturnedNull | Threw(error: Throwable)

  /** The service's code, as reached through reflection. */
  type Invoker = (MethodMetadata, seq<Arg>) -> CallResult

  /** What `handle` gives back before it is written as text: one response, an array of
      responses, or an exception that escapes `handle`. */
  datatype Reply = Single(response: Response) | Batch(responses: seq<Response>) | Raised(error: Throwable)

  type Registry = map<KClass, ClassMetadata>

  /** Where `handleSingle` stops before the call, or the function it calls. */
  datatype Route = Rejected(error: ErrorNode) | Found(target: MethodMetadata)

  /** The exception the first store into a zero-length argument array raises. */
  const EmptyArgumentArray: Throwable := Throwable([], Some("Index 0 out of bounds for length 0"), None)

  /** Some annotation in the list is a `@JsonRpcError`. */
  predicate Tagged(anns: seq<Annotation>) {
    exists i :: 0 <= i < |anns| && anns[i].JsonRpcError?
  }

  /** `handleError`: the response for an exception, read from the `@JsonRpcError` of its root
      cause: its code, and its message unless blank, else the root cause's own message, else "";
      an untagged root cause is an internal error. */
  function HandleError(exception: Throwable): (e: ErrorNode)
    ensures !Tagged(RootCause(exception).annotations) ==> e == INTERNAL_ERROR
    ensures var root := RootCause(exception); var anns := root.annotations;
            forall i :: 0 <= i < |anns| && anns[i].JsonRpcError? && (forall j :: 0 <= j < i ==> !anns[j].JsonRpcError?) ==>
              e.code == anns[i].code &&
              e.message == (if IsBlank(anns[i].message) then root.message.GetOr("") else anns[i].message)
  {
    var rootCause := RootCause(exception);
    match GetAnnotation(rootCause.annotations, ErrorClass)
    case None => INTERNAL_ERROR
    case Some(annotation) =>
      assert Tagged(rootCause.annotations) by {
        var i :| 0 <= i < |rootCause.annotations| && rootCause.annotations[i] == annotation && ClassOf(annotation) == ErrorClass;
        assert rootCause.annotations[i].JsonRpcError?;
      }
      var message := if !IsBlank(annotation.message) then annotation.message else rootCause.message.GetOr("");
      ErrorNode(annotation.code, message)
  }

  /** The part of `handleSingle` before the call: the params shape, the class, the service
      flag and the method name, checked in that order. */
  function Resolve(registry: Registry, request: Request, service: ServiceObject): (r: Route)
    ensures r.Rejected? ==> r.error == INVALID_REQUEST || r.error == METHOD_NOT_FOUND
    ensures r.Found? <==> && (request.params.JObject? || request.params.JArray? || request.params.JNull?)
                          && service.cls in registry && registry[service.cls].service
                          && request.methodName in registry[service.cls].methods
    ensures r.Found? ==> r.target == registry[service.cls].methods[request.methodName]
  {
    if !(request.params.JObject? || request.params.JArray? || request.params.JNull?) then Rejected(INVALID_REQUEST)
    else if service.cls !in registry then Rejected(INVALID_REQUEST)
    else if !registry[service.cls].service then Rejected(METHOD_NOT_FOUND)
    else if request.methodName !in registry[service.cls].methods then Rejected(METHOD_NOT_FOUND)
    else Found(registry[service.cls].methods[request.methodName])
  }

  /** The value `convertToMethodParams` stores for a parameter: its params field read as the
      parameter's type; a missing field or a failed read gives nothing. */
  function Fetch(params: Json, p: ParameterMetadata, readValue: (Json, KType) -> Option<Json>): Option<Json> {
    match Get(params, p.name)
    case None => None
    case Some(node) => readValue(node, p.paramType)
  }

  /** The loop of `convertToMethodParams` over the parameter map, in its order, from `args`: a
      value read lands at its parameter's index; a failed read or an index past the end
      (both thrown inside the swallowing `try`) leaves the array as it was. */
  function Bind(ps: seq<ParameterMetadata>, params: Json, readValue: (Json, KType) -> Option<Json>, args: seq<Arg>): (r: seq<Arg>)
    ensures |r| == |args|
    decreases |ps|
  {
    if |ps| == 0 then args
    else
      var p := ps[0];
      var value := Fetch(params, p, readValue);
      var next := if value.Some? && p.index < |args| then args[p.index := Decoded(value.value)] else args;
      Bind(ps[1..], params, readValue, next)
  }

  /** The array before the loop: one slot per parameter entry, the instance in slot 0. */
  function InitialArguments(size: nat, instance: ServiceObject): seq<Arg>
    requires size > 0
  {
    seq(size, i => if i == 0 then Instance(instance) else Unset)
  }

  function BoundArguments(target: MethodMetadata, params: Json, instance: ServiceObject,
                          readValue: (Json, KType) -> Option<Json>): seq<Arg>
    requires |target.parameters| > 0
  {
    Bind(target.parameters, params, readValue, InitialArguments(|target.parameters|, instance))
  }

  /** `handleSingle`: a response, or the exception it lets escape. */
  function HandleSingle(registry: Registry, mapper: Mapper, request: Request, service: ServiceObject,
                        invoke: Invoker): (r: Try<Response>)
    ensures Resolve(registry, request, service).Rejected? ==>
              r == Normal(ErrorResponse(Resolve(registry, request, service).error))
    ensures r.Thrown? || r.value.SuccessResponse? ==> Resolve(registry, request, service).Found?
  {
    match Resolve(registry, request, service)
    case Rejected(error) => Normal(ErrorResponse(error))
    case Found(target) =>
      if |target.parameters| == 0 then Thrown(EmptyArgumentArray)
      else
        match invoke(target, BoundArguments(target, request.params, service, mapper.readValue))
        case Returned(value) => Normal(SuccessResponse(value))
        case ReturnedNull => Normal(SuccessResponse(JString("ERROR")))
        case Threw(exception) => Thrown(exception)
  }

  /** `handleWrapper`: decode the node, handle it, and turn any exception into an error
      response. */
  function HandleWrapper(registry: Registry, mapper: Mapper, requestNode: Json, service: ServiceObject,
                         invoke: Invoker): (r: Response)
    ensures mapper.convertRequest(requestNode).None? ==> r == ErrorResponse(INVALID_REQUEST)
    ensures r.SuccessResponse? ==> && mapper.convertRequest(requestNode).Some?
                                   && Resolve(registry, mapper.convertRequest(requestNode).value, service).Found?
  {
    match mapper.convertRequest(requestNode)
    case None => ErrorResponse(INVALID_REQUEST)
    case Some(request) =>
      match HandleSingle(registry, mapper, request, service, invoke)
      case Normal(response) => response
      case Thrown(exception) => ErrorResponse(HandleError(exception))
  }

  class JsonRpcServer {
    /** the JSON mapper */
    const mapper: Mapper
    /** class -> class metadata, filled once when the server is made */
    var classesMetadata: Registry

    constructor (service: ServiceObject, mapper: Mapper)
      ensures this.mapper == mapper
      ensures classesMetadata == map[service.cls := ClassMetadataOf(service.cls)]
    {
      this.mapper := mapper;
      var metadata := GetClassMetadata(service.cls);
      classesMetadata := map[service.cls := metadata];
    }

    /** `handle`: parse the text; an object is one request, an array a batch answered element
        by element in order, an empty input or any other value a parse error. A parse
        exception escapes. */
    method Handle(textRequest: string, service: ServiceObject, invoke: Invoker) returns (reply: Reply)
      ensures mapper.readTree(textRequest).Malformed? ==> reply == Raised(mapper.readTree(textRequest).error)
      ensures mapper.readTree(textRequest).NoContent? ==> reply == Single(ErrorResponse(PARSE_ERROR))
      ensures mapper.readTree(textRequest).Tree? ==>
                var root := mapper.readTree(textRequest).root;
                && (root.JObject? ==> reply == Single(HandleWrapper(classesMetadata, mapper, root, service, invoke)))
                && (root.JArray? ==>
                      && reply.Batch? && |reply.responses| == |root.items|
                      && forall k :: 0 <= k < |root.items| ==>
                           reply.responses[k] == HandleWrapper(classesMetadata, mapper, root.items[k], service, invoke))
                && (!root.JObject? && !root.JArray? ==> reply == Single(ErrorResponse(PARSE_ERROR)))
    {
      match mapper.readTree(textRequest)
      case Malformed(exception) =>
        reply := Raised(exception);
      case NoContent =>
        reply := Single(ErrorResponse(PARSE_ERROR));
      case Tree(rootElement) =>
        if rootElement.JObject? {
          reply := Single(HandleWrapper(classesMetadata, mapper, rootElement, service, invoke));
        } else if rootElement.JArray? {
          var responses: seq<Response> := [];
          for i := 0 to |rootElement.items|
            invariant |responses| == i
            invariant forall k :: 0 <= k < i ==>
                        responses[k] == HandleWrapper(classesMetadata, mapper, rootElement.items[k], service, invoke)
          {
            responses := responses + [HandleWrapper(classesMetadata, mapper, rootElement.items[i], service, invoke)];
          }
          reply := Batch(responses);
        } else {
          reply := Single(ErrorResponse(PARSE_ERROR));
        }
    }

    /** `convertToMethodParams`: a fresh array of one slot per parameter entry, the instance
        in slot 0, then every parameter's value stored at its index. */
    method ConvertToMethodParams(params: Json, target: MethodMetadata, instance: ServiceObject)
      returns (methodParams: array<Arg>)
      requires |target.parameters| > 0
      ensures methodParams[..] == BoundArguments(target, params, instance, mapper.readValue)
    {
      var ps := target.parameters;
      methodParams := new Arg[|ps|](_ => Unset);
      methodParams[0] := Instance(instance);
      assert methodParams[..] == InitialArguments(|ps|, instance);
      for j := 0 to |ps|
        invariant Bind(ps[j..], params, mapper.readValue, methodParams[..]) == BoundArguments(target, params, instance, mapper.readValue)
      {
        var p := ps[j];
        var value := Fetch(params, p, mapper.readValue);
        if value.Some? && p.index < methodParams.Length {
          methodParams[p.index] := Decoded(value.value);
        }
        assert ps[j..][1..] == ps[j + 1..];
      }
    }
  }
}
