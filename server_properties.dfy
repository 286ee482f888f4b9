/** What the dispatcher guarantees, for every registry, mapper and service code. */
module ServerProperties {
  import opened Wrappers
  import opened Json
  import opened Annotations
  import opened Throwables
  import opened KotlinReflect
  import opened Metadatas
  import opened Responses
  import opened RpcExceptions
  import opened Reflections
  import opened Server

  predicate IndicesDistinct(ps: seq<ParameterMetadata>) {
    forall i, j :: 0 <= i < j < |ps| ==> ps[i].index != ps[j].index
  }

  /** A value read for a parameter lands at that parameter's index. */
  lemma {:induction false} BindWritten(ps: seq<ParameterMetadata>, params: Json, readValue: (Json, KType) -> Option<Json>,
                                       args: seq<Arg>, i: nat)
    requires IndicesDistinct(ps) && i < |ps| && ps[i].index < |args|
    requires Fetch(params, ps[i], readValue).Some?
    ensures Bind(ps, params, readValue, args)[ps[i].index] == Decoded(Fetch(params, ps[i], readValue).value)
    decreases |ps|
  {
    var p := ps[0];
    var value := Fetch(params, p, readValue);
    var next := if value.Some? && p.index < |args| then args[p.index := Decoded(value.value)] else args;
    if i == 0 {
      BindKept(ps[1..], params, readValue, next, p.index);
    } else {
      BindWritten(ps[1..], params, readValue, next, i - 1);
    }
  }

  /** A slot no parameter's value is read into keeps what it held. */
  lemma {:induction false} BindKept(ps: seq<ParameterMetadata>, params: Json, readValue: (Json, KType) -> Option<Json>,
                                    args: seq<Arg>, k: nat)
    requires k < |args|
    requires forall i :: 0 <= i < |ps| && ps[i].index == k ==> Fetch(params, ps[i], readValue).None?
    ensures Bind(ps, params, readValue, args)[k] == args[k]
    decreases |ps|
  {
    if |ps| > 0 {
      var p := ps[0];
      var value := Fetch(params, p, readValue);
      var next := if value.Some? && p.index < |args| then args[p.index := Decoded(value.value)] else args;
      assert forall i :: 0 <= i < |ps| - 1 ==> ps[1..][i] == ps[i + 1];
      BindKept(ps[1..], params, readValue, next, k);
    }
  }

  /** Binding reads the params only through lookups by name. */
  lemma {:induction false} BindSameLookups(ps: seq<ParameterMetadata>, p1: Json, p2: Json,
                                           readValue: (Json, KType) -> Option<Json>, args: seq<Arg>)
    requires forall i :: 0 <= i < |ps| ==> Get(p1, ps[i].name) == Get(p2, ps[i].name)
    ensures Bind(ps, p1, readValue, args) == Bind(ps, p2, readValue, args)
    decreases |ps|
  {
    if |ps| > 0 {
      assert Fetch(p1, ps[0], readValue) == Fetch(p2, ps[0], readValue);
      var value := Fetch(p1, ps[0], readValue);
      var next := if value.Some? && ps[0].index < |args| then args[ps[0].index := Decoded(value.value)] else args;
      assert forall i :: 0 <= i < |ps| - 1 ==> ps[1..][i] == ps[i + 1];
      BindSameLookups(ps[1..], p1, p2, readValue, next);
    }
  }

  /** The arguments do not depend on the order in which the request writes its params. */
  lemma BoundArgumentsIgnoreKeyOrder(target: MethodMetadata, fs: seq<(string, Json)>, gs: seq<(string, Json)>,
                                     instance: ServiceObject, readValue: (Json, KType) -> Option<Json>)
    requires |target.parameters| > 0
    requires KeysDistinct(fs) && KeysDistinct(gs) && multiset(fs) == multiset(gs)
    ensures BoundArguments(target, JObject(fs), instance, readValue) == BoundArguments(target, JObject(gs), instance, readValue)
  {
    KeyOrderIrrelevant(fs, gs);
    BindSameLookups(target.parameters, JObject(fs), JObject(gs), readValue, InitialArguments(|target.parameters|, instance));
  }

  /** For a function the registry describes, the argument array has one slot per declared
      parameter, instance included; slot i holds the value read from the params field named
      like parameter i, else the instance in slot 0 and the `Unit` filler elsewhere. */
  lemma RegisteredArguments(f: KFunction, name: string, params: Json, instance: ServiceObject,
                            readValue: (Json, KType) -> Option<Json>, i: nat)
    requires ParameterNamesDistinct(f.parameters) && i < |f.parameters|
    ensures |MetadataOf(f, name).parameters| == |f.parameters|
    ensures var p := f.parameters[i];
            var args := BoundArguments(MetadataOf(f, name), params, instance, readValue);
            var read := match Get(params, ParameterName(p)) case None => None case Some(node) => readValue(node, p.paramType);
            && |args| == |f.parameters|
            && args[i] == (if read.Some? then Decoded(read.value) else if i == 0 then Instance(instance) else Unset)
  {
    var ps := ParametersOf(f.parameters);
    ParametersOfDistinct(f.parameters);
    assert IndicesDistinct(ps);
    var init := InitialArguments(|ps|, instance);
    if Fetch(params, ps[i], readValue).Some? {
      BindWritten(ps, params, readValue, init, i);
    } else {
      BindKept(ps, params, readValue, init, i);
    }
  }

  /** The error response depends only on the root cause of what was thrown. */
  lemma HandleErrorRootOnly(exception: Throwable)
    ensures HandleError(exception) == HandleError(RootCause(exception))
  {
    RootCauseIdempotent(exception);
  }

  /** Exceptions thrown through reflection arrive wrapped; the wrapper changes nothing. */
  lemma HandleErrorWrapped(anns: seq<Annotation>, msg: Option<string>, inner: Throwable)
    ensures HandleError(Throwable(anns, msg, Some(inner))) == HandleError(inner)
  {
  }

  /** A node that does not decode into a request is answered "Invalid Request" and the
      service is not called, whatever it would do. */
  lemma UndecodableNeverInvoked(registry: Registry, mapper: Mapper, node: Json, service: ServiceObject,
                                invoke1: Invoker, invoke2: Invoker)
    requires mapper.convertRequest(node).None?
    ensures HandleWrapper(registry, mapper, node, service, invoke1) == ErrorResponse(INVALID_REQUEST)
    ensures HandleWrapper(registry, mapper, node, service, invoke1) == HandleWrapper(registry, mapper, node, service, invoke2)
  {
  }

  /** Routing a request on a server made for class `c`: exactly which requests reach a
      function, and the protocol error for the others. */
  lemma {:induction false} RouteThroughRegistry(c: KClass, request: Request, service: ServiceObject)
    ensures var route := Resolve(map[c := ClassMetadataOf(c)], request, service);
            var shapeOk := request.params.JObject? || request.params.JArray? || request.params.JNull?;
            var exposed := exists i :: 0 <= i < |c.memberFunctions| && Exposure(c.memberFunctions[i]) == Some(request.methodName);
            && (route == Rejected(INVALID_REQUEST) <==> !shapeOk || service.cls != c)
            && (route == Rejected(METHOD_NOT_FOUND) <==> shapeOk && service.cls == c && (JsonRpcService !in c.annotations || !exposed))
            && (route.Found? <==> shapeOk && service.cls == c && JsonRpcService in c.annotations && exposed)
            && (route.Found? ==>
                  && route.target.name == request.methodName
                  && exists i :: 0 <= i < |c.memberFunctions|
                       && Exposure(c.memberFunctions[i]) == Some(request.methodName)
                       && route.target == MetadataOf(c.memberFunctions[i], request.methodName)
                       && forall j :: i < j < |c.memberFunctions| ==> Exposure(c.memberFunctions[j]) != Some(request.methodName))
  {
    var route := Resolve(map[c := ClassMetadataOf(c)], request, service);
    if route.Found? {
      MethodsOfLatest(c.memberFunctions, request.methodName);
    }
  }

  /** A request is answered without calling the service whenever routing rejects it. */
  lemma RejectedNeverInvoked(registry: Registry, mapper: Mapper, node: Json, service: ServiceObject, invoke: Invoker)
    requires mapper.convertRequest(node).Some?
    requires Resolve(registry, mapper.convertRequest(node).value, service).Rejected?
    ensures HandleWrapper(registry, mapper, node, service, invoke)
              == ErrorResponse(Resolve(registry, mapper.convertRequest(node).value, service).error)
  {
  }

  /** A routed request: a target without parameters fails on the empty argument array (an
      internal error); otherwise the call's value is the result, a null result is the string
      "ERROR", and what it throws is turned into an error response. */
  lemma CallOutcome(registry: Registry, mapper: Mapper, node: Json, service: ServiceObject, invoke: Invoker)
    requires mapper.convertRequest(node).Some?
    requires Resolve(registry, mapper.convertRequest(node).value, service).Found?
    ensures var request := mapper.convertRequest(node).value;
            var target := Resolve(registry, request, service).target;
            var answer := HandleWrapper(registry, mapper, node, service, invoke);
            && (|target.parameters| == 0 ==> answer == ErrorResponse(INTERNAL_ERROR))
            && (|target.parameters| > 0 ==>
                  var result := invoke(target, BoundArguments(target, request.params, service, mapper.readValue));
                  && (result.Returned? ==> answer == SuccessResponse(result.value))
                  && (result.ReturnedNull? ==> answer == SuccessResponse(JString("ERROR")))
                  && (result.Threw? ==> answer == ErrorResponse(HandleError(result.error))))
  {
    var target := Resolve(registry, mapper.convertRequest(node).value, service).target;
    if |target.parameters| == 0 {
      assert RootCause(EmptyArgumentArray) == EmptyArgumentArray;
    }
  }

  /** The dispatcher itself answers only "Invalid Request", "Method not found" and "Internal
      error"; any other error code is the code of a `@JsonRpcError` tag on the root cause of
      what the service threw. */
  lemma ErrorSources(registry: Registry, mapper: Mapper, node: Json, service: ServiceObject, invoke: Invoker)
    ensures var answer := HandleWrapper(registry, mapper, node, service, invoke);
            answer.ErrorResponse? ==>
              || answer.error in {INVALID_REQUEST, METHOD_NOT_FOUND, INTERNAL_ERROR}
              || (&& mapper.convertRequest(node).Some?
                  && var request := mapper.convertRequest(node).value;
                     && Resolve(registry, request, service).Found?
                     && var target := Resolve(registry, request, service).target;
                        && |target.parameters| > 0
                        && var result := invoke(target, BoundArguments(target, request.params, service, mapper.readValue));
                           && result.Threw?
                           && exists a :: a in RootCause(result.error).annotations && a.JsonRpcError? && a.code == answer.error.code)
  {
    var answer := HandleWrapper(registry, mapper, node, service, invoke);
    if answer.ErrorResponse? && mapper.convertRequest(node).Some? {
      var request := mapper.convertRequest(node).value;
      if Resolve(registry, request, service).Found? {
        CallOutcome(registry, mapper, node, service, invoke);
        var target := Resolve(registry, request, service).target;
        if |target.parameters| > 0 {
          var result := invoke(target, BoundArguments(target, request.params, service, mapper.readValue));
          if result.Threw? && answer.error != INTERNAL_ERROR {
            var anns := RootCause(result.error).annotations;
            var tag := GetAnnotation(anns, ErrorClass);
            assert tag.Some?;
            assert tag.value in anns && tag.value.JsonRpcError?;
          }
        }
      }
    }
  }
}
