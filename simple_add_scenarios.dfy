/** The dispatcher running against the `SimpleAddService` fixture: what the registry builds
    for it, and the answers to the requests of the fixture's tests and of the protocol's
    worked examples. */
module SimpleAddScenarios {
  import opened Wrappers
  import opened Json
  import opened Annotations
  import opened Throwables
  import opened KotlinReflect
  import opened Metadatas
  import opened Responses
  import opened RpcExceptions
  import opened Reflections
  import opened Server
  import opened ServerProperties
  import opened SimpleAddService

  // ---- a mapper and a JVM call for the fixture ----

  /** A request decodes from an object whose "method" is a string; absent "params" is null. */
  function ExampleConvertRequest(node: Json): Option<Request> {
    match Get(node, "method")
    case Some(JString(name)) => Some(Request(name, Get(node, "params").GetOr(JNull)))
    case _ => None
  }

  /** Numbers within `Int` read as `Int` or `Int?`; null reads as `Int?` only. */
  function ExampleReadValue(node: Json, t: KType): Option<Json> {
    if (t == "kotlin.Int" || t == "kotlin.Int?") && node.JNumber? && InInt32Range(node.n) then Some(node)
    else if t == "kotlin.Int?" && node.JNull? then Some(JNull)
    else None
  }

  /** A mapper whose parser knows a single text. */
  function ExampleMapper(text: string, root: Json): Mapper {
    Mapper((t: string) => if t == text then Tree(root) else NoContent, ExampleConvertRequest, ExampleReadValue)
  }

  const WrongArgumentCount: Throwable := Throwable([], Some("wrong number of arguments"), None)
  const ArgumentTypeMismatch: Throwable := Throwable([], Some("argument type mismatch"), None)

  /** Reflection wraps what the function body throws. */
  function InvocationTarget(cause: Throwable): Throwable {
    Throwable([], None, Some(cause))
  }

  function IntArg(a: Arg): Option<int32> {
    if a.Decoded? && a.value.JNumber? && InInt32Range(a.value.n) then Some(a.value.n as int32) else None
  }

  function NullableIntArg(a: Arg): Option<Option<int32>> {
    if a.Decoded? && a.value.JNull? then Some(None)
    else match IntArg(a)
      case Some(v) => Some(Some(v))
      case None => None
  }

  function Completed(r: Try<int32>): CallResult {
    match r
    case Normal(v) => Returned(JNumber(v as int))
    case Thrown(e) => Threw(InvocationTarget(e))
  }

  /** `KCallable.call` on the fixture's exposed functions: the receiver and two arguments of the
      declared types, else an `IllegalArgumentException`. */
  function Call(target: MethodMetadata, args: seq<Arg>): CallResult {
    if |args| != 3 then Threw(WrongArgumentCount)
    else if !args[0].Instance? then Threw(ArgumentTypeMismatch)
    else if target.callable == AddFunction then
      match (IntArg(args[1]), IntArg(args[2]))
      case (Some(a), Some(b)) => Returned(JNumber(Add(a, b) as int))
      case _ => Threw(ArgumentTypeMismatch)
    else if target.callable == SubtractFunction then
      match (IntArg(args[1]), NullableIntArg(args[2]))
      case (Some(a), Some(b)) => Completed(Subtract(a, b))
      case _ => Threw(ArgumentTypeMismatch)
    else if target.callable == ThrowingFunction then
      match (IntArg(args[1]), IntArg(args[2]))
      case (Some(a), Some(b)) => Completed(FunctionThatThrow(a, b))
      case _ => Threw(ArgumentTypeMismatch)
    else Threw(ArgumentTypeMismatch)
  }

  // ---- the registry ----

  const Registered: Registry := map[SimpleAddServiceClass := ClassMetadataOf(SimpleAddServiceClass)]

  lemma Exposures()
    ensures Exposure(AddFunction) == Some("add")
    ensures Exposure(SubtractFunction) == Some("subtract")
    ensures Exposure(PrivateFunction) == None
    ensures Exposure(ThrowingFunction) == Some("functionThatThrow")
    ensures Exposure(UnmarkedFunction) == None
    ensures Exposure(EqualsFunction) == None
    ensures Exposure(HashCodeFunction) == None
    ensures Exposure(ToStringFunction) == None
  {
  }

  /** Exactly `add`, `subtract` and `functionThatThrow` are exposed, each by one function. */
  lemma ExposedNames()
    ensures var fs := SimpleAddServiceClass.memberFunctions;
            && |fs| == 8
            && Exposure(fs[0]) == Some("add") && Exposure(fs[1]) == Some("subtract")
            && Exposure(fs[3]) == Some("functionThatThrow")
            && forall i :: 0 <= i < 8 && i != 0 && i != 1 && i != 3 ==> Exposure(fs[i]).None?
  {
    Exposures();
  }

  /** The test's expectations of the fixture's metadata: a service with exactly `add`,
      `subtract` and `functionThatThrow` (not the private nor the unmarked function). */
  lemma SimpleAddServiceMethods()
    ensures var md := ClassMetadataOf(SimpleAddServiceClass);
            && md.service
            && md.methods.Keys == {"add", "subtract", "functionThatThrow"}
  {
    var fs := SimpleAddServiceClass.memberFunctions;
    ExposedNames();
    var md := ClassMetadataOf(SimpleAddServiceClass);
    assert SimpleAddServiceClass.annotations[0] == JsonRpcService;
    forall k | k in md.methods ensures k in {"add", "subtract", "functionThatThrow"} {
      var i :| 0 <= i < |fs| && Exposure(fs[i]) == Some(k);
    }
    assert Exposure(fs[0]) == Some("add") && Exposure(fs[1]) == Some("subtract")
        && Exposure(fs[3]) == Some("functionThatThrow");
    ThreeKeys(md.methods, "add", "subtract", "functionThatThrow");
  }

  /** Each exposed name maps to the metadata of the function of that name. */
  lemma SimpleAddServiceEntries()
    ensures var methods := ClassMetadataOf(SimpleAddServiceClass).methods;
            && "add" in methods && methods["add"] == MetadataOf(AddFunction, "add")
            && "subtract" in methods && methods["subtract"] == MetadataOf(SubtractFunction, "subtract")
            && "functionThatThrow" in methods && methods["functionThatThrow"] == MetadataOf(ThrowingFunction, "functionThatThrow")
  {
    var fs := SimpleAddServiceClass.memberFunctions;
    ExposedNames();
    assert fs[0] == AddFunction && fs[1] == SubtractFunction && fs[3] == ThrowingFunction;
    Pick(fs, "add", 0);
    Pick(fs, "subtract", 1);
    Pick(fs, "functionThatThrow", 3);
  }

  lemma ThreeKeys<V>(m: map<string, V>, a: string, b: string, c: string)
    requires a in m && b in m && c in m
    requires forall k :: k in m ==> k in {a, b, c}
    ensures m.Keys == {a, b, c}
  {
  }

  /** `add` has three parameter entries, the receiver, `a` at index 1 and `b` at index 2. */
  lemma AddParameters()
    ensures var entries := MetadataOf(AddFunction, "add").parameters;
            && |entries| == 3
            && ParameterNamed(entries, "a") == Some(ParameterMetadata("a", "kotlin.Int", 1))
            && ParameterNamed(entries, "b") == Some(ParameterMetadata("b", "kotlin.Int", 2))
  {
    var ps := AddFunction.parameters;
    var receiver := ParameterName(ps[0]);
    assert |receiver| > 1;
    assert ParameterNamesDistinct(ps);
    ParametersOfDistinct(ps);
    var entries := MetadataOf(AddFunction, "add").parameters;
    assert entries == [ParameterMetadata(receiver, ClassName, 0),
                       ParameterMetadata("a", "kotlin.Int", 1), ParameterMetadata("b", "kotlin.Int", 2)];
    NamedAmongThree(entries[0], entries[1], entries[2]);
  }

  /** Looking up the second or the third of three differently named entries. */
  lemma NamedAmongThree(x: ParameterMetadata, y: ParameterMetadata, z: ParameterMetadata)
    requires x.name != y.name && x.name != z.name && y.name != z.name
    ensures ParameterNamed([x, y, z], y.name) == Some(y) && ParameterNamed([x, y, z], z.name) == Some(z)
  {
    assert [x, y, z][1..] == [y, z];
    assert [y, z][1..] == [z];
    assert ParameterNamed([x, y, z], y.name) == ParameterNamed([y, z], y.name);
    assert ParameterNamed([x, y, z], z.name) == ParameterNamed([y, z], z.name) == ParameterNamed([z], z.name);
  }

  lemma NotAKey<V>(m: map<string, V>, name: string)
    requires m.Keys == {"add", "subtract", "functionThatThrow"}
    requires name !in {"add", "subtract", "functionThatThrow"}
    ensures name !in m
  {
  }

  /** The entry stored under a name exposed by exactly one function is that function's. */
  lemma Pick(fs: seq<KFunction>, k: string, i: nat)
    requires i < |fs| && Exposure(fs[i]) == Some(k)
    requires forall j :: 0 <= j < |fs| && j != i ==> Exposure(fs[j]) != Some(k)
    ensures k in MethodsOf(fs) && MethodsOf(fs)[k] == MetadataOf(fs[i], k)
  {
    MethodsOfHas(fs, i);
    MethodsOfLatest(fs, k);
    var j :| 0 <= j < |fs| && Exposure(fs[j]) == Some(k) && MethodsOf(fs)[k] == MetadataOf(fs[j], k)
             && forall l :: j < l < |fs| ==> Exposure(fs[l]) != Some(k);
    assert j == i;
  }

  // ---- requests ----

  /** What binding stores for one parameter: the value read from the params field `key`, or
      the slot's initial content. */
  function Slot(params: Json, key: string, t: KType, initial: Arg): Arg {
    match Get(params, key)
    case None => initial
    case Some(node) =>
      match ExampleReadValue(node, t)
      case None => initial
      case Some(v) => Decoded(v)
  }

  /** The arguments bound for one of the fixture's two-`Int` functions. */
  lemma FixtureArguments(name: string, visibility: KVisibility, annotations: seq<Annotation>, bType: KType,
                         params: Json, instance: ServiceObject)
    ensures var f := TwoIntFunction(name, visibility, annotations, bType);
            && |MetadataOf(f, name).parameters| == 3
            && BoundArguments(MetadataOf(f, name), params, instance, ExampleReadValue)
                 == [Slot(params, ParameterName(Receiver(name)), ClassName, Instance(instance)),
                     Slot(params, "a", "kotlin.Int", Unset), Slot(params, "b", bType, Unset)]
  {
    var f := TwoIntFunction(name, visibility, annotations, bType);
    var ps := f.parameters;
    assert |ParameterName(ps[0])| > 1;
    assert ParameterNamesDistinct(ps);
    RegisteredArguments(f, name, params, instance, ExampleReadValue, 0);
    RegisteredArguments(f, name, params, instance, ExampleReadValue, 1);
    RegisteredArguments(f, name, params, instance, ExampleReadValue, 2);
  }

  function RequestNode(name: string, params: seq<(string, Json)>): Json {
    JObject([("method", JString(name)), ("params", JObject(params))])
  }

  const Service: ServiceObject := ServiceObject(SimpleAddServiceClass, 0)

  /** The answer to one request node on a server made for the fixture. */
  function Answer(node: Json): Response {
    HandleWrapper(Registered, ExampleMapper("", JNull), node, Service, Call)
  }

  /** Routing on the fixture's server: a decoded request reaches the function registered under
      its name. */
  lemma RoutesTo(name: string, params: seq<(string, Json)>, f: KFunction)
    requires name in {"add", "subtract", "functionThatThrow"}
    requires f == (if name == "add" then AddFunction else if name == "subtract" then SubtractFunction else ThrowingFunction)
    ensures Resolve(Registered, Request(name, JObject(params)), Service) == Found(MetadataOf(f, name))
  {
    SimpleAddServiceMethods();
    SimpleAddServiceEntries();
  }

  lemma ConvertRequestNode(name: string, params: seq<(string, Json)>)
    ensures ExampleConvertRequest(RequestNode(name, params)) == Some(Request(name, JObject(params)))
  {
    var fields := [("method", JString(name)), ("params", JObject(params))];
    assert FieldValue(fields, "method") == Some(JString(name)) by {
      assert fields[1].0 != "method";
      assert fields[..1] == [fields[0]];
    }
  }

  /** Once a request is decoded and routed to a target that takes parameters, the answer is
      what the call makes of the bound arguments. */
  lemma AnswerOfCall(registry: Registry, mapper: Mapper, node: Json, request: Request, target: MethodMetadata,
                     invoke: Invoker)
    requires mapper.convertRequest(node) == Some(request)
    requires Resolve(registry, request, Service) == Found(target)
    requires |target.parameters| > 0
    ensures var result := invoke(target, BoundArguments(target, request.params, Service, mapper.readValue));
            && (result.Returned? ==> HandleWrapper(registry, mapper, node, Service, invoke) == SuccessResponse(result.value))
            && (result.Threw? ==> HandleWrapper(registry, mapper, node, Service, invoke) == ErrorResponse(HandleError(result.error)))
  {
  }

  /** The three arguments of a call to `add(a, b)` or `functionThatThrow(a, b)` with both
      present as `Int`s. */
  lemma TwoIntCall(name: string, a: int32, b: int32)
    requires name in {"add", "subtract", "functionThatThrow"}
    ensures var f := TwoIntFunction(name, Public, [MethodDefault], if name == "subtract" then "kotlin.Int?" else "kotlin.Int");
            var params := [("a", JNumber(a as int)), ("b", JNumber(b as int))];
            BoundArguments(MetadataOf(f, name), JObject(params), Service, ExampleReadValue)
              == [Instance(Service), Decoded(JNumber(a as int)), Decoded(JNumber(b as int))]
  {
    var bType := if name == "subtract" then "kotlin.Int?" else "kotlin.Int";
    var params := [("a", JNumber(a as int)), ("b", JNumber(b as int))];
    FixtureArguments(name, Public, [MethodDefault], bType, JObject(params), Service);
    assert Get(JObject(params), ParameterName(Receiver(name))).None? by {
      assert |ParameterName(Receiver(name))| > 1;
    }
    assert Get(JObject(params), "a") == Some(JNumber(a as int)) by {
      assert params[..1] == [params[0]];
    }
    assert Get(JObject(params), "b") == Some(JNumber(b as int));
  }

  /** `{"method":"add","params":{"a":1,"b":2}}` is answered `{"result":3}`. */
  lemma AddScenario()
    ensures Answer(RequestNode("add", [("a", JNumber(1)), ("b", JNumber(2))])) == SuccessResponse(JNumber(3))
  {
    var params := [("a", JNumber(1)), ("b", JNumber(2))];
    var target := MetadataOf(AddFunction, "add");
    ConvertRequestNode("add", params);
    RoutesTo("add", params, AddFunction);
    TwoIntCall("add", 1, 2);
    var args := [Instance(Service), Decoded(JNumber(1)), Decoded(JNumber(2))];
    assert Call(target, args) == Returned(JNumber(3));
    AnswerOfCall(Registered, ExampleMapper("", JNull), RequestNode("add", params), Request("add", JObject(params)),
                 target, Call);
  }

  /** Binding reads fields by name: `{"b":2,"a":1}` binds as `{"a":1,"b":2}` does. */
  lemma ReorderedArguments()
    ensures BoundArguments(MetadataOf(AddFunction, "add"), JObject([("b", JNumber(2)), ("a", JNumber(1))]), Service, ExampleReadValue)
              == [Instance(Service), Decoded(JNumber(1)), Decoded(JNumber(2))]
  {
    var params := [("b", JNumber(2)), ("a", JNumber(1))];
    var ordered := [("a", JNumber(1)), ("b", JNumber(2))];
    var target := MetadataOf(AddFunction, "add");
    TwoIntCall("add", 1, 2);
    assert multiset(ordered) == multiset(params);
    assert |target.parameters| > 0 by {
      FixtureArguments("add", Public, [MethodDefault], "kotlin.Int", JObject(params), Service);
    }
    BoundArgumentsIgnoreKeyOrder(target, ordered, params, Service, ExampleReadValue);
  }

  /** The params may list `b` before `a`: the answer is the same. */
  lemma AddScenarioReordered()
    ensures Answer(RequestNode("add", [("b", JNumber(2)), ("a", JNumber(1))])) == SuccessResponse(JNumber(3))
  {
    var params := [("b", JNumber(2)), ("a", JNumber(1))];
    var target := MetadataOf(AddFunction, "add");
    ConvertRequestNode("add", params);
    RoutesTo("add", params, AddFunction);
    ReorderedArguments();
    var args := [Instance(Service), Decoded(JNumber(1)), Decoded(JNumber(2))];
    assert Call(target, args) == Returned(JNumber(3));
    AnswerOfCall(Registered, ExampleMapper("", JNull), RequestNode("add", params), Request("add", JObject(params)),
                 target, Call);
  }

  /** `{"method":"subtract","params":{"a":5,"b":1}}` is answered `{"result":4}`. */
  lemma SubtractScenario()
    ensures Answer(RequestNode("subtract", [("a", JNumber(5)), ("b", JNumber(1))])) == SuccessResponse(JNumber(4))
  {
    var params := [("a", JNumber(5)), ("b", JNumber(1))];
    var target := MetadataOf(SubtractFunction, "subtract");
    ConvertRequestNode("subtract", params);
    RoutesTo("subtract", params, SubtractFunction);
    TwoIntCall("subtract", 5, 1);
    var args := [Instance(Service), Decoded(JNumber(5)), Decoded(JNumber(1))];
    assert Call(target, args) == Returned(JNumber(4));
    AnswerOfCall(Registered, ExampleMapper("", JNull), RequestNode("subtract", params), Request("subtract", JObject(params)),
                 target, Call);
  }

  /** `{"method":"subtract","params":{"a":5}}`: the default of `b` is not applied by the
      positional call, which fails on the `Unit` filler, so the answer is an internal error. */
  lemma SubtractWithoutB()
    ensures Answer(RequestNode("subtract", [("a", JNumber(5))])) == ErrorResponse(INTERNAL_ERROR)
  {
    var params := [("a", JNumber(5))];
    var target := MetadataOf(SubtractFunction, "subtract");
    ConvertRequestNode("subtract", params);
    RoutesTo("subtract", params, SubtractFunction);
    FixtureArguments("subtract", Public, [MethodDefault], "kotlin.Int?", JObject(params), Service);
    assert Get(JObject(params), ParameterName(Receiver("subtract"))).None? by {
      assert |ParameterName(Receiver("subtract"))| > 1;
    }
    assert Get(JObject(params), "a") == Some(JNumber(5));
    assert Get(JObject(params), "b").None?;
    var args := [Instance(Service), Decoded(JNumber(5)), Unset];
    assert Call(target, args) == Threw(ArgumentTypeMismatch);
    AnswerOfCall(Registered, ExampleMapper("", JNull), RequestNode("subtract", params), Request("subtract", JObject(params)),
                 target, Call);
    assert RootCause(ArgumentTypeMismatch) == ArgumentTypeMismatch;
  }

  /** The fixture's server holds the class's metadata under the class. */
  lemma RegisteredEntry()
    ensures SimpleAddServiceClass in Registered
    ensures Registered[SimpleAddServiceClass].service
    ensures Registered[SimpleAddServiceClass].methods.Keys == {"add", "subtract", "functionThatThrow"}
  {
    SimpleAddServiceMethods();
  }

  /** A name no function is exposed under (the private and the unmarked function among them)
      is "Method not found". */
  lemma UnknownMethodScenario(name: string)
    requires name !in {"add", "subtract", "functionThatThrow"}
    ensures Answer(RequestNode(name, [])) == ErrorResponse(METHOD_NOT_FOUND)
  {
    ConvertRequestNode(name, []);
    UnknownRoute(name);
    RejectedNeverInvoked(Registered, ExampleMapper("", JNull), RequestNode(name, []), Service, Call);
  }

  lemma UnknownRoute(name: string)
    requires name !in {"add", "subtract", "functionThatThrow"}
    ensures Resolve(Registered, Request(name, JObject([])), Service) == Rejected(METHOD_NOT_FOUND)
  {
    RegisteredEntry();
    NotAKey(Registered[SimpleAddServiceClass].methods, name);
  }

  /** What `functionThatThrow` throws is answered with its tag's code and message. */
  lemma TestThrowAnswer()
    ensures HandleError(InvocationTarget(TestThrow)) == ErrorNode(1, "testError")
  {
    HandleErrorWrapped([], None, TestThrow);
    assert RootCause(TestThrow) == TestThrow;
    assert !Strings.IsBlank("testError") by {
      Strings.LeadingCharNotBlank("testError");
    }
  }

  /** `functionThatThrow` throws `TestThrow`, tagged (1, "testError"), through reflection's
      wrapper: the answer carries that code and message. */
  lemma ThrowScenario()
    ensures Answer(RequestNode("functionThatThrow", [("a", JNumber(1)), ("b", JNumber(2))]))
              == ErrorResponse(ErrorNode(1, "testError"))
  {
    var params := [("a", JNumber(1)), ("b", JNumber(2))];
    var target := MetadataOf(ThrowingFunction, "functionThatThrow");
    ConvertRequestNode("functionThatThrow", params);
    RoutesTo("functionThatThrow", params, ThrowingFunction);
    TwoIntCall("functionThatThrow", 1, 2);
    var args := [Instance(Service), Decoded(JNumber(1)), Decoded(JNumber(2))];
    assert Call(target, args) == Threw(InvocationTarget(TestThrow));
    AnswerOfCall(Registered, ExampleMapper("", JNull), RequestNode("functionThatThrow", params),
                 Request("functionThatThrow", JObject(params)), target, Call);
    TestThrowAnswer();
  }

  /** A params value that is a number is "Invalid Request", before any lookup. */
  lemma ScalarParamsScenario()
    ensures Answer(JObject([("method", JString("add")), ("params", JNumber(7))])) == ErrorResponse(INVALID_REQUEST)
  {
    var fields := [("method", JString("add")), ("params", JNumber(7))];
    assert FieldValue(fields, "method") == Some(JString("add")) by {
      assert fields[..1] == [fields[0]];
    }
    RejectedNeverInvoked(Registered, ExampleMapper("", JNull), JObject(fields), Service, Call);
  }

  /** Answering one node does not consult the parser. */
  lemma AnswerWithParser(text: string, root: Json, node: Json)
    ensures HandleWrapper(Registered, ExampleMapper(text, root), node, Service, Call) == Answer(node)
  {
    var m1, m2 := ExampleMapper(text, root), ExampleMapper("", JNull);
    assert m1.convertRequest == m2.convertRequest && m1.readValue == m2.readValue;
    SameDecodingSameAnswer(Registered, m1, m2, node, Service, Call);
  }

  lemma SameDecodingSameAnswer(registry: Registry, m1: Mapper, m2: Mapper, node: Json, service: ServiceObject,
                               invoke: Invoker)
    requires m1.convertRequest == m2.convertRequest && m1.readValue == m2.readValue
    ensures HandleWrapper(registry, m1, node, service, invoke) == HandleWrapper(registry, m2, node, service, invoke)
  {
  }

  const BatchText: string := "[{\"method\":\"add\",\"params\":{\"a\":1,\"b\":1}},{\"method\":\"unknown\",\"params\":{}}]"
  const BatchNode: Json := JArray([RequestNode("add", [("a", JNumber(1)), ("b", JNumber(1))]), RequestNode("unknown", [])])

  /** The answers to the two elements of `BatchNode`, on the fixture's server. */
  lemma BatchElementAnswers(registry: Registry)
    requires registry == map[Service.cls := ClassMetadataOf(Service.cls)]
    ensures |BatchNode.items| == 2
    ensures HandleWrapper(registry, ExampleMapper(BatchText, BatchNode), BatchNode.items[0], Service, Call)
              == SuccessResponse(JNumber(2))
    ensures HandleWrapper(registry, ExampleMapper(BatchText, BatchNode), BatchNode.items[1], Service, Call)
              == ErrorResponse(METHOD_NOT_FOUND)
  {
    assert registry == Registered;
    BatchAnswers();
    AnswerWithParser(BatchText, BatchNode, BatchNode.items[0]);
    AnswerWithParser(BatchText, BatchNode, BatchNode.items[1]);
  }

  /** The batch `[{"method":"add","params":{"a":1,"b":1}},{"method":"unknown","params":{}}]`
      on a server made for the fixture is answered `[{"result":2},{"error":-32601 ...}]`. */
  method BatchScenario() returns (reply: Reply)
    ensures reply == Batch([SuccessResponse(JNumber(2)), ErrorResponse(METHOD_NOT_FOUND)])
  {
    var server := new JsonRpcServer(Service, ExampleMapper(BatchText, BatchNode));
    assert server.mapper.readTree(BatchText) == Tree(BatchNode);
    reply := server.Handle(BatchText, Service, Call);
    BatchReply(reply, server.classesMetadata);
  }

  lemma BatchReply(reply: Reply, registry: Registry)
    requires registry == map[Service.cls := ClassMetadataOf(Service.cls)]
    requires reply.Batch? && |reply.responses| == |BatchNode.items|
    requires forall k :: 0 <= k < |BatchNode.items| ==>
               reply.responses[k] == HandleWrapper(registry, ExampleMapper(BatchText, BatchNode), BatchNode.items[k], Service, Call)
    ensures reply == Batch([SuccessResponse(JNumber(2)), ErrorResponse(METHOD_NOT_FOUND)])
  {
    BatchElementAnswers(registry);
    var m := ExampleMapper(BatchText, BatchNode);
    assert reply.responses[0] == HandleWrapper(registry, m, BatchNode.items[0], Service, Call);
    assert reply.responses[1] == HandleWrapper(registry, m, BatchNode.items[1], Service, Call);
    TwoElements(reply.responses, SuccessResponse(JNumber(2)), ErrorResponse(METHOD_NOT_FOUND));
  }

  lemma TwoElements<T>(s: seq<T>, a: T, b: T)
    requires |s| == 2 && s[0] == a && s[1] == b
    ensures s == [a, b]
  {
  }

  lemma BatchAnswers()
    ensures Answer(RequestNode("add", [("a", JNumber(1)), ("b", JNumber(1))])) == SuccessResponse(JNumber(2))
    ensures Answer(RequestNode("unknown", [])) == ErrorResponse(METHOD_NOT_FOUND)
  {
    var params := [("a", JNumber(1)), ("b", JNumber(1))];
    var target := MetadataOf(AddFunction, "add");
    ConvertRequestNode("add", params);
    RoutesTo("add", params, AddFunction);
    TwoIntCall("add", 1, 1);
    var args := [Instance(Service), Decoded(JNumber(1)), Decoded(JNumber(1))];
    assert Call(target, args) == Returned(JNumber(2));
    AnswerOfCall(Registered, ExampleMapper("", JNull), RequestNode("add", params), Request("add", JObject(params)),
                 target, Call);
    UnknownMethodScenario("unknown");
  }
}
