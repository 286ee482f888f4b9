# JSON-RPC server core in Dafny

A model of the server core of `enihsyou/JSON-RPC`, a Kotlin implementation of JSON-RPC 2.0 over
reflection, together with the services that run behind it.

- **Registry** (`Reflections`, `Metadatas`): a service class becomes a `ClassMetadata`.
  - Every public member function marked `@JsonRpcMethod` is registered under its alias, or under its own name when the alias is blank.
  - A later function registered under the same name replaces an earlier one.
  - Each function's parameters form an insertion-ordered map from parameter name to (name, type, position). The instance parameter is included; it is keyed by its `toString()`.
  - The class is a service exactly when it carries `@JsonRpcService`.
- **Dispatcher** (`Server`, class `JsonRpcServer`). `Handle` parses the request text:
  - An object is one request.
  - An array is a batch, answered element by element and in order.
  - Empty input or any other value is a parse error.
  - `HandleWrapper` decodes one request; one that does not decode is "Invalid Request".
  - Routing checks, in this order: the shape of `params`, the registered class, the service flag and the method name.
  - `ConvertToMethodParams` fills the positional argument array, in place.
  - The function is then called. A null result becomes the string "ERROR".
  - `HandleError` turns any exception into an error response. It reads the `@JsonRpcError` tag of the root cause; an untagged root cause is "Internal error".
- **Protocol constants** (`RpcExceptions`, `Responses`): the five error objects, and the success and error responses.
- **Test fixture** (`SimpleAddService`): its functions, its class as reflection describes it, and end-to-end answers from a server made for it (`SimpleAddScenarios`).
- **Bank services**: the two in-memory bank services, as classes whose methods update shared `User` records in place.
  - `DemoBank.BankService` has exact `BigDecimal` balances.
  - `JsonRpcDemoBank.BankServiceImpl` has stricter rules.

Abstract pieces:
- **Jackson** is a `Mapper` value with three total functions:
  - parse a text into a tree, nothing, or a parse exception;
  - convert a tree into a request;
  - read a tree as a declared type.
- **Kotlin reflection** is made of records (`KFunction`, `KParameter`, `KClass`).
- **`KCallable.call`** is an `Invoker` function. It returns a value, returns null, or throws.
- **Exceptions** are `Throwable` values. Each holds the annotations of its class, a message and a cause.

Numbers in the JSON tree are integers. `Int` in the fixture is a 32-bit `newtype` with explicit wrap-around.

## Model

| member | source | states |
|---|---|---|
| Json.Get | server/src/main/kotlin/com/enihsyou/rpc/server/JsonRpcServer.kt:151 | `params.get(name)` finds something exactly when the node is an object that has a field with that name |
| Json.FieldValue | server/src/main/kotlin/com/enihsyou/rpc/server/JsonRpcServer.kt:151 | the lookup is empty exactly when no field has the name; otherwise it returns the value of the last field with that name |
| Json.FieldValueOfDistinct | server/src/main/kotlin/com/enihsyou/rpc/server/JsonRpcServer.kt:151 | with distinct keys, the lookup returns `v` exactly when the pair (name, v) is written in the object |
| Json.KeyOrderIrrelevant | server/src/main/kotlin/com/enihsyou/rpc/server/JsonRpcServer.kt:146-156 | two objects with the same distinct fields in a different order answer every lookup alike |
| Annotations.ClassOf | server/src/main/kotlin/com/enihsyou/rpc/server/Reflections.kt:21 | an annotation's class is the method, error or service marker exactly when the annotation is that marker |
| Throwables.RootCause | server/src/main/kotlin/com/enihsyou/rpc/server/JsonRpcServer.kt:104 | the root cause has no cause and lies on the exception's chain of causes |
| Throwables.RootCauseUnique | server/src/main/kotlin/com/enihsyou/rpc/server/JsonRpcServer.kt:104 | any exception on the chain that has no cause is the root cause |
| Throwables.WrappedRootCause | server/src/main/kotlin/com/enihsyou/rpc/server/JsonRpcServer.kt:104 | wrapping an exception in another one keeps its root cause |
| Throwables.RootCauseIdempotent | server/src/main/kotlin/com/enihsyou/rpc/server/JsonRpcServer.kt:104 | the root cause is its own root cause |
| Responses.ErrorNodeEquality | json_rpc/core/src/main/kotlin/com/enihsyou/rpc/core/message/Responses.kt:16-23 | two error nodes, or two error responses, are equal exactly when their code and message are equal (data-class equality) |
| Responses.ExactlyOneMember | json_rpc/core/src/main/kotlin/com/enihsyou/rpc/core/message/Responses.kt:5-14 | a response has a result or an error, never both and never neither |
| RpcExceptions.ProtocolErrors | json_rpc/core/src/main/kotlin/com/enihsyou/rpc/core/RpcExceptions.kt:6-10 | the five protocol errors have pairwise distinct codes, all in the range JSON-RPC reserves |
| Metadatas.ParameterNamed | server/src/main/kotlin/com/enihsyou/rpc/server/Metadatas.kt:26 | the parameter map finds an entry exactly when some entry has that key, and what it finds carries that key |
| Metadatas.ParameterNamedFirst | server/src/main/kotlin/com/enihsyou/rpc/server/Metadatas.kt:26 | the entry found is the first one stored under that key |
| Metadatas.Put | server/src/main/kotlin/com/enihsyou/rpc/server/Reflections.kt:70-71 | storing under a new key appends the entry at the end of the insertion order |
| Metadatas.PutLookup | server/src/main/kotlin/com/enihsyou/rpc/server/Reflections.kt:70-71 | after a store, the key finds the new entry, every other key finds what it found before, and keys stay distinct |
| Reflections.GetAnnotation | server/src/main/kotlin/com/enihsyou/rpc/server/Reflections.kt:20-22 | the result is empty exactly when no annotation has the class; otherwise it is the first annotation of that class |
| Reflections.ParametersOf | server/src/main/kotlin/com/enihsyou/rpc/server/Reflections.kt:64-74 | the parameter map has at most one entry per parameter, and at least one when the function has parameters. Its keys and entries are stated by `ParametersOfKeys` and `ParametersOfDistinct` |
| Reflections.GetFunctionParameters | server/src/main/kotlin/com/enihsyou/rpc/server/Reflections.kt:64-74 | the loop builds the map `ParametersOf` describes |
| Reflections.ParametersOfKeys | server/src/main/kotlin/com/enihsyou/rpc/server/Reflections.kt:67-72 | the map's keys are distinct; a key is present exactly when some parameter has that name; a parameter whose name no later parameter repeats is found with its type and position |
| Reflections.ParametersOfDistinct | server/src/main/kotlin/com/enihsyou/rpc/server/Reflections.kt:67-72 | with distinct parameter names the map holds one entry per parameter, in declaration order, each carrying its position |
| Reflections.Exposure | server/src/main/kotlin/com/enihsyou/rpc/server/Reflections.kt:35-45 | a function is registered exactly when it is public and carries `@JsonRpcMethod` |
| Reflections.ExposureAlias | server/src/main/kotlin/com/enihsyou/rpc/server/Reflections.kt:35-45 | a public function is registered under the alias of its first `@JsonRpcMethod`, or under its own name when that alias is blank |
| Reflections.MethodsOf | server/src/main/kotlin/com/enihsyou/rpc/server/Reflections.kt:29-56 | the method map has at most one entry per member function. Its keys and entries are stated by `MethodsOfHas`, `MethodsOfKeys` and `MethodsOfLatest` |
| Reflections.MethodsOfHas | server/src/main/kotlin/com/enihsyou/rpc/server/Reflections.kt:50-54 | every registered member function's name is a key of the method map |
| Reflections.MethodsOfKeys | server/src/main/kotlin/com/enihsyou/rpc/server/Reflections.kt:33-56 | a name is in the method map exactly when some member function is registered under it, and its entry carries that name |
| Reflections.MethodsOfLatest | server/src/main/kotlin/com/enihsyou/rpc/server/Reflections.kt:50-54 | the entry under a name describes the last member function registered under that name |
| Reflections.ClassMetadataOf | server/src/main/kotlin/com/enihsyou/rpc/server/Reflections.kt:58-60 | the class is a service exactly when it carries `@JsonRpcService`; the method names are exactly the registered ones |
| Reflections.GetClassMetadata | server/src/main/kotlin/com/enihsyou/rpc/server/Reflections.kt:29-61 | the loop, which skips functions that are not public or not marked, builds the metadata `ClassMetadataOf` describes |
| Server.HandleError | server/src/main/kotlin/com/enihsyou/rpc/server/JsonRpcServer.kt:103-111 | an untagged root cause gives "Internal error"; otherwise the code is that of the root cause's first `@JsonRpcError`, and the message is the tag's, or the root cause's message if the tag's is blank, or "" if that is null too |
| Server.Resolve | server/src/main/kotlin/com/enihsyou/rpc/server/JsonRpcServer.kt:120-131 | a request is routed to a function exactly when its params are an object, an array or null, its class is registered as a service, and the class has a function under the method name; the target is that entry. Every rejection is "Invalid Request" or "Method not found". `ServerProperties.RouteThroughRegistry` splits the rejections by condition |
| Server.HandleSingle | server/src/main/kotlin/com/enihsyou/rpc/server/JsonRpcServer.kt:118-137 | a rejected request is answered with its rejection, without a call; a success or an exception only comes from a routed call. `ServerProperties.CallOutcome` gives the answer of a routed call |
| Server.HandleWrapper | server/src/main/kotlin/com/enihsyou/rpc/server/JsonRpcServer.kt:80-94 | a node that does not decode is answered "Invalid Request"; a success answer only comes from a decoded and routed request. `ServerProperties.ErrorSources` says where every error answer comes from |
| Server.Bind | server/src/main/kotlin/com/enihsyou/rpc/server/JsonRpcServer.kt:146-160 | filling the array never changes its length |
| Server.JsonRpcServer.constructor | server/src/main/kotlin/com/enihsyou/rpc/server/JsonRpcServer.kt:37-41 | the registry holds exactly the service's class, mapped to the metadata the registry builds for it |
| Server.JsonRpcServer.Handle | server/src/main/kotlin/com/enihsyou/rpc/server/JsonRpcServer.kt:49-73 | a parse exception escapes. Empty input, or a root that is neither object nor array, gives "Parse error". An object gives its own answer. An array gives one answer per element, in the same order |
| Server.JsonRpcServer.ConvertToMethodParams | server/src/main/kotlin/com/enihsyou/rpc/server/JsonRpcServer.kt:143-163 | the array filled in place is the argument list `BoundArguments` describes |
| ServerProperties.BindWritten | server/src/main/kotlin/com/enihsyou/rpc/server/JsonRpcServer.kt:151-156 | with distinct indices, a parameter whose field reads successfully ends up at its index |
| ServerProperties.BindKept | server/src/main/kotlin/com/enihsyou/rpc/server/JsonRpcServer.kt:153-159 | a slot that no successfully read parameter targets keeps its initial content |
| ServerProperties.BindSameLookups | server/src/main/kotlin/com/enihsyou/rpc/server/JsonRpcServer.kt:146-160 | two params nodes that agree on every parameter name bind the same arguments |
| ServerProperties.BoundArgumentsIgnoreKeyOrder | server/src/main/kotlin/com/enihsyou/rpc/server/JsonRpcServer.kt:146-160 | reordering the distinct fields of `params` does not change the arguments |
| ServerProperties.RegisteredArguments | server/src/main/kotlin/com/enihsyou/rpc/server/JsonRpcServer.kt:143-160 | for a registered function, the array has one slot per declared parameter. Slot i holds the value read from the field named like parameter i if that read succeeds; otherwise it holds the instance in slot 0 and the `Unit` filler elsewhere |
| ServerProperties.HandleErrorRootOnly | server/src/main/kotlin/com/enihsyou/rpc/server/JsonRpcServer.kt:104-110 | the error response depends only on the root cause |
| ServerProperties.HandleErrorWrapped | server/src/main/kotlin/com/enihsyou/rpc/server/JsonRpcServer.kt:104 | an exception wrapped by reflection is answered like the exception itself |
| ServerProperties.UndecodableNeverInvoked | server/src/main/kotlin/com/enihsyou/rpc/server/JsonRpcServer.kt:81-85 | a node that does not decode is answered "Invalid Request" whatever the service code would do |
| ServerProperties.RouteThroughRegistry | server/src/main/kotlin/com/enihsyou/rpc/server/JsonRpcServer.kt:120-131 | on a server made for a class, the exact conditions for each outcome. "Invalid Request": bad params shape or another class. "Method not found": not a service, or no function registered under the name. Otherwise the request reaches the last function registered under its name |
| ServerProperties.RejectedNeverInvoked | server/src/main/kotlin/com/enihsyou/rpc/server/JsonRpcServer.kt:118-131 | a request rejected by routing is answered with the rejection's error, without a call |
| ServerProperties.CallOutcome | server/src/main/kotlin/com/enihsyou/rpc/server/JsonRpcServer.kt:118-137 | a routed function without parameters gives "Internal error". Otherwise a returned value is the result, null is "ERROR", and a thrown exception is answered through `handleError` |
| ServerProperties.ErrorSources | server/src/main/kotlin/com/enihsyou/rpc/server/JsonRpcServer.kt:80-111 | every error answer is "Invalid Request", "Method not found" or "Internal error", or carries the code of a `@JsonRpcError` tag on the root cause of what the called function threw |
| SimpleAddService.Wrap | server/src/test/kotlin/com/enihsyou/rpc/server/SimpleAddService.kt:12 | the wrapped value is congruent to the exact one modulo 2^32, and equal to it when that fits in `Int` |
| SimpleAddService.Add | server/src/test/kotlin/com/enihsyou/rpc/server/SimpleAddService.kt:10-13 | `a + b` modulo 2^32, and exactly `a + b` without overflow |
| SimpleAddService.Subtract | server/src/test/kotlin/com/enihsyou/rpc/server/SimpleAddService.kt:15-18 | a null `b` throws the failed cast and nothing else does; otherwise `a - b` modulo 2^32, exact without overflow |
| SimpleAddService.FunctionThatThrow | server/src/test/kotlin/com/enihsyou/rpc/server/SimpleAddService.kt:25-28 | never returns; the server answers what it throws with code 1 and message "testError" |
| SimpleAddService.NotRpcFunction | server/src/test/kotlin/com/enihsyou/rpc/server/SimpleAddService.kt:30-32 | `a * b` modulo 2^32, and exactly `a * b` without overflow |
| SimpleAddScenarios.Exposures | server/src/test/kotlin/com/enihsyou/rpc/server/SimpleAddService.kt:10-32 | `add`, `subtract` and `functionThatThrow` are registered under their names. The private function, the unmarked function and the members inherited from `Any` are not registered |
| SimpleAddScenarios.ExposedNames | server/src/test/kotlin/com/enihsyou/rpc/server/SimpleAddService.kt:7-32 | exactly three of the class's eight member functions are registered |
| SimpleAddScenarios.SimpleAddServiceMethods | json_rpc/server/src/test/kotlin/com/enihsyou/rpc/server/ReflectionsTest.kt:36-46 | the fixture is a service whose methods are exactly `add`, `subtract` and `functionThatThrow` |
| SimpleAddScenarios.SimpleAddServiceEntries | json_rpc/server/src/test/kotlin/com/enihsyou/rpc/server/ReflectionsTest.kt:43-47 | each of the three names maps to the metadata of the function of that name |
| SimpleAddScenarios.AddParameters | json_rpc/server/src/test/kotlin/com/enihsyou/rpc/server/ReflectionsTest.kt:47-58 | `add` has three parameter entries; `a` has type `Int` and index 1, `b` has type `Int` and index 2 |
| SimpleAddScenarios.RegisteredEntry | server/src/main/kotlin/com/enihsyou/rpc/server/JsonRpcServer.kt:39-41 | the fixture's server holds the fixture's class, as a service with its three methods |
| SimpleAddScenarios.FixtureArguments | server/src/main/kotlin/com/enihsyou/rpc/server/JsonRpcServer.kt:143-160 | for the fixture's two-argument functions, the three slots are read from the receiver's key, "a" and "b", with the instance and the filler as fallbacks |
| SimpleAddScenarios.RoutesTo | server/src/main/kotlin/com/enihsyou/rpc/server/JsonRpcServer.kt:125-131 | on the fixture's server, each of the three names routes to the function of that name |
| SimpleAddScenarios.UnknownRoute | server/src/main/kotlin/com/enihsyou/rpc/server/JsonRpcServer.kt:130-131 | any other name is "Method not found" |
| SimpleAddScenarios.AddScenario | server/src/test/kotlin/com/enihsyou/rpc/server/JsonRpcServerTest.kt:14-19 | `{"method":"add","params":{"a":1,"b":2}}` is answered with result 3 |
| SimpleAddScenarios.ReorderedArguments | server/src/main/kotlin/com/enihsyou/rpc/server/JsonRpcServer.kt:146-156 | `{"b":2,"a":1}` binds the same arguments as `{"a":1,"b":2}` |
| SimpleAddScenarios.AddScenarioReordered | server/src/main/kotlin/com/enihsyou/rpc/server/JsonRpcServer.kt:146-156 | the same request with `b` written before `a` is answered with result 3 |
| SimpleAddScenarios.SubtractScenario | server/src/test/kotlin/com/enihsyou/rpc/server/SimpleAddService.kt:15-18 | `subtract` with a=5, b=1 is answered with result 4 |
| SimpleAddScenarios.SubtractWithoutB | server/src/main/kotlin/com/enihsyou/rpc/server/JsonRpcServer.kt:133-135 | `subtract` with only a=5 is answered "Internal error", because the positional call receives the `Unit` filler instead of the default |
| SimpleAddScenarios.UnknownMethodScenario | server/src/main/kotlin/com/enihsyou/rpc/server/JsonRpcServer.kt:130-131 | a request for any name other than the three registered ones (`privateFunction`, `notRpcFunction`, ...) is answered "Method not found" |
| SimpleAddScenarios.TestThrowAnswer | server/src/test/kotlin/com/enihsyou/rpc/server/SimpleAddService.kt:34-35 | `TestThrow`, wrapped by reflection, is answered with code 1 and message "testError" |
| SimpleAddScenarios.ThrowScenario | server/src/test/kotlin/com/enihsyou/rpc/server/SimpleAddService.kt:25-28 | a call to `functionThatThrow` is answered with error (1, "testError") |
| SimpleAddScenarios.ScalarParamsScenario | server/src/main/kotlin/com/enihsyou/rpc/server/JsonRpcServer.kt:120-123 | a request whose `params` is a number is answered "Invalid Request" |
| SimpleAddScenarios.BatchScenario | server/src/main/kotlin/com/enihsyou/rpc/server/JsonRpcServer.kt:59-65 | a server made for the fixture answers the batch [add(1, 1), unknown] with [result 2, "Method not found"] |
| BankCommon.User.constructor | demo/src/main/kotlin/com/enihsyou/rpc/demo/BankService.kt:52 | a user is made with the given name, password and balance |
| BankCommon.FirstNamed | demo/src/main/kotlin/com/enihsyou/rpc/demo/BankService.kt:40-41 | `find` is empty exactly when no user has the name; otherwise it returns the first user with the name |
| BankCommon.FirstNamedUnique | json_rpc/demo/src/main/kotlin/com/enihsyou/rpc/demo/BankServiceImpl.kt:40-41 | with unique names, `find` returns the one user of that name |
| BankCommon.CredentialException | demo/src/main/kotlin/com/enihsyou/rpc/demo/BankService.kt:78-79 | whatever the username, the server answers it with code 1 and "用户名或密码不正确"; the username appears only in the exception's own message "<username> 登录失败" |
| BankCommon.CredentialAnswer | demo/src/main/kotlin/com/enihsyou/rpc/demo/BankService.kt:78-79 | a failed login is answered with code 1 and "用户名或密码不正确", bare or wrapped |
| BankCommon.NeedCredentialAnswer | demo/src/main/kotlin/com/enihsyou/rpc/demo/BankService.kt:81-82 | an unknown token is answered with code 2 and "用户未登录", bare or wrapped |
| DemoBank.BankService.constructor | demo/src/main/kotlin/com/enihsyou/rpc/demo/BankService.kt:34-36 | no users, no tokens |
| DemoBank.BankService.Login | demo/src/main/kotlin/com/enihsyou/rpc/demo/BankService.kt:39-47 | if the first user with the name has the password, the token now names that user and is returned. Otherwise `CredentialException(username)` is thrown and the tokens are unchanged |
| DemoBank.BankService.Register | demo/src/main/kotlin/com/enihsyou/rpc/demo/BankService.kt:51-53 | appends a fresh user with balance 0, even when the name is taken. Tokens and the total of balances are unchanged |
| DemoBank.BankService.Check | demo/src/main/kotlin/com/enihsyou/rpc/demo/BankService.kt:56-57 | returns the token's user's balance exactly when the token is known; otherwise throws `NeedCredentialException` |
| DemoBank.BankService.Deposit | demo/src/main/kotlin/com/enihsyou/rpc/demo/BankService.kt:60-61 | true exactly when the token is known. Only then is the token's user credited; no other balance changes. The total grows by the amount |
| DemoBank.BankService.Withdraw | demo/src/main/kotlin/com/enihsyou/rpc/demo/BankService.kt:64-65 | true exactly when the token is known. Only then is the token's user debited, with no balance check. The total shrinks by the amount |
| DemoBank.BankService.Transfer | demo/src/main/kotlin/com/enihsyou/rpc/demo/BankService.kt:68-75 | true exactly when the token is known and some user has the recipient's name. Only then is the token's user debited and the first such user credited. The total of all balances never changes |
| JsonRpcDemoBank.BankServiceImpl.constructor | json_rpc/demo/src/main/kotlin/com/enihsyou/rpc/demo/BankServiceImpl.kt:34-36 | no users, no tokens |
| JsonRpcDemoBank.BankServiceImpl.Login | json_rpc/demo/src/main/kotlin/com/enihsyou/rpc/demo/BankServiceImpl.kt:39-47 | succeeds exactly when some user has both the name and the password; the token then names that user. Otherwise `CredentialException(username)` is thrown and the tokens are unchanged |
| JsonRpcDemoBank.BankServiceImpl.Register | json_rpc/demo/src/main/kotlin/com/enihsyou/rpc/demo/BankServiceImpl.kt:51-55 | false, changing nothing, exactly when the name is taken. Otherwise a fresh user with balance 0 is appended. Names stay unique |
| JsonRpcDemoBank.BankServiceImpl.Check | json_rpc/demo/src/main/kotlin/com/enihsyou/rpc/demo/BankServiceImpl.kt:58-59 | returns the token's user's balance exactly when the token is known; otherwise throws `NeedCredentialException` |
| JsonRpcDemoBank.BankServiceImpl.Deposit | json_rpc/demo/src/main/kotlin/com/enihsyou/rpc/demo/BankServiceImpl.kt:62-63 | true exactly when the token is known. Only then is the token's user credited; no other balance changes |
| JsonRpcDemoBank.BankServiceImpl.Withdraw | json_rpc/demo/src/main/kotlin/com/enihsyou/rpc/demo/BankServiceImpl.kt:66-67 | true exactly when the token is known and its user's balance is at least the amount. Only then is that user debited, never below zero; otherwise nothing changes |
| JsonRpcDemoBank.BankServiceImpl.Transfer | json_rpc/demo/src/main/kotlin/com/enihsyou/rpc/demo/BankServiceImpl.kt:70-78 | true exactly when the token is known, a user has the recipient's name, and the sender's balance is at least the amount. Only then is the sender debited and the recipient credited; otherwise nothing changes |

## Left out

- Transport: the NIO selector loop, the sockets and the client. These are I/O.
- Serialisation with `writeValueAsString`. `Handle` returns the response values, not text.
- Jackson's parser and its type conversion. Both are abstract functions of the `Mapper`.
- Parse errors differ from the JSON-RPC 2.0 specification. Text that Jackson cannot parse raises an exception that escapes `handle`; the model follows the code (`Reply.Raised`). The specification expects "Parse error".
- Kotlin's reflection and `KCallable.call`. Classes and functions are records, and the call is an `Invoker` parameter.
- Server.JsonRpcServer.Handle: the elements of a batch are answered as independent calls of one `Invoker`, a function without state. In the source they run in order against one service object, so a batch such as [deposit, check] on a bank service lets a later element see an earlier one's effect; the model does not capture that.
- The order of `memberFunctions` is taken as given in the class record. Kotlin does not specify that order.
- `ParameterMetadata.kind` is never read by the dispatcher, so it is not modelled.
- The `jsonrpc` and `id` members, notifications, and the "Invalid params" error. The server produces none of them.
- Default parameter values. The positional call does not apply them (`subtract` without `b` gets "Internal error").
- The `println` in `handleWrapper`, the logger calls and `isAccessible`. They have no effect on the results.
- `UUID.randomUUID`. The token is a parameter of `Login` and may be any string.
- `User.kt` is not part of this model. `User` is a class with a fixed name, a fixed password and a mutable balance, as both services use it.
- DemoBank.BankService.Deposit: balances are integers. `BigDecimal` amounts with a fractional part are not modelled.
- JsonRpcDemoBank.BankServiceImpl.Deposit: `Double` arithmetic is idealised as exact integers. Rounding is not modelled, and no claim is made about the sum of balances.
- JsonRpcDemoBank.BankServiceImpl.Withdraw: `Double` arithmetic is idealised as exact integers. Rounding is not modelled.
- JsonRpcDemoBank.BankServiceImpl.Transfer: `Double` arithmetic is idealised as exact integers. Rounding is not modelled, and no claim is made about the sum of balances.
- The `rmi` module: the JDBC-backed bank, ZooKeeper discovery and the console clients.
- The superseded message classes of the older `core` module.
