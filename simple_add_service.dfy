/** The test fixture service: two arithmetic functions, one that always throws, one private
    and one unmarked function, and the class description the registry sees. */
module SimpleAddService {
  import opened Wrappers
  import opened Json
  import opened Annotations
  import opened Throwables
  import opened KotlinReflect
  import opened Responses
  import Strings
  import Server

  /** Kotlin's `Int`. */
  newtype int32 = x: int | -0x8000_0000 <= x < 0x8000_0000

  predicate InInt32Range(x: int) {
    -0x8000_0000 <= x < 0x8000_0000
  }

  /** Two's-complement wrap-around of a mathematical integer into `Int`. */
  function Wrap(x: int): (r: int32)
    ensures (r as int - x) % 0x1_0000_0000 == 0
    ensures InInt32Range(x) ==> r as int == x
  {
    ((x + 0x8000_0000) % 0x1_0000_0000 - 0x8000_0000) as int32
  }

  /** `add(a, b)`: the 32-bit sum. */
  function Add(a: int32, b: int32): (r: int32)
    ensures (r as int - (a as int + b as int)) % 0x1_0000_0000 == 0
    ensures InInt32Range(a as int + b as int) ==> r as int == a as int + b as int
  {
    Wrap(a as int + b as int)
  }

  /** Casting a null `Int?` to `Int`. */
  const NullCast: Throwable := Throwable([], Some("null cannot be cast to non-null type kotlin.Int"), None)

  /** `subtract(a, b)`: the 32-bit difference; `b` is nullable and a null `b` fails the cast. */
  function Subtract(a: int32, b: Option<int32>): (r: Try<int32>)
    ensures b.None? <==> r == Thrown(NullCast)
    ensures b.Some? ==> r.Normal?
    ensures b.Some? ==> (r.value as int - (a as int - b.value as int)) % 0x1_0000_0000 == 0
    ensures b.Some? && InInt32Range(a as int - b.value as int) ==> r.value as int == a as int - b.value as int
  {
    match b
    case None => Thrown(NullCast)
    case Some(v) => Normal(Wrap(a as int - v as int))
  }

  /** The exception class `TestThrow`: tagged with code 1 and "testError"; thrown with no message. */
  const TestThrow: Throwable := Throwable([JsonRpcError(1, "testError")], None, None)

  /** `functionThatThrow(a, b)`: never returns; what it throws reaches the client as code 1
      with the message "testError". */
  function FunctionThatThrow(a: int32, b: int32): (r: Try<int32>)
    ensures r.Thrown? && Server.HandleError(r.error) == ErrorNode(1, "testError")
  {
    assert RootCause(TestThrow) == TestThrow;
    assert !Strings.IsBlank("testError") by {
      Strings.LeadingCharNotBlank("testError");
    }
    Thrown(TestThrow)
  }

  /** `notRpcFunction(a, b)`: the 32-bit product (never exposed). */
  function NotRpcFunction(a: int32, b: int32): (r: int32)
    ensures (r as int - a as int * b as int) % 0x1_0000_0000 == 0
    ensures InInt32Range(a as int * b as int) ==> r as int == a as int * b as int
  {
    Wrap(a as int * b as int)
  }

  // ---- the class as Kotlin reflection describes it ----

  const ClassName: string := "com.enihsyou.rpc.server.SimpleAddService"

  function Receiver(fun: string): KParameter {
    KParameter(None, ClassName, "instance parameter of fun " + ClassName + "." + fun)
  }

  function IntParameter(index: string, name: string, fun: string, paramType: KType): KParameter {
    KParameter(Some(name), paramType, "parameter #" + index + " " + name + " of fun " + ClassName + "." + fun)
  }

  function TwoIntFunction(name: string, visibility: KVisibility, annotations: seq<Annotation>, bType: KType): KFunction {
    KFunction(name, visibility, annotations,
      [Receiver(name), IntParameter("1", "a", name, "kotlin.Int"), IntParameter("2", "b", name, bType)])
  }

  const AddFunction: KFunction := TwoIntFunction("add", Public, [MethodDefault], "kotlin.Int")
  const SubtractFunction: KFunction := TwoIntFunction("subtract", Public, [MethodDefault], "kotlin.Int?")
  const PrivateFunction: KFunction := TwoIntFunction("privateFunction", Private, [MethodDefault], "kotlin.Int?")
  const ThrowingFunction: KFunction := TwoIntFunction("functionThatThrow", Public, [MethodDefault], "kotlin.Int")
  const UnmarkedFunction: KFunction := TwoIntFunction("notRpcFunction", Public, [], "kotlin.Int")

  /** The members every class inherits from `Any`. */
  const EqualsFunction: KFunction :=
    KFunction("equals", Public, [], [Receiver("equals"), KParameter(Some("other"), "kotlin.Any?", "parameter #1 other of fun kotlin.Any.equals")])
  const HashCodeFunction: KFunction := KFunction("hashCode", Public, [], [Receiver("hashCode")])
  const ToStringFunction: KFunction := KFunction("toString", Public, [], [Receiver("toString")])

  const SimpleAddServiceClass: KClass := KClass(ClassName, [JsonRpcService],
    [AddFunction, SubtractFunction, PrivateFunction, ThrowingFunction, UnmarkedFunction,
     EqualsFunction, HashCodeFunction, ToStringFunction])
}
