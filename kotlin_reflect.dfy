/** What Kotlin reflection reports about a class, written out as plain records: the registry
    reads nothing else. `KParameter.index` is the parameter's position in `parameters`. */
module KotlinReflect {
  import opened Wrappers
  import opened Annotations

  /** A type, by its rendered name ("kotlin.Int", "kotlin.Int?"). */
  type KType = string

  datatype KVisibility = Public | Protected | Internal | Private

  /** `name` is None for the instance (receiver) parameter; `display` is `toString()`. */
  datatype KParameter = KParameter(name: Option<string>, paramType: KType, display: string)

  datatype KFunction = KFunction(
    name: string,
    visibility: KVisibility,
    annotations: seq<Annotation>,
    parameters: seq<KParameter>)

  /** A class with its `annotations` and its `memberFunctions`, inherited ones included. */
  datatype KClass = KClass(qualifiedName: string, annotations: seq<Annotation>, memberFunctions: seq<KFunction>)
}
