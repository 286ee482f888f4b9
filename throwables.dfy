/** JVM exceptions as values: the annotations of the exception's class, its message and its
    cause. A computation that may throw returns a `Try`. */
module Throwables {
  import opened Wrappers
  import opened Annotations

  datatype Throwable = Throwable(annotations: seq<Annotation>, message: Option<string>, cause: Option<Throwable>)

  datatype Try<+T> = Normal(value: T) | Thrown(error: Throwable)

  /** `r` is `t` or lies further down `t`'s chain of causes. */
  ghost predicate CausedBy(t: Throwable, r: Throwable)
    decreases t
  {
    r == t || (t.cause.Some? && CausedBy(t.cause.value, r))
  }

  /** The innermost exception of the cause chain (`ClassUtil.getRootCause`). */
  function RootCause(t: Throwable): (r: Throwable)
    ensures r.cause.None?
    ensures CausedBy(t, r)
    decreases t
  {
    if t.cause.None? then t else RootCause(t.cause.value)
  }

  /** The root cause is the only exception without a cause on the chain. */
  lemma {:induction false} RootCauseUnique(t: Throwable, r: Throwable)
    requires CausedBy(t, r) && r.cause.None?
    ensures r == RootCause(t)
    decreases t
  {
    if r != t {
      RootCauseUnique(t.cause.value, r);
    }
  }

  /** Wrapping an exception (as `InvocationTargetException` does) keeps its root cause. */
  lemma WrappedRootCause(anns: seq<Annotation>, msg: Option<string>, inner: Throwable)
    ensures RootCause(Throwable(anns, msg, Some(inner))) == RootCause(inner)
  {
  }

  lemma {:induction false} RootCauseIdempotent(t: Throwable)
    ensures RootCause(RootCause(t)) == RootCause(t)
  {
  }
}
