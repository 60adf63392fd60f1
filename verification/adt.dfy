/** Small algebraic data types the library borrows from its functional support
    library: an optional value, a two-way choice, and the outcome of a call
    that may throw IllegalArgumentException. */
module Adt {

  /** An optional value, as returned by find, last, toFinite and toNonEmpty. */
  datatype Maybe<+T> = Nothing | Just(value: T)

  /** A value of one of two types; partition's classifier returns one. */
  datatype Choice<+L, +R> = Left(left: L) | Right(right: R)

  /** Either the call returned a value, or it threw IllegalArgumentException
      with the given message. No other exception is modelled. */
  datatype Thrown<+T> = Returned(value: T) | IllegalArgument(message: string)

  /** Applies a possibly-throwing function inside an optional value; a throw
      escapes to the caller, as `maybe.fmap(f)` does when `f` throws. */
  function TraverseMaybe<T, U>(m: Maybe<T>, f: T --> Thrown<U>): (r: Thrown<Maybe<U>>)
    requires m.Just? ==> f.requires(m.value)
    ensures m.Nothing? ==> r == Returned(Nothing)
    ensures m.Just? ==> (r.Returned? <==> f(m.value).Returned?)
    ensures m.Just? && r.Returned? ==> r.value == Just(f(m.value).value)
    ensures r.IllegalArgument? ==> m.Just? && r.message == f(m.value).message
  {
    match m
    case Nothing => Returned(Nothing)
    case Just(v) =>
      match f(v)
      case Returned(u) => Returned(Just(u))
      case IllegalArgument(msg) => IllegalArgument(msg)
  }
}
