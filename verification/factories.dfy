/** Static factories that call back into the interface operations:
    finiteIterable(maxCount, iterable), copyFrom(maxCount, iterable), and
    the cycle and distinct of a possibly empty finite iterable. They sit in
    their own module because they depend on the interfaces, which depend on
    the package-private factories. */
module Factories {
  import opened Adt
  import Streams
  import Seqs
  import opened Capabilities
  import opened EnhancedIterables
  import EnhancedIterable
  import FiniteIterable
  import ImmutableIterable
  import ImmutableFiniteIterable

  /** finiteIterable(maxCount, iterable): enhance the iterable, then take
      from it; take dispatches on the enhanced value's class, so an
      immutable one keeps its immutability. A negative maxCount is rejected;
      otherwise the result holds at most maxCount elements, even from an
      infinite iterable. */
  function FiniteIterableAtMost<A>(maxCount: int, src: Source<A>): (r: Thrown<Iter<A>>)
    requires SourceValid(src)
    ensures r.IllegalArgument? <==> maxCount < 0
    ensures r.IllegalArgument? ==> r.message == "count must be >= 0"
    ensures r.Returned? ==> Implements(r.value, Finite)
    ensures r.Returned? ==> r.value.elems == Streams.Take(maxCount as nat, Elems(src))
    ensures r.Returned? ==> |r.value.elems.elems| <= maxCount
    ensures r.Returned? && IsInstance(src, Immutable) ==> Implements(r.value, ImmutableFinite)
  {
    var e := EnhanceProbing(src);
    var n: nat := if maxCount < 0 then 0 else maxCount;
    Streams.TakeEquiv(n, e.elems, Elems(src));
    if e.caps.immutable then ImmutableIterable.Take(e, maxCount)
    else EnhancedIterable.Take(e, maxCount)
  }

  /** copyFrom(maxCount, iterable): an immutable source is just taken from,
      without a copy; anything else is limited with finiteIterable(maxCount,
      ...) and then copied. Either way the result is immutable and finite and
      holds the first maxCount elements. */
  function CopyFromAtMost<A>(maxCount: int, src: Source<A>): (r: Thrown<Iter<A>>)
    requires SourceValid(src)
    ensures r.IllegalArgument? <==> maxCount < 0
    ensures r.IllegalArgument? ==> r.message == "count must be >= 0"
    ensures r.Returned? ==> Implements(r.value, ImmutableFinite)
    ensures r.Returned? ==> r.value.elems == Streams.Take(maxCount as nat, Elems(src))
  {
    if IsInstance(src, Immutable) then ImmutableIterable.Take(src.it, maxCount)
    else
      match FiniteIterableAtMost(maxCount, src)
      case IllegalArgument(m) => IllegalArgument(m)
      case Returned(f) => Returned(CopyFrom(f))
  }

  /** cycle(FiniteIterable): the shared empty value for no elements;
      otherwise the non-empty view cycled forever. */
  function Cycle<A>(x: Iter<A>): (r: Iter<A>)
    requires Implements(x, Finite)
    ensures Valid(r)
    ensures |x.elems.elems| == 0 ==> Implements(r, ImmutableFinite) && Streams.IsEmpty(r.elems)
    ensures |x.elems.elems| > 0 ==>
              Implements(r, NonEmpty) && !r.caps.finite && r.elems == Streams.Cycle(x.elems.elems)
  {
    match FiniteIterable.ToNonEmpty(x).value
    case Nothing => Empty()
    case Just(ne) => NonEmptyCycle(ne)
  }

  /** cycle(ImmutableFiniteIterable): as cycle, keeping immutability. */
  function ImmutableCycle<A>(x: Iter<A>): (r: Iter<A>)
    requires Implements(x, ImmutableFinite)
    ensures Implements(r, Immutable)
    ensures |x.elems.elems| == 0 ==> Implements(r, ImmutableFinite) && Streams.IsEmpty(r.elems)
    ensures |x.elems.elems| > 0 ==>
              Implements(r, ImmutableNonEmpty) && !r.caps.finite && r.elems == Streams.Cycle(x.elems.elems)
  {
    match ImmutableFiniteIterable.ToNonEmpty(x).value
    case Nothing => Empty()
    case Just(ne) => ImmutableNonEmptyCycle(ne)
  }

  /** distinct(FiniteIterable): the first occurrence of every element, in
      order; tagged non-empty exactly when the receiver has an element. */
  function Distinct<A(==)>(x: Iter<A>): (r: Iter<A>)
    requires Implements(x, Finite)
    ensures Implements(r, Finite)
    ensures r.elems == Streams.Fin(Seqs.Distinct(x.elems.elems))
    ensures Seqs.NoDup(r.elems.elems)
    ensures r.caps.nonEmpty <==> |x.elems.elems| > 0
  {
    match FiniteIterable.ToNonEmpty(x).value
    case Nothing => Empty()
    case Just(ne) => NonEmptyDistinct(ne)
  }

  /** distinct(ImmutableFiniteIterable): as distinct, keeping
      immutability. */
  function ImmutableDistinct<A(==)>(x: Iter<A>): (r: Iter<A>)
    requires Implements(x, ImmutableFinite)
    ensures Implements(r, ImmutableFinite)
    ensures r.elems == Streams.Fin(Seqs.Distinct(x.elems.elems))
    ensures Seqs.NoDup(r.elems.elems)
    ensures r.caps.nonEmpty <==> |x.elems.elems| > 0
  {
    match ImmutableFiniteIterable.ToNonEmpty(x).value
    case Nothing => Empty()
    case Just(ne) => ImmutableNonEmptyDistinct(ne)
  }
}
