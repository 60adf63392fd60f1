/** The operations of ImmutableNonEmptyFiniteIterable: the receiver has a
    head, its elements end, and it never changes. Results are promoted with
    immutableNonEmptyFiniteIterableOrThrow; each contract shows the
    promotion cannot throw and its tag is truthful. */
module ImmutableNonEmptyFiniteIterable {
  import opened Adt
  import Streams
  import Seqs
  import opened Capabilities
  import opened EnhancedIterables

  /** tail: every element after the head, as an ImmutableFiniteIterable. */
  function Tail<A>(x: Iter<A>): (r: Iter<A>)
    requires Implements(x, ImmutableNonEmptyFinite)
    ensures Implements(r, ImmutableFinite)
    ensures [x.elems.elems[0]] + r.elems.elems == x.elems.elems
  {
    Iter(ImmutableFinite, Streams.Fin(x.elems.elems[1..]))
  }

  /** concat(ImmutableFiniteIterable). */
  function Concat<A>(x: Iter<A>, other: Iter<A>): (r: Thrown<Iter<A>>)
    requires Implements(x, ImmutableNonEmptyFinite) && Implements(other, ImmutableFinite)
    ensures r.Returned? && Implements(r.value, ImmutableNonEmptyFinite)
    ensures r.value.elems == Streams.Fin(x.elems.elems + other.elems.elems)
  {
    ImmutableNonEmptyFiniteOrThrow(FromPlain(Streams.Concat(x.elems, other.elems)))
  }

  /** cross(ImmutableNonEmptyFiniteIterable): both sides have an element, so
      there is a first pair. */
  function Cross<A, B>(x: Iter<A>, other: Iter<B>): (r: Thrown<Iter<(A, B)>>)
    requires Implements(x, ImmutableNonEmptyFinite) && Implements(other, ImmutableNonEmptyFinite)
    ensures r.Returned? && Implements(r.value, ImmutableNonEmptyFinite)
    ensures r.value.elems == Streams.Fin(Seqs.Cross(x.elems.elems, other.elems.elems))
    ensures |r.value.elems.elems| == |x.elems.elems| * |other.elems.elems|
  {
    Seqs.CrossEmpty(x.elems.elems, other.elems.elems);
    ImmutableNonEmptyFiniteOrThrow(FromPlain(Streams.Fin(Seqs.Cross(x.elems.elems, other.elems.elems))))
  }

  /** fmap: the count unchanged, so the promotion cannot throw. */
  function Fmap<A, B>(x: Iter<A>, f: A -> B): (r: Thrown<Iter<B>>)
    requires Implements(x, ImmutableNonEmptyFinite)
    ensures r.Returned? && Implements(r.value, ImmutableNonEmptyFinite)
    ensures |r.value.elems.elems| == |x.elems.elems|
    ensures forall i :: 0 <= i < |x.elems.elems| ==> r.value.elems.elems[i] == f(x.elems.elems[i])
  {
    ImmutableNonEmptyFiniteOrThrow(FromPlain(Streams.Map(f, x.elems)))
  }

  /** init: every element but the last, tagged immutable and finite. */
  function Init<A>(x: Iter<A>): (r: Iter<A>)
    requires Implements(x, ImmutableNonEmptyFinite)
    ensures Implements(r, ImmutableFinite)
    ensures r.elems.elems + [x.elems.elems[|x.elems.elems| - 1]] == x.elems.elems
  {
    Seqs.InitLast(x.elems.elems);
    ProtectedImmutableFinite(FromPlain(Streams.Fin(Seqs.Init(x.elems.elems))))
  }

  /** intersperse. */
  function Intersperse<A>(x: Iter<A>, sep: A): (r: Thrown<Iter<A>>)
    requires Implements(x, ImmutableNonEmptyFinite)
    ensures r.Returned? && Implements(r.value, ImmutableNonEmptyFinite)
    ensures r.value.elems == Streams.Fin(Seqs.Intersperse(sep, x.elems.elems))
  {
    ImmutableNonEmptyFiniteOrThrow(FromPlain(Streams.Intersperse(sep, x.elems)))
  }

  /** prepend: `e` in front of the receiver, which becomes the tail. */
  function Prepend<A>(x: Iter<A>, e: A): (r: Iter<A>)
    requires Implements(x, ImmutableNonEmptyFinite)
    ensures Implements(r, ImmutableNonEmptyFinite)
    ensures r.elems == Streams.Fin([e] + x.elems.elems)
    ensures Tail(r).elems == x.elems
  {
    ImmutableNonEmptyFiniteOf(e, x)
  }

  /** prependAll. */
  function PrependAll<A>(x: Iter<A>, sep: A): (r: Thrown<Iter<A>>)
    requires Implements(x, ImmutableNonEmptyFinite)
    ensures r.Returned? && Implements(r.value, ImmutableNonEmptyFinite)
    ensures r.value.elems == Streams.Fin(Seqs.PrependAll(sep, x.elems.elems))
  {
    ImmutableNonEmptyFiniteOrThrow(FromPlain(Streams.PrependAll(sep, x.elems)))
  }

  /** reverse: the last element comes first. */
  function Reverse<A>(x: Iter<A>): (r: Thrown<Iter<A>>)
    requires Implements(x, ImmutableNonEmptyFinite)
    ensures r.Returned? && Implements(r.value, ImmutableNonEmptyFinite)
    ensures r.value.elems == Streams.Fin(Seqs.Reverse(x.elems.elems))
    ensures forall i :: 0 <= i < |x.elems.elems| ==>
              r.value.elems.elems[i] == x.elems.elems[|x.elems.elems| - 1 - i]
  {
    ImmutableNonEmptyFiniteOrThrow(FromPlain(Streams.Fin(Seqs.Reverse(x.elems.elems))))
  }

  /** toFinite: always the receiver itself. */
  function ToFinite<A>(x: Iter<A>): (r: Maybe<Iter<A>>)
    requires Implements(x, ImmutableNonEmptyFinite)
    ensures r == Just(x) && Implements(r.value, ImmutableNonEmptyFinite)
  {
    Just(x)
  }

  /** toNonEmpty: always the receiver itself. */
  function ToNonEmpty<A>(x: Iter<A>): (r: Maybe<Iter<A>>)
    requires Implements(x, ImmutableNonEmptyFinite)
    ensures r == Just(x) && Implements(r.value, ImmutableNonEmptyFinite)
  {
    Just(x)
  }

  /** zipWith(ImmutableNonEmptyIterable): at least one pair and no more
      than the receiver has elements. */
  function ZipWith<A, B, C>(x: Iter<A>, fn: (A, B) -> C, other: Iter<B>): (r: Thrown<Iter<C>>)
    requires Implements(x, ImmutableNonEmptyFinite) && Implements(other, ImmutableNonEmpty)
    ensures r.Returned? && Implements(r.value, ImmutableNonEmptyFinite)
    ensures r.value.elems == Streams.ZipWith(fn, x.elems, other.elems)
    ensures 1 <= |r.value.elems.elems| <= |x.elems.elems|
  {
    ImmutableNonEmptyFiniteOrThrow(FromPlain(Streams.ZipWith(fn, x.elems, other.elems)))
  }

  /** immutableNonEmptyFiniteIterable(head, tail). */
  function OfTail<A>(head: A, tail: Iter<A>): (r: Iter<A>)
    requires Implements(tail, ImmutableFinite)
    ensures Implements(r, ImmutableNonEmptyFinite)
    ensures r.elems == Streams.Fin([head] + tail.elems.elems)
  {
    ImmutableNonEmptyFiniteOf(head, tail)
  }
}
