/** The operations of ImmutableNonEmptyIterable: the receiver has a head and
    never changes. Results are promoted with
    immutableNonEmptyIterableOrThrow; each contract shows the promotion
    cannot throw. */
module ImmutableNonEmptyIterable {
  import opened Adt
  import Streams
  import Seqs
  import opened Capabilities
  import opened EnhancedIterables
  import NonEmptyIterable

  /** tail: every element after the head, as an ImmutableIterable. */
  function Tail<A>(x: Iter<A>): (r: Iter<A>)
    requires Implements(x, ImmutableNonEmpty)
    ensures Implements(r, Immutable)
    ensures Streams.Equiv(Streams.Cons(NonEmptyIterable.Head(x), r.elems), x.elems)
  {
    Streams.ConsUncons(x.elems);
    Iter(Immutable, Streams.Drop(1, x.elems))
  }

  /** concat(ImmutableIterable): the receiver supplies the first element, so
      the promotion cannot throw, and the head is kept. */
  function Concat<A>(x: Iter<A>, other: Iter<A>): (r: Thrown<Iter<A>>)
    requires Implements(x, ImmutableNonEmpty) && Implements(other, Immutable)
    ensures r.Returned? && Implements(r.value, ImmutableNonEmpty)
    ensures Streams.Equiv(r.value.elems, Streams.Concat(x.elems, other.elems))
    ensures NonEmptyIterable.Head(r.value) == NonEmptyIterable.Head(x)
  {
    ImmutableNonEmptyOrThrow(FromPlain(Streams.Concat(x.elems, other.elems)))
  }

  /** fmap: mapping keeps the first element, so the promotion cannot throw. */
  function Fmap<A, B>(x: Iter<A>, f: A -> B): (r: Thrown<Iter<B>>)
    requires Implements(x, ImmutableNonEmpty)
    ensures r.Returned? && Implements(r.value, ImmutableNonEmpty)
    ensures Streams.Equiv(r.value.elems, Streams.Map(f, x.elems))
    ensures NonEmptyIterable.Head(r.value) == f(NonEmptyIterable.Head(x))
  {
    ImmutableNonEmptyOrThrow(FromPlain(Streams.Map(f, x.elems)))
  }

  /** intersperse. */
  function Intersperse<A>(x: Iter<A>, sep: A): (r: Thrown<Iter<A>>)
    requires Implements(x, ImmutableNonEmpty)
    ensures r.Returned? && Implements(r.value, ImmutableNonEmpty)
    ensures Streams.Equiv(r.value.elems, Streams.Intersperse(sep, x.elems))
    ensures NonEmptyIterable.Head(r.value) == NonEmptyIterable.Head(x)
  {
    ImmutableNonEmptyOrThrow(FromPlain(Streams.Intersperse(sep, x.elems)))
  }

  /** magnetizeBy, on a receiver whose elements end: the groups promoted as a
      whole, then each group promoted by this class's fmap; neither kind of
      promotion throws. */
  function MagnetizeBy<A>(x: Iter<A>, p: (A, A) -> bool): (r: Thrown<Iter<Thrown<Iter<A>>>>)
    requires Implements(x, ImmutableNonEmpty) && x.elems.Fin?
    ensures r.Returned? && Implements(r.value, ImmutableNonEmpty)
    ensures ElementsReturnImplementing(r.value.elems, ImmutableNonEmpty,
                                       Streams.FinEach(Seqs.MagnetizeBy(p, x.elems.elems)))
  {
    var gs := Streams.FinEach(Seqs.MagnetizeBy(p, x.elems.elems));
    match ImmutableNonEmptyOrThrow(FromPlain(gs))
    case IllegalArgument(m) => IllegalArgument(m)
    case Returned(outer) =>
      var r := Fmap(outer, PromoteImmutableNonEmpty);
      PromoteAllImmutableNonEmpty(gs);
      Streams.MapEquiv(PromoteImmutableNonEmpty, outer.elems, gs);
      Streams.EquivIsEquivalence(r.value.elems, Streams.Map(PromoteImmutableNonEmpty, outer.elems),
                                 Streams.Map(PromoteImmutableNonEmpty, gs));
      ElementsReturnImplementingEquiv(Streams.Map(PromoteImmutableNonEmpty, gs), r.value.elems, ImmutableNonEmpty, gs);
      r
  }

  /** prependAll: the separator comes first. */
  function PrependAll<A>(x: Iter<A>, sep: A): (r: Thrown<Iter<A>>)
    requires Implements(x, ImmutableNonEmpty)
    ensures r.Returned? && Implements(r.value, ImmutableNonEmpty)
    ensures Streams.Equiv(r.value.elems, Streams.PrependAll(sep, x.elems))
    ensures NonEmptyIterable.Head(r.value) == sep
  {
    ImmutableNonEmptyOrThrow(FromPlain(Streams.PrependAll(sep, x.elems)))
  }

  /** toFinite: present exactly when the tail object is an
      ImmutableFiniteIterable; nothing is iterated to find out. */
  function ToFinite<A>(x: Iter<A>, tail: Iter<A>): (r: Maybe<Iter<A>>)
    requires Implements(x, ImmutableNonEmpty) && Implements(tail, Immutable)
    requires NonEmptyIterable.IsTailOf(FromEnhanced(tail), x)
    ensures r.Just? <==> tail.caps.finite
    ensures r.Just? ==> Implements(r.value, ImmutableNonEmptyFinite) && r.value.elems == x.elems
  {
    var r := ImmutableNonEmptyMaybeFinite(NonEmptyIterable.Head(x), FromEnhanced(tail));
    if r.Just? then
      Streams.EquivIsEquivalence(r.value.elems, r.value.elems, x.elems);
      r
    else r
  }

  /** toNonEmpty: always the receiver itself. */
  function ToNonEmpty<A>(x: Iter<A>): (r: Maybe<Iter<A>>)
    requires Implements(x, ImmutableNonEmpty)
    ensures r == Just(x) && Implements(r.value, ImmutableNonEmpty)
  {
    Just(x)
  }

  /** zipWith(ImmutableNonEmptyIterable): both sides have a first element,
      so the promotion cannot throw. */
  function ZipWith<A, B, C>(x: Iter<A>, fn: (A, B) -> C, other: Iter<B>): (r: Thrown<Iter<C>>)
    requires Implements(x, ImmutableNonEmpty) && Implements(other, ImmutableNonEmpty)
    ensures r.Returned? && Implements(r.value, ImmutableNonEmpty)
    ensures Streams.Equiv(r.value.elems, Streams.ZipWith(fn, x.elems, other.elems))
    ensures NonEmptyIterable.Head(r.value) == fn(NonEmptyIterable.Head(x), NonEmptyIterable.Head(other))
  {
    ImmutableNonEmptyOrThrow(FromPlain(Streams.ZipWith(fn, x.elems, other.elems)))
  }

  /** zipWith(ImmutableNonEmptyFiniteIterable): finite because `other` is. */
  function ZipWithFinite<A, B, C>(x: Iter<A>, fn: (A, B) -> C, other: Iter<B>): (r: Thrown<Iter<C>>)
    requires Implements(x, ImmutableNonEmpty) && Implements(other, ImmutableNonEmptyFinite)
    ensures r.Returned? && Implements(r.value, ImmutableNonEmptyFinite)
    ensures r.value.elems == Streams.ZipWith(fn, x.elems, other.elems)
    ensures 1 <= |r.value.elems.elems| <= |other.elems.elems|
  {
    ImmutableNonEmptyFiniteOrThrow(FromPlain(Streams.ZipWith(fn, x.elems, other.elems)))
  }

  /** immutableNonEmptyIterable(head, tail). */
  function OfTail<A>(head: A, tail: Iter<A>): (r: Iter<A>)
    requires Implements(tail, Immutable)
    ensures Implements(r, ImmutableNonEmpty)
    ensures NonEmptyIterable.Head(r) == head
    ensures NonEmptyIterable.IsTailOf(FromEnhanced(tail), r)
  {
    var r := ImmutableNonEmptyOf(head, tail);
    Streams.EquivIsEquivalence(r.elems, r.elems, r.elems);
    r
  }
}
