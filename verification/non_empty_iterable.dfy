/** The operations of NonEmptyIterable: the receiver has a first element,
    its head, and iterating it yields the head followed by its tail. The
    model's iterable records only the elements, not the tail object, so an
    operation that looks at the tail's runtime class takes that tail as a
    second argument. */
module NonEmptyIterable {
  import opened Adt
  import Streams
  import opened Capabilities
  import opened EnhancedIterables
  import Seqs

  /** head: the first element. */
  function Head<A>(x: Iter<A>): (r: A)
    requires Implements(x, NonEmpty)
    ensures Streams.Defined(x.elems, 0) && r == Streams.At(x.elems, 0)
  {
    Streams.At(x.elems, 0)
  }

  /** tail: every element after the head, as an EnhancedIterable. */
  function Tail<A>(x: Iter<A>): (r: Iter<A>)
    requires Implements(x, NonEmpty)
    ensures Implements(r, Enhanced)
    ensures Streams.Equiv(Streams.Cons(Head(x), r.elems), x.elems)
  {
    Streams.ConsUncons(x.elems);
    Iter(Enhanced, Streams.Drop(1, x.elems))
  }

  /** `tail` is a tail of `x`: consing the head onto it gives `x`'s
      elements. */
  ghost predicate IsTailOf<A>(tail: Source<A>, x: Iter<A>)
    requires Implements(x, NonEmpty)
  {
    Streams.Equiv(Streams.Cons(Head(x), Elems(tail)), x.elems)
  }

  /** iterator: iteration yields the head, then the elements of the tail,
      and so never ends before its first element. */
  lemma {:induction false} IterationIsHeadThenTail<A>(x: Iter<A>)
    requires Implements(x, NonEmpty)
    ensures !Streams.IsEmpty(x.elems)
    ensures Streams.At(x.elems, 0) == Head(x)
    ensures forall i: nat :: Streams.Defined(Tail(x).elems, i) <==> Streams.Defined(x.elems, i + 1)
    ensures forall i: nat | Streams.Defined(Tail(x).elems, i) ::
              Streams.At(Tail(x).elems, i) == Streams.At(x.elems, i + 1)
  {
  }

  /** concat: the receiver's elements, then `other`'s; non-empty because the
      receiver is, so the promotion cannot throw, and the head is kept. */
  function Concat<A>(x: Iter<A>, other: Source<A>): (r: Thrown<Iter<A>>)
    requires Implements(x, NonEmpty) && SourceValid(other)
    ensures r.Returned? && Implements(r.value, NonEmpty)
    ensures Streams.Equiv(r.value.elems, Streams.Concat(x.elems, Elems(other)))
    ensures Head(r.value) == Head(x)
  {
    NonEmptyOrThrow(FromPlain(Streams.Concat(x.elems, Elems(other))))
  }

  /** fmap: `f` of the head, followed by `f` mapped over the tail; the same
      elements as mapping `f` over the receiver. */
  function Fmap<A, B>(x: Iter<A>, f: A -> B): (r: Iter<B>)
    requires Implements(x, NonEmpty)
    ensures Implements(r, NonEmpty) && r.caps == NonEmpty
    ensures Head(r) == f(Head(x))
    ensures Streams.Equiv(r.elems, Streams.Map(f, x.elems))
  {
    Streams.MapCons(f, x.elems);
    NonEmptyOf(f(Head(x)), FromPlain(Streams.Map(f, Tail(x).elems)))
  }

  /** isEmpty: always false, without iterating. */
  function IsEmpty<A>(x: Iter<A>): (r: bool)
    requires Implements(x, NonEmpty)
    ensures !r && (r <==> Streams.IsEmpty(x.elems))
  {
    false
  }

  /** intersperse: the promotion cannot throw because the receiver has an
      element. */
  function Intersperse<A>(x: Iter<A>, sep: A): (r: Thrown<Iter<A>>)
    requires Implements(x, NonEmpty)
    ensures r.Returned? && Implements(r.value, NonEmpty)
    ensures Streams.Equiv(r.value.elems, Streams.Intersperse(sep, x.elems))
    ensures Head(r.value) == Head(x)
  {
    NonEmptyOrThrow(FromPlain(Streams.Intersperse(sep, x.elems)))
  }

  /** magnetizeBy, on a receiver whose elements end: at least one group, and
      every group non-empty, so neither the outer promotion nor any inner one
      throws. */
  function MagnetizeBy<A>(x: Iter<A>, p: (A, A) -> bool): (r: Thrown<Iter<Thrown<Iter<A>>>>)
    requires Implements(x, NonEmpty) && x.elems.Fin?
    ensures r.Returned? && Implements(r.value, NonEmpty)
    ensures ElementsReturnImplementing(r.value.elems, NonEmpty,
                                       Streams.FinEach(Seqs.MagnetizeBy(p, x.elems.elems)))
  {
    var gs := Streams.FinEach(Seqs.MagnetizeBy(p, x.elems.elems));
    match NonEmptyOrThrow(FromPlain(gs))
    case IllegalArgument(m) => IllegalArgument(m)
    case Returned(outer) =>
      var r := Fmap(outer, PromoteNonEmpty);
      PromoteAllNonEmpty(gs);
      Streams.MapEquiv(PromoteNonEmpty, outer.elems, gs);
      Streams.EquivIsEquivalence(r.elems, Streams.Map(PromoteNonEmpty, outer.elems), Streams.Map(PromoteNonEmpty, gs));
      ElementsReturnImplementingEquiv(Streams.Map(PromoteNonEmpty, gs), r.elems, NonEmpty, gs);
      Returned(r)
  }

  /** prependAll: the separator comes first, so the result is non-empty. */
  function PrependAll<A>(x: Iter<A>, sep: A): (r: Thrown<Iter<A>>)
    requires Implements(x, NonEmpty)
    ensures r.Returned? && Implements(r.value, NonEmpty)
    ensures Streams.Equiv(r.value.elems, Streams.PrependAll(sep, x.elems))
    ensures Head(r.value) == sep
  {
    NonEmptyOrThrow(FromPlain(Streams.PrependAll(sep, x.elems)))
  }

  /** toFinite: present exactly when the tail object is known to be finite,
      a FiniteIterable or a collection; nothing is iterated to find out. */
  function ToFinite<A>(x: Iter<A>, tail: Source<A>): (r: Maybe<Iter<A>>)
    requires Implements(x, NonEmpty) && SourceValid(tail) && IsTailOf(tail, x)
    ensures r.Just? <==> IsInstance(tail, Finite) || tail.FromCollection?
    ensures r.Just? ==> Implements(r.value, NonEmptyFinite) && r.value.elems == x.elems
  {
    NonEmptyMaybeFinite(Head(x), tail)
  }

  /** A repetition's tail is itself, which is not a FiniteIterable, so its
      toFinite is absent. */
  lemma RepeatIsNotFinite<A>(e: A)
    ensures IsTailOf(FromEnhanced(Repeat(e)), Repeat(e))
    ensures ToFinite(Repeat(e), FromEnhanced(Repeat(e))) == Nothing
  {
    var x := Repeat(e);
    Streams.ConsUncons(x.elems);
    Streams.EquivIsEquivalence(Streams.Cons(e, Streams.Drop(1, x.elems)), Streams.Cons(e, x.elems), x.elems);
    assert Streams.Equiv(Streams.Cons(e, x.elems), x.elems) by {
      forall i: nat
        ensures Streams.At(Streams.Cons(e, x.elems), i) == Streams.At(x.elems, i)
      {
        if i > 0 {
          assert Streams.At(Streams.Cons(e, x.elems), (i - 1) + 1) == Streams.At(x.elems, i - 1);
        }
      }
    }
  }

  /** toNonEmpty: always the receiver itself. */
  function ToNonEmpty<A>(x: Iter<A>): (r: Maybe<Iter<A>>)
    requires Implements(x, NonEmpty)
    ensures r == Just(x) && Implements(r.value, NonEmpty)
  {
    Just(x)
  }

  /** zipWith(NonEmptyIterable): `fn` of the two heads, followed by the zip
      of the two tails; the same elements as zipping the two receivers. */
  function ZipWith<A, B, C>(x: Iter<A>, fn: (A, B) -> C, other: Iter<B>): (r: Iter<C>)
    requires Implements(x, NonEmpty) && Implements(other, NonEmpty)
    ensures Implements(r, NonEmpty)
    ensures Head(r) == fn(Head(x), Head(other))
    ensures Streams.Equiv(r.elems, Streams.ZipWith(fn, x.elems, other.elems))
  {
    Streams.ZipWithCons(fn, x.elems, other.elems);
    NonEmptyOf(fn(Head(x), Head(other)), FromPlain(Streams.ZipWith(fn, Tail(x).elems, Tail(other).elems)))
  }

  /** zipWith(NonEmptyFiniteIterable): finite because `other` is, non-empty
      because both are, so the promotion cannot throw. */
  function ZipWithFinite<A, B, C>(x: Iter<A>, fn: (A, B) -> C, other: Iter<B>): (r: Thrown<Iter<C>>)
    requires Implements(x, NonEmpty) && Implements(other, NonEmptyFinite)
    ensures r.Returned? && Implements(r.value, NonEmptyFinite)
    ensures r.value.elems == Streams.ZipWith(fn, x.elems, other.elems)
    ensures |r.value.elems.elems| <= |other.elems.elems|
  {
    NonEmptyFiniteOrThrow(FromPlain(Streams.ZipWith(fn, x.elems, other.elems)))
  }
}
