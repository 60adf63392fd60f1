/** The operations of NonEmptyFiniteIterable: the receiver has a first
    element and its elements end. Most results are tagged with the unchecked
    promotion unsafeNonEmptyFiniteIterable; each contract shows the tag is
    truthful because the receiver has both capabilities. */
module NonEmptyFiniteIterable {
  import opened Adt
  import Streams
  import Seqs
  import opened Capabilities
  import opened EnhancedIterables
  import FiniteIterable

  /** tail: every element after the head, as a FiniteIterable. */
  function Tail<A>(x: Iter<A>): (r: Iter<A>)
    requires Implements(x, NonEmptyFinite)
    ensures Implements(r, Finite)
    ensures [x.elems.elems[0]] + r.elems.elems == x.elems.elems
  {
    Iter(Finite, Streams.Fin(x.elems.elems[1..]))
  }

  /** concat(FiniteIterable): the unchecked promotion is truthful because
      the receiver supplies the first element and both sides end. */
  function Concat<A>(x: Iter<A>, other: Iter<A>): (r: Iter<A>)
    requires Implements(x, NonEmptyFinite) && Implements(other, Finite)
    ensures Implements(r, NonEmptyFinite)
    ensures r.elems == Streams.Fin(x.elems.elems + other.elems.elems)
  {
    UnsafeNonEmptyFinite(FromPlain(Streams.Concat(x.elems, other.elems)))
  }

  /** concat(Collection). */
  function ConcatCollection<A>(x: Iter<A>, other: seq<A>): (r: Iter<A>)
    requires Implements(x, NonEmptyFinite)
    ensures Implements(r, NonEmptyFinite)
    ensures r.elems == Streams.Fin(x.elems.elems + other)
  {
    UnsafeNonEmptyFinite(FromPlain(Streams.Concat(x.elems, Streams.Fin(other))))
  }

  /** cross(NonEmptyFiniteIterable): at least one pair, since both sides
      have an element, so the unchecked promotion is truthful. */
  function Cross<A, B>(x: Iter<A>, other: Iter<B>): (r: Iter<(A, B)>)
    requires Implements(x, NonEmptyFinite) && Implements(other, NonEmptyFinite)
    ensures Implements(r, NonEmptyFinite)
    ensures r.elems == Streams.Fin(Seqs.Cross(x.elems.elems, other.elems.elems))
    ensures |r.elems.elems| == |x.elems.elems| * |other.elems.elems|
  {
    Seqs.CrossEmpty(x.elems.elems, other.elems.elems);
    UnsafeNonEmptyFinite(FromPlain(Streams.Fin(Seqs.Cross(x.elems.elems, other.elems.elems))))
  }

  /** cycle: the elements over and over, never ending. */
  function Cycle<A>(x: Iter<A>): (r: Iter<A>)
    requires Implements(x, NonEmptyFinite)
    ensures Implements(r, NonEmpty) && !r.caps.finite && r.elems.Inf?
    ensures r.elems == Streams.Cycle(x.elems.elems)
  {
    NonEmptyCycle(x)
  }

  /** distinct: the first occurrence of every element, in order; the
      unchecked promotion is truthful because the head is kept. */
  function Distinct<A(==)>(x: Iter<A>): (r: Iter<A>)
    requires Implements(x, NonEmptyFinite)
    ensures Implements(r, NonEmptyFinite)
    ensures Seqs.NoDup(r.elems.elems)
    ensures r.elems.elems == Seqs.FirstOccurrences(x.elems.elems)
    ensures forall i :: 0 <= i < |x.elems.elems| ==> x.elems.elems[i] in r.elems.elems
    ensures forall i :: 0 <= i < |r.elems.elems| ==> r.elems.elems[i] in x.elems.elems
  {
    Seqs.DistinctIsFirstOccurrences(x.elems.elems);
    NonEmptyDistinct(x)
  }

  /** fmap: the unchecked promotion is truthful because mapping keeps the
      count. */
  function Fmap<A, B>(x: Iter<A>, f: A -> B): (r: Iter<B>)
    requires Implements(x, NonEmptyFinite)
    ensures Implements(r, NonEmptyFinite)
    ensures |r.elems.elems| == |x.elems.elems|
    ensures forall i :: 0 <= i < |x.elems.elems| ==> r.elems.elems[i] == f(x.elems.elems[i])
  {
    UnsafeNonEmptyFinite(FromPlain(Streams.Map(f, x.elems)))
  }

  /** init: every element but the last; possibly empty. */
  function Init<A>(x: Iter<A>): (r: Iter<A>)
    requires Implements(x, NonEmptyFinite)
    ensures Implements(r, Finite)
    ensures r.elems.elems + [Last(x)] == x.elems.elems
  {
    Seqs.InitLast(x.elems.elems);
    WrapFinite(FromPlain(Streams.Fin(Seqs.Init(x.elems.elems))))
  }

  /** intersperse. */
  function Intersperse<A>(x: Iter<A>, sep: A): (r: Iter<A>)
    requires Implements(x, NonEmptyFinite)
    ensures Implements(r, NonEmptyFinite)
    ensures r.elems == Streams.Fin(Seqs.Intersperse(sep, x.elems.elems))
  {
    UnsafeNonEmptyFinite(FromPlain(Streams.Intersperse(sep, x.elems)))
  }

  /** last: the final element, which always exists, so the assertion error
      the code would raise cannot happen. */
  function Last<A>(x: Iter<A>): (r: A)
    requires Implements(x, NonEmptyFinite)
    ensures r == x.elems.elems[|x.elems.elems| - 1]
  {
    Seqs.MaybeLast(x.elems.elems).value
  }

  /** magnetizeBy: the outer promotion is truthful because there is at least
      one group, and each inner one because every group is non-empty. */
  function MagnetizeBy<A>(x: Iter<A>, p: (A, A) -> bool): (r: Iter<Iter<A>>)
    requires Implements(x, NonEmptyFinite)
    ensures Implements(r, NonEmptyFinite)
    ensures ElementsImplement(r.elems, NonEmptyFinite, Streams.FinEach(Seqs.MagnetizeBy(p, x.elems.elems)))
  {
    var gs := Streams.FinEach(Seqs.MagnetizeBy(p, x.elems.elems));
    var outer := UnsafeNonEmptyFinite(FromPlain(gs));
    UnsafeNonEmptyFiniteAll(gs);
    Fmap(outer, UnsafeNonEmptyFiniteEach)
  }

  /** prependAll. */
  function PrependAll<A>(x: Iter<A>, sep: A): (r: Iter<A>)
    requires Implements(x, NonEmptyFinite)
    ensures Implements(r, NonEmptyFinite)
    ensures r.elems == Streams.Fin(Seqs.PrependAll(sep, x.elems.elems))
  {
    UnsafeNonEmptyFinite(FromPlain(Streams.PrependAll(sep, x.elems)))
  }

  /** reduceLeft: the tail folded from the left, starting at the head. A
      single element is returned as is; otherwise `op` combines the
      reduction of all but the last element with the last. */
  function ReduceLeft<A>(x: Iter<A>, op: (A, A) -> A): (r: A)
    requires Implements(x, NonEmptyFinite)
    ensures |x.elems.elems| == 1 ==> r == x.elems.elems[0]
    ensures |x.elems.elems| > 1 ==>
              var xs := x.elems.elems;
              r == op(Seqs.ReduceLeft(op, xs[..|xs| - 1]), xs[|xs| - 1])
  {
    var xs := x.elems.elems;
    Seqs.ReduceLeftSnoc(op, xs);
    FiniteIterable.FoldLeft(Tail(x), op, xs[0])
  }

  /** reduceRight: computed as reverse, then reduceLeft with the flipped
      operator; it is the right-nested reduction
      `op(x0, op(x1, ... op(x(n-2), x(n-1))))`. */
  function ReduceRight<A>(x: Iter<A>, op: (A, A) -> A): (r: A)
    requires Implements(x, NonEmptyFinite)
    ensures r == Seqs.FoldRight1(op, x.elems.elems)
  {
    var rev := Reverse(x);
    Seqs.ReduceRightIsFoldRight1(op, x.elems.elems);
    FiniteIterable.FoldLeft(Tail(rev), Seqs.Flip(op), rev.elems.elems[0])
  }

  /** reverse. */
  function Reverse<A>(x: Iter<A>): (r: Iter<A>)
    requires Implements(x, NonEmptyFinite)
    ensures Implements(r, NonEmptyFinite) && r.elems == Streams.Fin(Seqs.Reverse(x.elems.elems))
    ensures forall i :: 0 <= i < |x.elems.elems| ==>
              r.elems.elems[i] == x.elems.elems[|x.elems.elems| - 1 - i]
  {
    UnsafeNonEmptyFinite(FromPlain(Streams.Fin(Seqs.Reverse(x.elems.elems))))
  }

  /** toFinite: always the receiver itself. */
  function ToFinite<A>(x: Iter<A>): (r: Maybe<Iter<A>>)
    requires Implements(x, NonEmptyFinite)
    ensures r == Just(x) && Implements(r.value, NonEmptyFinite)
  {
    Just(x)
  }

  /** toNonEmpty: always the receiver itself. */
  function ToNonEmpty<A>(x: Iter<A>): (r: Maybe<Iter<A>>)
    requires Implements(x, NonEmptyFinite)
    ensures r == Just(x) && Implements(r.value, NonEmptyFinite)
  {
    Just(x)
  }

  /** zipWith(NonEmptyIterable): as many pairs as the shorter side, at least
      one, so the unchecked promotion is truthful. */
  function ZipWith<A, B, C>(x: Iter<A>, fn: (A, B) -> C, other: Iter<B>): (r: Iter<C>)
    requires Implements(x, NonEmptyFinite) && Implements(other, NonEmpty)
    ensures Implements(r, NonEmptyFinite)
    ensures r.elems == Streams.ZipWith(fn, x.elems, other.elems)
    ensures 1 <= |r.elems.elems| <= |x.elems.elems|
  {
    UnsafeNonEmptyFinite(FromPlain(Streams.ZipWith(fn, x.elems, other.elems)))
  }

  /** nonEmptyFiniteIterable(head, Collection): the head followed by the
      collection's elements. */
  function OfCollectionTail<A>(head: A, tail: seq<A>): (r: Iter<A>)
    ensures Implements(r, NonEmptyFinite)
    ensures r.elems == Streams.Fin([head] + tail)
  {
    NonEmptyFiniteOf(head, WrapFinite(FromCollection(tail)))
  }
}
