/** The later revision of ImmutableNonEmptyFiniteIterable (package
    software.kes): results are tagged with the unchecked
    unsafeImmutableNonEmptyFiniteIterable, so nothing is thrown; each
    contract shows the tag is truthful because the receiver is non-empty
    and finite. init, prepend, toFinite and toNonEmpty build the same
    iterables as ImmutableNonEmptyFiniteIterable's. */
module KesImmutableNonEmptyFiniteIterable {
  import opened Adt
  import Streams
  import Seqs
  import opened Capabilities
  import opened EnhancedIterables

  /** concat(ImmutableFiniteIterable). */
  function Concat<A>(x: Iter<A>, other: Iter<A>): (r: Iter<A>)
    requires Implements(x, ImmutableNonEmptyFinite) && Implements(other, ImmutableFinite)
    ensures Implements(r, ImmutableNonEmptyFinite)
    ensures r.elems == Streams.Fin(x.elems.elems + other.elems.elems)
  {
    UnsafeImmutableNonEmptyFinite(FromPlain(Streams.Concat(x.elems, other.elems)))
  }

  /** cross(ImmutableNonEmptyFiniteIterable): there is a first pair because
      both sides have a first element. */
  function Cross<A, B>(x: Iter<A>, other: Iter<B>): (r: Iter<(A, B)>)
    requires Implements(x, ImmutableNonEmptyFinite) && Implements(other, ImmutableNonEmptyFinite)
    ensures Implements(r, ImmutableNonEmptyFinite)
    ensures r.elems == Streams.Fin(Seqs.Cross(x.elems.elems, other.elems.elems))
    ensures |r.elems.elems| == |x.elems.elems| * |other.elems.elems|
  {
    Seqs.CrossEmpty(x.elems.elems, other.elems.elems);
    UnsafeImmutableNonEmptyFinite(FromPlain(Streams.Fin(Seqs.Cross(x.elems.elems, other.elems.elems))))
  }

  /** cycle: the elements over and over; immutable, non-empty and never
      ending. */
  function Cycle<A>(x: Iter<A>): (r: Iter<A>)
    requires Implements(x, ImmutableNonEmptyFinite)
    ensures Implements(r, ImmutableNonEmpty) && !r.caps.finite && r.elems.Inf?
    ensures r.elems == Streams.Cycle(x.elems.elems)
    ensures Streams.Take(|x.elems.elems|, r.elems).elems == x.elems.elems
  {
    ImmutableNonEmptyCycle(x)
  }

  /** Every position of the cycle, taken modulo the receiver's size, holds
      the receiver's element there. */
  lemma {:induction false} CycleRepeatsReceiver<A>(x: Iter<A>, q: nat, j: nat)
    requires Implements(x, ImmutableNonEmptyFinite) && j < |x.elems.elems|
    ensures Streams.At(Cycle(x).elems, q * |x.elems.elems| + j) == x.elems.elems[j]
  {
    Streams.CycleAt(x.elems.elems, q, j);
  }

  /** distinct: the first occurrence of every element; the unchecked tag is
      truthful because the head is always kept. */
  function Distinct<A(==)>(x: Iter<A>): (r: Iter<A>)
    requires Implements(x, ImmutableNonEmptyFinite)
    ensures Implements(r, ImmutableNonEmptyFinite)
    ensures Seqs.NoDup(r.elems.elems)
    ensures r.elems.elems == Seqs.FirstOccurrences(x.elems.elems)
    ensures forall i :: 0 <= i < |x.elems.elems| ==> x.elems.elems[i] in r.elems.elems
  {
    Seqs.DistinctIsFirstOccurrences(x.elems.elems);
    ImmutableNonEmptyDistinct(x)
  }

  /** fmap: the count unchanged. */
  function Fmap<A, B>(x: Iter<A>, f: A -> B): (r: Iter<B>)
    requires Implements(x, ImmutableNonEmptyFinite)
    ensures Implements(r, ImmutableNonEmptyFinite)
    ensures |r.elems.elems| == |x.elems.elems|
    ensures forall i :: 0 <= i < |x.elems.elems| ==> r.elems.elems[i] == f(x.elems.elems[i])
  {
    UnsafeImmutableNonEmptyFinite(FromPlain(Streams.Map(f, x.elems)))
  }

  /** intersperse. */
  function Intersperse<A>(x: Iter<A>, sep: A): (r: Iter<A>)
    requires Implements(x, ImmutableNonEmptyFinite)
    ensures Implements(r, ImmutableNonEmptyFinite)
    ensures r.elems == Streams.Fin(Seqs.Intersperse(sep, x.elems.elems))
  {
    UnsafeImmutableNonEmptyFinite(FromPlain(Streams.Intersperse(sep, x.elems)))
  }

  /** magnetizeBy: the groups tagged as a whole and then one by one, both
      without a check; truthful because there is a first group and no group
      is empty. */
  function MagnetizeBy<A>(x: Iter<A>, p: (A, A) -> bool): (r: Iter<Iter<A>>)
    requires Implements(x, ImmutableNonEmptyFinite)
    ensures Implements(r, ImmutableNonEmptyFinite)
    ensures ElementsImplement(r.elems, ImmutableNonEmptyFinite, Streams.FinEach(Seqs.MagnetizeBy(p, x.elems.elems)))
  {
    var gs := Streams.FinEach(Seqs.MagnetizeBy(p, x.elems.elems));
    var outer := UnsafeImmutableNonEmptyFinite(FromPlain(gs));
    UnsafeImmutableNonEmptyFiniteAll(gs);
    Fmap(outer, UnsafeImmutableNonEmptyFiniteEach)
  }

  /** prependAll. */
  function PrependAll<A>(x: Iter<A>, sep: A): (r: Iter<A>)
    requires Implements(x, ImmutableNonEmptyFinite)
    ensures Implements(r, ImmutableNonEmptyFinite)
    ensures r.elems == Streams.Fin(Seqs.PrependAll(sep, x.elems.elems))
  {
    UnsafeImmutableNonEmptyFinite(FromPlain(Streams.PrependAll(sep, x.elems)))
  }

  /** reverse: the last element comes first. */
  function Reverse<A>(x: Iter<A>): (r: Iter<A>)
    requires Implements(x, ImmutableNonEmptyFinite)
    ensures Implements(r, ImmutableNonEmptyFinite)
    ensures |r.elems.elems| == |x.elems.elems|
    ensures forall i :: 0 <= i < |x.elems.elems| ==>
              r.elems.elems[i] == x.elems.elems[|x.elems.elems| - 1 - i]
  {
    UnsafeImmutableNonEmptyFinite(FromPlain(Streams.Fin(Seqs.Reverse(x.elems.elems))))
  }

  /** zipWith(ImmutableNonEmptyIterable): at least one pair and no more than
      the receiver has elements. */
  function ZipWith<A, B, C>(x: Iter<A>, fn: (A, B) -> C, other: Iter<B>): (r: Iter<C>)
    requires Implements(x, ImmutableNonEmptyFinite) && Implements(other, ImmutableNonEmpty)
    ensures Implements(r, ImmutableNonEmptyFinite)
    ensures r.elems == Streams.ZipWith(fn, x.elems, other.elems)
    ensures 1 <= |r.elems.elems| <= |x.elems.elems|
  {
    UnsafeImmutableNonEmptyFinite(FromPlain(Streams.ZipWith(fn, x.elems, other.elems)))
  }
}
