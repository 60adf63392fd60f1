/** The operations of ImmutableIterable: every result keeps the immutable
    capability, through immutableIterable and its finite and non-empty
    relatives. The receiver may be infinite. */
module ImmutableIterable {
  import opened Adt
  import Streams
  import Seqs
  import opened Capabilities
  import opened EnhancedIterables
  import opened Validation

  /** append: never empty, so the promotion cannot throw. */
  function Append<A>(x: Iter<A>, e: A): (r: Thrown<Iter<A>>)
    requires Implements(x, Immutable)
    ensures r.Returned? && Implements(r.value, ImmutableNonEmpty)
    ensures Streams.Equiv(r.value.elems, Streams.Snoc(x.elems, e))
  {
    ImmutableNonEmptyOrThrow(FromPlain(Streams.Snoc(x.elems, e)))
  }

  /** concat(ImmutableIterable). */
  function Concat<A>(x: Iter<A>, other: Iter<A>): (r: Iter<A>)
    requires Implements(x, Immutable) && Implements(other, Immutable)
    ensures Implements(r, Immutable)
    ensures r.elems == Streams.Concat(x.elems, other.elems)
  {
    ProtectedImmutable(FromPlain(Streams.Concat(x.elems, other.elems)))
  }

  /** concat(ImmutableNonEmptyIterable): non-empty because `other` is, so
      the promotion cannot throw. */
  function ConcatNonEmpty<A>(x: Iter<A>, other: Iter<A>): (r: Thrown<Iter<A>>)
    requires Implements(x, Immutable) && Implements(other, ImmutableNonEmpty)
    ensures r.Returned? && Implements(r.value, ImmutableNonEmpty)
    ensures Streams.Equiv(r.value.elems, Streams.Concat(x.elems, other.elems))
  {
    ImmutableNonEmptyOrThrow(FromPlain(Streams.Concat(x.elems, other.elems)))
  }

  /** drop: a negative count is rejected. */
  function Drop<A>(x: Iter<A>, count: int): (r: Thrown<Iter<A>>)
    requires Implements(x, Immutable)
    ensures r.IllegalArgument? <==> count < 0
    ensures r.IllegalArgument? ==> r.message == "count must be >= 0"
    ensures r.Returned? ==> Implements(r.value, Immutable) && r.value.elems == Streams.Drop(count as nat, x.elems)
  {
    match ValidateDrop(count)
    case IllegalArgument(m) => IllegalArgument(m)
    case Returned(_) => Returned(ProtectedImmutable(FromPlain(Streams.Drop(count as nat, x.elems))))
  }

  /** dropWhile, on a receiver whose elements end. */
  function DropWhile<A>(x: Iter<A>, p: A -> bool): (r: Iter<A>)
    requires Implements(x, Immutable) && x.elems.Fin?
    ensures Implements(r, Immutable) && r.elems == Streams.Fin(Seqs.DropWhile(p, x.elems.elems))
  {
    ProtectedImmutable(FromPlain(Streams.Fin(Seqs.DropWhile(p, x.elems.elems))))
  }

  /** filter, on a receiver whose elements end. */
  function Filter<A>(x: Iter<A>, p: A -> bool): (r: Iter<A>)
    requires Implements(x, Immutable) && x.elems.Fin?
    ensures Implements(r, Immutable) && !r.caps.nonEmpty
    ensures r.elems == Streams.Fin(Seqs.Filter(p, x.elems.elems))
    ensures forall i :: 0 <= i < |x.elems.elems| ==>
              var xs := x.elems.elems;
              multiset(r.elems.elems)[xs[i]] == if p(xs[i]) then multiset(xs)[xs[i]] else 0
    ensures forall k :: 0 <= k <= |x.elems.elems| ==>
              r.elems.elems == Seqs.Filter(p, x.elems.elems[..k]) + Seqs.Filter(p, x.elems.elems[k..])
  {
    Seqs.FilterCountAll(p, x.elems.elems);
    Seqs.FilterSplits(p, x.elems.elems);
    ProtectedImmutable(FromPlain(Streams.Fin(Seqs.Filter(p, x.elems.elems))))
  }

  /** fmap: the same elements as EnhancedIterable's fmap, and immutable. */
  function Fmap<A, B>(x: Iter<A>, f: A -> B): (r: Iter<B>)
    requires Implements(x, Immutable)
    ensures Implements(r, Immutable)
    ensures forall i: nat :: Streams.Defined(r.elems, i) <==> Streams.Defined(x.elems, i)
    ensures forall i: nat | Streams.Defined(x.elems, i) :: Streams.At(r.elems, i) == f(Streams.At(x.elems, i))
  {
    ProtectedImmutable(FromPlain(Streams.Map(f, x.elems)))
  }

  /** intersperse. */
  function Intersperse<A>(x: Iter<A>, sep: A): (r: Iter<A>)
    requires Implements(x, Immutable)
    ensures Implements(r, Immutable) && r.elems == Streams.Intersperse(sep, x.elems)
  {
    ProtectedImmutable(FromPlain(Streams.Intersperse(sep, x.elems)))
  }

  /** magnetizeBy, on a receiver whose elements end: every group is
      non-empty, so no promotion of a group throws. */
  function MagnetizeBy<A>(x: Iter<A>, p: (A, A) -> bool): (r: Iter<Thrown<Iter<A>>>)
    requires Implements(x, Immutable) && x.elems.Fin?
    ensures Implements(r, Immutable)
    ensures ElementsReturnImplementing(r.elems, ImmutableNonEmpty,
                                       Streams.FinEach(Seqs.MagnetizeBy(p, x.elems.elems)))
  {
    var gs := Streams.FinEach(Seqs.MagnetizeBy(p, x.elems.elems));
    var grouped := ProtectedImmutable(FromPlain(gs));
    PromoteAllImmutableNonEmpty(gs);
    ProtectedImmutable(FromPlain(Streams.Map(PromoteImmutableNonEmpty, grouped.elems)))
  }

  /** partition, on a receiver whose elements end. */
  function Partition<A, B, C>(x: Iter<A>, f: A -> Choice<B, C>): (r: (Iter<B>, Iter<C>))
    requires Implements(x, Immutable) && x.elems.Fin?
    ensures Implements(r.0, Immutable) && r.0.elems == Streams.Fin(Seqs.Lefts(Seqs.MapSeq(f, x.elems.elems)))
    ensures Implements(r.1, Immutable) && r.1.elems == Streams.Fin(Seqs.Rights(Seqs.MapSeq(f, x.elems.elems)))
  {
    var (ls, rs) := Seqs.Partition(f, x.elems.elems);
    (ProtectedImmutable(FromPlain(Streams.Fin(ls))), ProtectedImmutable(FromPlain(Streams.Fin(rs))))
  }

  /** prepend: `e` is the head and the receiver the tail. */
  function Prepend<A>(x: Iter<A>, e: A): (r: Iter<A>)
    requires Implements(x, Immutable)
    ensures Implements(r, ImmutableNonEmpty)
    ensures Streams.At(r.elems, 0) == e
    ensures Streams.Equiv(Streams.Drop(1, r.elems), x.elems)
  {
    Streams.ConsDrop(e, x.elems);
    ImmutableNonEmptyOf(e, x)
  }

  /** prependAll. */
  function PrependAll<A>(x: Iter<A>, sep: A): (r: Iter<A>)
    requires Implements(x, Immutable)
    ensures Implements(r, Immutable) && r.elems == Streams.PrependAll(sep, x.elems)
  {
    ProtectedImmutable(FromPlain(Streams.PrependAll(sep, x.elems)))
  }

  /** slide: `k` below 1 is rejected; each window is promoted to
      ImmutableNonEmptyFiniteIterable, which never throws. */
  function Slide<A>(x: Iter<A>, k: int): (r: Thrown<Iter<Thrown<Iter<A>>>>)
    requires Implements(x, Immutable)
    ensures r.IllegalArgument? <==> k < 1
    ensures r.IllegalArgument? ==> r.message == "k must be >= 1"
    ensures r.Returned? ==> Implements(r.value, Immutable) && (r.value.elems.Fin? <==> x.elems.Fin?)
    ensures r.Returned? ==>
              ElementsReturnImplementing(r.value.elems, ImmutableNonEmptyFinite, Streams.Windows(k as nat, x.elems))
  {
    match ValidateSlide(k)
    case IllegalArgument(m) => IllegalArgument(m)
    case Returned(_) =>
      var ws := Streams.Windows(k as nat, x.elems);
      PromoteAllImmutableNonEmptyFinite(ws);
      Returned(ProtectedImmutable(FromPlain(Streams.Map(PromoteImmutableNonEmptyFinite, ws))))
  }

  /** span, on a receiver whose elements end. */
  function Span<A>(x: Iter<A>, p: A -> bool): (r: (Iter<A>, Iter<A>))
    requires Implements(x, Immutable) && x.elems.Fin?
    ensures Implements(r.0, Immutable) && Implements(r.1, Immutable)
    ensures r.0.elems.Fin? && r.1.elems.Fin?
    ensures r.0.elems.elems + r.1.elems.elems == x.elems.elems
    ensures forall i :: 0 <= i < |r.0.elems.elems| ==> p(r.0.elems.elems[i])
    ensures |r.1.elems.elems| > 0 ==> !p(r.1.elems.elems[0])
  {
    Seqs.SpanSplits(p, x.elems.elems);
    var (taken, rest) := Seqs.Span(p, x.elems.elems);
    (ProtectedImmutable(FromPlain(Streams.Fin(taken))), ProtectedImmutable(FromPlain(Streams.Fin(rest))))
  }

  /** tails: every suffix, each tagged immutable; there is always a first
      suffix, so the outer promotion cannot throw. */
  function Tails<A>(x: Iter<A>): (r: Thrown<Iter<Iter<A>>>)
    requires Implements(x, Immutable)
    ensures r.Returned? && Implements(r.value, ImmutableNonEmpty)
    ensures r.value.elems.Fin? <==> x.elems.Fin?
    ensures ElementsImplement(r.value.elems, Immutable, Streams.Tails(x.elems))
  {
    var ts := Streams.Tails(x.elems);
    var tagged := Streams.Map(ImmutableEach, ts);
    ImmutableAll(ts);
    var r := ImmutableNonEmptyOrThrow(FromPlain(tagged));
    ElementsImplementEquiv(tagged, r.value.elems, Immutable, ts);
    r
  }

  /** take: a negative count is rejected; otherwise an immutable finite
      prefix, truthfully finite even for an infinite receiver. */
  function Take<A>(x: Iter<A>, count: int): (r: Thrown<Iter<A>>)
    requires Implements(x, Immutable)
    ensures r.IllegalArgument? <==> count < 0
    ensures r.IllegalArgument? ==> r.message == "count must be >= 0"
    ensures r.Returned? ==> Implements(r.value, ImmutableFinite) && r.value.elems == Streams.Take(count as nat, x.elems)
  {
    match ValidateTake(count)
    case IllegalArgument(m) => IllegalArgument(m)
    case Returned(_) => Returned(ProtectedImmutableFinite(FromPlain(Streams.Take(count as nat, x.elems))))
  }

  /** takeWhile, on a receiver whose elements end. */
  function TakeWhile<A>(x: Iter<A>, p: A -> bool): (r: Iter<A>)
    requires Implements(x, Immutable) && x.elems.Fin?
    ensures Implements(r, Immutable) && r.elems == Streams.Fin(Seqs.TakeWhile(p, x.elems.elems))
  {
    ProtectedImmutable(FromPlain(Streams.Fin(Seqs.TakeWhile(p, x.elems.elems))))
  }

  /** toFinite: present exactly when the receiver's runtime class is
      already immutable and finite. */
  function ToFinite<A>(x: Iter<A>): (r: Maybe<Iter<A>>)
    requires Implements(x, Immutable)
    ensures r.Just? <==> x.caps.finite
    ensures r.Just? ==> r.value == x && Implements(r.value, ImmutableFinite)
  {
    ImmutableMaybeFinite(FromEnhanced(x))
  }

  /** toNonEmpty: present exactly when there is a first element; the
      promotion of the non-empty view never throws. */
  function ToNonEmpty<A>(x: Iter<A>): (r: Thrown<Maybe<Iter<A>>>)
    requires Implements(x, Immutable)
    ensures r.Returned?
    ensures r.value.Just? <==> !Streams.IsEmpty(x.elems)
    ensures r.value.Just? ==> Implements(r.value.value, ImmutableNonEmpty) && Streams.Equiv(r.value.value.elems, x.elems)
  {
    var m := MaybeNonEmpty(FromEnhanced(x));
    var r := TraverseMaybe(m, (it: Iter<A>) requires Valid(it) => ImmutableNonEmptyOrThrow(FromEnhanced(it)));
    if m.Just? then
      Streams.EquivIsEquivalence(r.value.value.elems, m.value.elems, x.elems);
      r
    else r
  }

  /** zipWith(ImmutableIterable). */
  function ZipWith<A, B, C>(x: Iter<A>, fn: (A, B) -> C, other: Iter<B>): (r: Iter<C>)
    requires Implements(x, Immutable) && Implements(other, Immutable)
    ensures Implements(r, Immutable) && r.elems == Streams.ZipWith(fn, x.elems, other.elems)
  {
    ProtectedImmutable(FromPlain(Streams.ZipWith(fn, x.elems, other.elems)))
  }

  /** zipWith(ImmutableFiniteIterable): finite because `other` is. */
  function ZipWithFinite<A, B, C>(x: Iter<A>, fn: (A, B) -> C, other: Iter<B>): (r: Iter<C>)
    requires Implements(x, Immutable) && Implements(other, ImmutableFinite)
    ensures Implements(r, ImmutableFinite) && r.elems == Streams.ZipWith(fn, x.elems, other.elems)
    ensures |r.elems.elems| <= |other.elems.elems|
  {
    ProtectedImmutableFinite(FromPlain(Streams.ZipWith(fn, x.elems, other.elems)))
  }

  /** emptyImmutableIterable: the shared empty value. */
  function EmptyImmutable<A>(): (r: Iter<A>)
    ensures Implements(r, ImmutableFinite) && Streams.IsEmpty(r.elems)
  {
    Empty()
  }
}
