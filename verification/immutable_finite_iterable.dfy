/** The operations of ImmutableFiniteIterable: the receiver's elements end
    and never change. Results are tagged with immutableFiniteIterable,
    which wraps without a check; each contract shows both tags are truthful. */
module ImmutableFiniteIterable {
  import opened Adt
  import Streams
  import Seqs
  import opened Capabilities
  import opened EnhancedIterables
  import opened Validation

  /** append: non-empty and finite, so the promotion cannot throw. */
  function Append<A>(x: Iter<A>, e: A): (r: Thrown<Iter<A>>)
    requires Implements(x, ImmutableFinite)
    ensures r.Returned? && Implements(r.value, ImmutableNonEmptyFinite)
    ensures r.value.elems == Streams.Fin(x.elems.elems + [e])
  {
    ImmutableNonEmptyFiniteOrThrow(FromPlain(Streams.Snoc(x.elems, e)))
  }

  /** concat(ImmutableFiniteIterable). */
  function Concat<A>(x: Iter<A>, other: Iter<A>): (r: Iter<A>)
    requires Implements(x, ImmutableFinite) && Implements(other, ImmutableFinite)
    ensures Implements(r, ImmutableFinite)
    ensures r.elems == Streams.Fin(x.elems.elems + other.elems.elems)
  {
    ProtectedImmutableFinite(FromPlain(Streams.Concat(x.elems, other.elems)))
  }

  /** concat(ImmutableNonEmptyFiniteIterable): non-empty because `other`
      is, so the promotion cannot throw. */
  function ConcatNonEmpty<A>(x: Iter<A>, other: Iter<A>): (r: Thrown<Iter<A>>)
    requires Implements(x, ImmutableFinite) && Implements(other, ImmutableNonEmptyFinite)
    ensures r.Returned? && Implements(r.value, ImmutableNonEmptyFinite)
    ensures r.value.elems == Streams.Fin(x.elems.elems + other.elems.elems)
  {
    ImmutableNonEmptyFiniteOrThrow(FromPlain(Streams.Concat(x.elems, other.elems)))
  }

  /** cross(ImmutableFiniteIterable). */
  function Cross<A, B>(x: Iter<A>, other: Iter<B>): (r: Iter<(A, B)>)
    requires Implements(x, ImmutableFinite) && Implements(other, ImmutableFinite)
    ensures Implements(r, ImmutableFinite)
    ensures r.elems == Streams.Fin(Seqs.Cross(x.elems.elems, other.elems.elems))
    ensures Streams.IsEmpty(r.elems) <==> Streams.IsEmpty(x.elems) || Streams.IsEmpty(other.elems)
  {
    Seqs.CrossEmpty(x.elems.elems, other.elems.elems);
    ProtectedImmutableFinite(FromPlain(Streams.Fin(Seqs.Cross(x.elems.elems, other.elems.elems))))
  }

  /** drop: a negative count is rejected. */
  function Drop<A>(x: Iter<A>, count: int): (r: Thrown<Iter<A>>)
    requires Implements(x, ImmutableFinite)
    ensures r.IllegalArgument? <==> count < 0
    ensures r.IllegalArgument? ==> r.message == "count must be >= 0"
    ensures r.Returned? ==> Implements(r.value, ImmutableFinite) && r.value.elems.Fin?
    ensures r.Returned? && count <= |x.elems.elems| ==> r.value.elems.elems == x.elems.elems[count..]
    ensures r.Returned? && count > |x.elems.elems| ==> Streams.IsEmpty(r.value.elems)
  {
    match ValidateDrop(count)
    case IllegalArgument(m) => IllegalArgument(m)
    case Returned(_) => Returned(ProtectedImmutableFinite(FromPlain(Streams.Drop(count as nat, x.elems))))
  }

  /** dropWhile. */
  function DropWhile<A>(x: Iter<A>, p: A -> bool): (r: Iter<A>)
    requires Implements(x, ImmutableFinite)
    ensures Implements(r, ImmutableFinite)
    ensures r.elems == Streams.Fin(Seqs.DropWhile(p, x.elems.elems))
  {
    ProtectedImmutableFinite(FromPlain(Streams.Fin(Seqs.DropWhile(p, x.elems.elems))))
  }

  /** filter: not tagged non-empty, since every element may be removed. */
  function Filter<A>(x: Iter<A>, p: A -> bool): (r: Iter<A>)
    requires Implements(x, ImmutableFinite)
    ensures Implements(r, ImmutableFinite) && !r.caps.nonEmpty
    ensures r.elems == Streams.Fin(Seqs.Filter(p, x.elems.elems))
    ensures forall i :: 0 <= i < |x.elems.elems| ==>
              var xs := x.elems.elems;
              multiset(r.elems.elems)[xs[i]] == if p(xs[i]) then multiset(xs)[xs[i]] else 0
    ensures forall k :: 0 <= k <= |x.elems.elems| ==>
              r.elems.elems == Seqs.Filter(p, x.elems.elems[..k]) + Seqs.Filter(p, x.elems.elems[k..])
  {
    Seqs.FilterCountAll(p, x.elems.elems);
    Seqs.FilterSplits(p, x.elems.elems);
    ProtectedImmutableFinite(FromPlain(Streams.Fin(Seqs.Filter(p, x.elems.elems))))
  }

  /** fmap: the count unchanged. */
  function Fmap<A, B>(x: Iter<A>, f: A -> B): (r: Iter<B>)
    requires Implements(x, ImmutableFinite)
    ensures Implements(r, ImmutableFinite) && r.elems.Fin?
    ensures |r.elems.elems| == |x.elems.elems|
    ensures forall i :: 0 <= i < |x.elems.elems| ==> r.elems.elems[i] == f(x.elems.elems[i])
  {
    ProtectedImmutableFinite(FromPlain(Streams.Map(f, x.elems)))
  }

  /** inits: every prefix, each tagged immutable and finite; the empty
      prefix is always there, so the outer promotion cannot throw. */
  function Inits<A>(x: Iter<A>): (r: Thrown<Iter<Iter<A>>>)
    requires Implements(x, ImmutableFinite)
    ensures r.Returned? && Implements(r.value, ImmutableNonEmptyFinite)
    ensures |r.value.elems.elems| == |x.elems.elems| + 1
    ensures ElementsImplement(r.value.elems, ImmutableFinite, Streams.FinEach(Seqs.Inits(x.elems.elems)))
  {
    var prefixes := Streams.FinEach(Seqs.Inits(x.elems.elems));
    var tagged := Streams.Map(ImmutableFiniteEach, prefixes);
    ImmutableFiniteAll(prefixes);
    var r := ImmutableNonEmptyFiniteOrThrow(FromPlain(tagged));
    ElementsImplementEquiv(tagged, r.value.elems, ImmutableFinite, prefixes);
    r
  }

  /** intersperse. */
  function Intersperse<A>(x: Iter<A>, sep: A): (r: Iter<A>)
    requires Implements(x, ImmutableFinite)
    ensures Implements(r, ImmutableFinite)
    ensures r.elems == Streams.Fin(Seqs.Intersperse(sep, x.elems.elems))
  {
    ProtectedImmutableFinite(FromPlain(Streams.Intersperse(sep, x.elems)))
  }

  /** magnetizeBy: the groups, tagged immutable and finite, then each
      promoted by this class's own fmap; no group is empty, so no promotion
      throws. */
  function MagnetizeBy<A>(x: Iter<A>, p: (A, A) -> bool): (r: Iter<Thrown<Iter<A>>>)
    requires Implements(x, ImmutableFinite)
    ensures Implements(r, ImmutableFinite)
    ensures ElementsReturnImplementing(r.elems, ImmutableNonEmptyFinite,
                                       Streams.FinEach(Seqs.MagnetizeBy(p, x.elems.elems)))
  {
    var gs := Streams.FinEach(Seqs.MagnetizeBy(p, x.elems.elems));
    var grouped := ProtectedImmutableFinite(FromPlain(gs));
    PromoteAllImmutableNonEmptyFinite(gs);
    Fmap(grouped, PromoteImmutableNonEmptyFinite)
  }

  /** partition. */
  function Partition<A, B, C>(x: Iter<A>, f: A -> Choice<B, C>): (r: (Iter<B>, Iter<C>))
    requires Implements(x, ImmutableFinite)
    ensures Implements(r.0, ImmutableFinite) && r.0.elems == Streams.Fin(Seqs.Lefts(Seqs.MapSeq(f, x.elems.elems)))
    ensures Implements(r.1, ImmutableFinite) && r.1.elems == Streams.Fin(Seqs.Rights(Seqs.MapSeq(f, x.elems.elems)))
  {
    var (ls, rs) := Seqs.Partition(f, x.elems.elems);
    (ProtectedImmutableFinite(FromPlain(Streams.Fin(ls))), ProtectedImmutableFinite(FromPlain(Streams.Fin(rs))))
  }

  /** prepend: `e` in front of the receiver, which becomes the tail. */
  function Prepend<A>(x: Iter<A>, e: A): (r: Iter<A>)
    requires Implements(x, ImmutableFinite)
    ensures Implements(r, ImmutableNonEmptyFinite)
    ensures r.elems == Streams.Fin([e] + x.elems.elems)
  {
    ImmutableNonEmptyFiniteOf(e, x)
  }

  /** prependAll. */
  function PrependAll<A>(x: Iter<A>, sep: A): (r: Iter<A>)
    requires Implements(x, ImmutableFinite)
    ensures Implements(r, ImmutableFinite)
    ensures r.elems == Streams.Fin(Seqs.PrependAll(sep, x.elems.elems))
  {
    ProtectedImmutableFinite(FromPlain(Streams.PrependAll(sep, x.elems)))
  }

  /** reverse. */
  function Reverse<A>(x: Iter<A>): (r: Iter<A>)
    requires Implements(x, ImmutableFinite)
    ensures Implements(r, ImmutableFinite) && r.elems == Streams.Fin(Seqs.Reverse(x.elems.elems))
    ensures forall i :: 0 <= i < |x.elems.elems| ==>
              r.elems.elems[i] == x.elems.elems[|x.elems.elems| - 1 - i]
  {
    ProtectedImmutableFinite(FromPlain(Streams.Fin(Seqs.Reverse(x.elems.elems))))
  }

  /** slide: `k` below 1 is rejected; each window is promoted to
      ImmutableNonEmptyFiniteIterable, which never throws. */
  function Slide<A>(x: Iter<A>, k: int): (r: Thrown<Iter<Thrown<Iter<A>>>>)
    requires Implements(x, ImmutableFinite)
    ensures r.IllegalArgument? <==> k < 1
    ensures r.IllegalArgument? ==> r.message == "k must be >= 1"
    ensures r.Returned? ==> Implements(r.value, ImmutableFinite)
    ensures r.Returned? ==>
              ElementsReturnImplementing(r.value.elems, ImmutableNonEmptyFinite, Streams.Windows(k as nat, x.elems))
  {
    match ValidateSlide(k)
    case IllegalArgument(m) => IllegalArgument(m)
    case Returned(_) =>
      var ws := Streams.Windows(k as nat, x.elems);
      PromoteAllImmutableNonEmptyFinite(ws);
      Returned(ProtectedImmutableFinite(FromPlain(Streams.Map(PromoteImmutableNonEmptyFinite, ws))))
  }

  /** span. */
  function Span<A>(x: Iter<A>, p: A -> bool): (r: (Iter<A>, Iter<A>))
    requires Implements(x, ImmutableFinite)
    ensures Implements(r.0, ImmutableFinite) && Implements(r.1, ImmutableFinite)
    ensures r.0.elems.elems + r.1.elems.elems == x.elems.elems
    ensures forall i :: 0 <= i < |r.0.elems.elems| ==> p(r.0.elems.elems[i])
    ensures |r.1.elems.elems| > 0 ==> !p(r.1.elems.elems[0])
  {
    Seqs.SpanSplits(p, x.elems.elems);
    var (taken, rest) := Seqs.Span(p, x.elems.elems);
    (ProtectedImmutableFinite(FromPlain(Streams.Fin(taken))), ProtectedImmutableFinite(FromPlain(Streams.Fin(rest))))
  }

  /** tails: every suffix, each tagged immutable and finite; the outer
      result is promoted only to ImmutableNonEmptyIterable, as the code
      declares, though it is finite as well. */
  function Tails<A>(x: Iter<A>): (r: Thrown<Iter<Iter<A>>>)
    requires Implements(x, ImmutableFinite)
    ensures r.Returned? && Implements(r.value, ImmutableNonEmpty)
    ensures r.value.elems.Fin? && |r.value.elems.elems| == |x.elems.elems| + 1
    ensures ElementsImplement(r.value.elems, ImmutableFinite, Streams.Tails(x.elems))
  {
    var ts := Streams.Tails(x.elems);
    var tagged := Streams.Map(ImmutableFiniteEach, ts);
    ImmutableFiniteAll(ts);
    var r := ImmutableNonEmptyOrThrow(FromPlain(tagged));
    ElementsImplementEquiv(tagged, r.value.elems, ImmutableFinite, ts);
    r
  }

  /** takeWhile. */
  function TakeWhile<A>(x: Iter<A>, p: A -> bool): (r: Iter<A>)
    requires Implements(x, ImmutableFinite)
    ensures Implements(r, ImmutableFinite)
    ensures r.elems == Streams.Fin(Seqs.TakeWhile(p, x.elems.elems))
  {
    ProtectedImmutableFinite(FromPlain(Streams.Fin(Seqs.TakeWhile(p, x.elems.elems))))
  }

  /** toFinite: always the receiver itself. */
  function ToFinite<A>(x: Iter<A>): (r: Maybe<Iter<A>>)
    requires Implements(x, ImmutableFinite)
    ensures r == Just(x) && Implements(r.value, ImmutableFinite)
  {
    Just(x)
  }

  /** toNonEmpty: present exactly when there is an element; the promotion to
      ImmutableNonEmptyFiniteIterable never throws. */
  function ToNonEmpty<A>(x: Iter<A>): (r: Thrown<Maybe<Iter<A>>>)
    requires Implements(x, ImmutableFinite)
    ensures r.Returned?
    ensures r.value.Just? <==> |x.elems.elems| > 0
    ensures r.value.Just? ==> Implements(r.value.value, ImmutableNonEmptyFinite) && r.value.value.elems == x.elems
  {
    TraverseMaybe(MaybeNonEmpty(FromEnhanced(x)),
                  (it: Iter<A>) requires Valid(it) => ImmutableNonEmptyFiniteOrThrow(FromEnhanced(it)))
  }

  /** zipWith(ImmutableIterable): finite because the receiver is. */
  function ZipWith<A, B, C>(x: Iter<A>, fn: (A, B) -> C, other: Iter<B>): (r: Iter<C>)
    requires Implements(x, ImmutableFinite) && Implements(other, Immutable)
    ensures Implements(r, ImmutableFinite)
    ensures r.elems == Streams.ZipWith(fn, x.elems, other.elems)
    ensures |r.elems.elems| <= |x.elems.elems|
  {
    ProtectedImmutableFinite(FromPlain(Streams.ZipWith(fn, x.elems, other.elems)))
  }
}
