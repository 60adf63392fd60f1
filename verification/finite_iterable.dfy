/** The operations of FiniteIterable: the receiver's elements end. Results
    of the functional library are tagged with finiteIterable, which wraps
    without a check; each contract shows the finite tag is truthful because
    the receiver is finite. */
module FiniteIterable {
  import opened Adt
  import Streams
  import Seqs
  import opened Capabilities
  import opened EnhancedIterables
  import opened Validation

  /** append: `e` after the last element; the result is non-empty, so the
      promotion cannot throw. */
  function Append<A>(x: Iter<A>, e: A): (r: Thrown<Iter<A>>)
    requires Implements(x, Finite)
    ensures r.Returned? && Implements(r.value, NonEmptyFinite)
    ensures r.value.elems == Streams.Fin(x.elems.elems + [e])
  {
    NonEmptyFiniteOrThrow(FromPlain(Streams.Snoc(x.elems, e)))
  }

  /** concat(FiniteIterable): both sides end, so the result does. */
  function Concat<A>(x: Iter<A>, other: Iter<A>): (r: Iter<A>)
    requires Implements(x, Finite) && Implements(other, Finite)
    ensures Implements(r, Finite)
    ensures r.elems == Streams.Fin(x.elems.elems + other.elems.elems)
  {
    WrapFinite(FromPlain(Streams.Concat(x.elems, other.elems)))
  }

  /** concat(Collection). */
  function ConcatCollection<A>(x: Iter<A>, other: seq<A>): (r: Iter<A>)
    requires Implements(x, Finite)
    ensures Implements(r, Finite)
    ensures r.elems == Streams.Fin(x.elems.elems + other)
  {
    WrapFinite(FromPlain(Streams.Concat(x.elems, Streams.Fin(other))))
  }

  /** concat(NonEmptyFiniteIterable): non-empty because `other` is, so the
      promotion cannot throw. */
  function ConcatNonEmpty<A>(x: Iter<A>, other: Iter<A>): (r: Thrown<Iter<A>>)
    requires Implements(x, Finite) && Implements(other, NonEmptyFinite)
    ensures r.Returned? && Implements(r.value, NonEmptyFinite)
    ensures r.value.elems == Streams.Fin(x.elems.elems + other.elems.elems)
  {
    NonEmptyFiniteOrThrow(FromPlain(Streams.Concat(x.elems, other.elems)))
  }

  /** cross(FiniteIterable): every pair, the left element varying slowest;
      empty exactly when either side is. */
  function Cross<A, B>(x: Iter<A>, other: Iter<B>): (r: Iter<(A, B)>)
    requires Implements(x, Finite) && Implements(other, Finite)
    ensures Implements(r, Finite) && r.elems.Fin?
    ensures |r.elems.elems| == |x.elems.elems| * |other.elems.elems|
    ensures Streams.IsEmpty(r.elems) <==> Streams.IsEmpty(x.elems) || Streams.IsEmpty(other.elems)
    ensures r.elems.elems == Seqs.Cross(x.elems.elems, other.elems.elems)
  {
    Seqs.CrossEmpty(x.elems.elems, other.elems.elems);
    WrapFinite(FromPlain(Streams.Fin(Seqs.Cross(x.elems.elems, other.elems.elems))))
  }

  /** cross(Collection). */
  function CrossCollection<A, B>(x: Iter<A>, other: seq<B>): (r: Iter<(A, B)>)
    requires Implements(x, Finite)
    ensures Implements(r, Finite)
    ensures r.elems == Streams.Fin(Seqs.Cross(x.elems.elems, other))
  {
    WrapFinite(FromPlain(Streams.Fin(Seqs.Cross(x.elems.elems, other))))
  }

  /** drop: a negative count is rejected; otherwise what is left after the
      first `count` elements, which is empty when there are no more. */
  function Drop<A>(x: Iter<A>, count: int): (r: Thrown<Iter<A>>)
    requires Implements(x, Finite)
    ensures r.IllegalArgument? <==> count < 0
    ensures r.IllegalArgument? ==> r.message == "count must be >= 0"
    ensures r.Returned? ==> Implements(r.value, Finite) && r.value.elems.Fin?
    ensures r.Returned? && count <= |x.elems.elems| ==> r.value.elems.elems == x.elems.elems[count..]
    ensures r.Returned? && count > |x.elems.elems| ==> Streams.IsEmpty(r.value.elems)
  {
    match ValidateDrop(count)
    case IllegalArgument(m) => IllegalArgument(m)
    case Returned(_) => Returned(WrapFinite(FromPlain(Streams.Drop(count as nat, x.elems))))
  }

  /** dropWhile. */
  function DropWhile<A>(x: Iter<A>, p: A -> bool): (r: Iter<A>)
    requires Implements(x, Finite)
    ensures Implements(r, Finite)
    ensures r.elems == Streams.Fin(Seqs.DropWhile(p, x.elems.elems))
  {
    WrapFinite(FromPlain(Streams.Fin(Seqs.DropWhile(p, x.elems.elems))))
  }

  /** filter: finite, and not tagged non-empty even when the receiver is,
      since every element may be filtered out. */
  function Filter<A>(x: Iter<A>, p: A -> bool): (r: Iter<A>)
    requires Implements(x, Finite)
    ensures Implements(r, Finite) && !r.caps.nonEmpty
    ensures r.elems == Streams.Fin(Seqs.Filter(p, x.elems.elems))
    ensures forall i :: 0 <= i < |x.elems.elems| ==>
              var xs := x.elems.elems;
              multiset(r.elems.elems)[xs[i]] == if p(xs[i]) then multiset(xs)[xs[i]] else 0
    ensures forall k :: 0 <= k <= |x.elems.elems| ==>
              r.elems.elems == Seqs.Filter(p, x.elems.elems[..k]) + Seqs.Filter(p, x.elems.elems[k..])
  {
    Seqs.FilterCountAll(p, x.elems.elems);
    Seqs.FilterSplits(p, x.elems.elems);
    WrapFinite(FromPlain(Streams.Fin(Seqs.Filter(p, x.elems.elems))))
  }

  /** fmap: `f` applied to every element, the count unchanged. */
  function Fmap<A, B>(x: Iter<A>, f: A -> B): (r: Iter<B>)
    requires Implements(x, Finite)
    ensures Implements(r, Finite) && r.elems.Fin?
    ensures |r.elems.elems| == |x.elems.elems|
    ensures forall i :: 0 <= i < |x.elems.elems| ==> r.elems.elems[i] == f(x.elems.elems[i])
  {
    WrapFinite(FromPlain(Streams.Map(f, x.elems)))
  }

  /** foldLeft: `z` for no elements; otherwise `op` applied to the fold of
      all but the last element and the last element. */
  function FoldLeft<A, B>(x: Iter<A>, op: (B, A) -> B, z: B): (r: B)
    requires Implements(x, Finite)
    ensures |x.elems.elems| == 0 ==> r == z
    ensures |x.elems.elems| > 0 ==>
              var xs := x.elems.elems;
              r == op(Seqs.FoldLeft(op, z, xs[..|xs| - 1]), xs[|xs| - 1])
  {
    var xs := x.elems.elems;
    if |xs| == 0 then z
    else
      Seqs.FoldLeftSnoc(op, z, xs[..|xs| - 1], xs[|xs| - 1]);
      assert xs[..|xs| - 1] + [xs[|xs| - 1]] == xs;
      Seqs.FoldLeft(op, z, xs)
  }

  /** inits: every prefix, shortest first, each tagged finite; there is
      always the empty prefix, so the outer promotion cannot throw. */
  function Inits<A>(x: Iter<A>): (r: Thrown<Iter<Iter<A>>>)
    requires Implements(x, Finite)
    ensures r.Returned? && Implements(r.value, ImmutableNonEmpty)
    ensures r.value.elems.Fin? && |r.value.elems.elems| == |x.elems.elems| + 1
    ensures ElementsImplement(r.value.elems, Finite, Streams.FinEach(Seqs.Inits(x.elems.elems)))
  {
    var prefixes := Streams.FinEach(Seqs.Inits(x.elems.elems));
    var tagged := Streams.Map(FiniteEach, prefixes);
    FiniteAll(prefixes);
    var r := ImmutableNonEmptyOrThrow(FromPlain(tagged));
    ElementsImplementEquiv(tagged, r.value.elems, Finite, prefixes);
    r
  }

  /** intersperse. */
  function Intersperse<A>(x: Iter<A>, sep: A): (r: Iter<A>)
    requires Implements(x, Finite)
    ensures Implements(r, Finite)
    ensures r.elems == Streams.Fin(Seqs.Intersperse(sep, x.elems.elems))
  {
    WrapFinite(FromPlain(Streams.Intersperse(sep, x.elems)))
  }

  /** magnetizeBy: the maximal runs of neighbours related by `p`. Every
      group is non-empty, so the promotion of each group never throws. */
  function MagnetizeBy<A>(x: Iter<A>, p: (A, A) -> bool): (r: Iter<Thrown<Iter<A>>>)
    requires Implements(x, Finite)
    ensures Implements(r, Finite)
    ensures ElementsReturnImplementing(r.elems, NonEmptyFinite,
                                       Streams.FinEach(Seqs.MagnetizeBy(p, x.elems.elems)))
  {
    var gs := Streams.FinEach(Seqs.MagnetizeBy(p, x.elems.elems));
    var grouped := WrapFinite(FromPlain(gs));
    var promoted := Streams.Map(PromoteNonEmptyFinite, grouped.elems);
    PromoteAllNonEmptyFinite(gs);
    WrapFinite(FromPlain(promoted))
  }

  /** partition: the `Left` payloads and the `Right` payloads, each in
      order, each finite. */
  function Partition<A, B, C>(x: Iter<A>, f: A -> Choice<B, C>): (r: (Iter<B>, Iter<C>))
    requires Implements(x, Finite)
    ensures Implements(r.0, Finite) && r.0.elems == Streams.Fin(Seqs.Lefts(Seqs.MapSeq(f, x.elems.elems)))
    ensures Implements(r.1, Finite) && r.1.elems == Streams.Fin(Seqs.Rights(Seqs.MapSeq(f, x.elems.elems)))
  {
    var (ls, rs) := Seqs.Partition(f, x.elems.elems);
    (WrapFinite(FromPlain(Streams.Fin(ls))), WrapFinite(FromPlain(Streams.Fin(rs))))
  }

  /** prepend: `e` in front of the receiver, which becomes the tail. */
  function Prepend<A>(x: Iter<A>, e: A): (r: Iter<A>)
    requires Implements(x, Finite)
    ensures Implements(r, NonEmptyFinite)
    ensures r.elems == Streams.Fin([e] + x.elems.elems)
  {
    NonEmptyFiniteOf(e, x)
  }

  /** prependAll. */
  function PrependAll<A>(x: Iter<A>, sep: A): (r: Iter<A>)
    requires Implements(x, Finite)
    ensures Implements(r, Finite)
    ensures r.elems == Streams.Fin(Seqs.PrependAll(sep, x.elems.elems))
  {
    WrapFinite(FromPlain(Streams.PrependAll(sep, x.elems)))
  }

  /** reverse. */
  function Reverse<A>(x: Iter<A>): (r: Iter<A>)
    requires Implements(x, Finite)
    ensures Implements(r, Finite) && r.elems.Fin?
    ensures |r.elems.elems| == |x.elems.elems|
    ensures forall i :: 0 <= i < |x.elems.elems| ==>
              r.elems.elems[i] == x.elems.elems[|x.elems.elems| - 1 - i]
  {
    WrapFinite(FromPlain(Streams.Fin(Seqs.Reverse(x.elems.elems))))
  }

  /** slide: `k` below 1 is rejected; every window has exactly `k`
      elements, so each promotion to NonEmptyFiniteIterable never throws. */
  function Slide<A>(x: Iter<A>, k: int): (r: Thrown<Iter<Thrown<Iter<A>>>>)
    requires Implements(x, Finite)
    ensures r.IllegalArgument? <==> k < 1
    ensures r.IllegalArgument? ==> r.message == "k must be >= 1"
    ensures r.Returned? ==> Implements(r.value, Finite)
    ensures r.Returned? ==> ElementsReturnImplementing(r.value.elems, NonEmptyFinite, Streams.Windows(k as nat, x.elems))
  {
    match ValidateSlide(k)
    case IllegalArgument(m) => IllegalArgument(m)
    case Returned(_) =>
      var ws := Streams.Windows(k as nat, x.elems);
      PromoteAllNonEmptyFinite(ws);
      Returned(WrapFinite(FromPlain(Streams.Map(PromoteNonEmptyFinite, ws))))
  }

  /** span: the longest prefix satisfying `p` and the rest, both finite. */
  function Span<A>(x: Iter<A>, p: A -> bool): (r: (Iter<A>, Iter<A>))
    requires Implements(x, Finite)
    ensures Implements(r.0, Finite) && Implements(r.1, Finite)
    ensures r.0.elems.elems + r.1.elems.elems == x.elems.elems
    ensures forall i :: 0 <= i < |r.0.elems.elems| ==> p(r.0.elems.elems[i])
    ensures |r.1.elems.elems| > 0 ==> !p(r.1.elems.elems[0])
  {
    Seqs.SpanSplits(p, x.elems.elems);
    var (taken, rest) := Seqs.Span(p, x.elems.elems);
    (WrapFinite(FromPlain(Streams.Fin(taken))), WrapFinite(FromPlain(Streams.Fin(rest))))
  }

  /** tails: every suffix, longest first, each tagged finite; the empty
      suffix is always there, so the outer promotion cannot throw. */
  function Tails<A>(x: Iter<A>): (r: Thrown<Iter<Iter<A>>>)
    requires Implements(x, Finite)
    ensures r.Returned? && Implements(r.value, ImmutableNonEmpty)
    ensures r.value.elems.Fin? && |r.value.elems.elems| == |x.elems.elems| + 1
    ensures ElementsImplement(r.value.elems, Finite, Streams.Tails(x.elems))
  {
    var ts := Streams.Tails(x.elems);
    var tagged := Streams.Map(FiniteEach, ts);
    FiniteAll(ts);
    var r := ImmutableNonEmptyOrThrow(FromPlain(tagged));
    ElementsImplementEquiv(tagged, r.value.elems, Finite, ts);
    r
  }

  /** takeWhile. */
  function TakeWhile<A>(x: Iter<A>, p: A -> bool): (r: Iter<A>)
    requires Implements(x, Finite)
    ensures Implements(r, Finite)
    ensures r.elems == Streams.Fin(Seqs.TakeWhile(p, x.elems.elems))
  {
    WrapFinite(FromPlain(Streams.Fin(Seqs.TakeWhile(p, x.elems.elems))))
  }

  /** toFinite: always the receiver itself. */
  function ToFinite<A>(x: Iter<A>): (r: Maybe<Iter<A>>)
    requires Implements(x, Finite)
    ensures r == Just(x) && Implements(r.value, Finite)
  {
    Just(x)
  }

  /** toNonEmpty: present exactly when there is an element; the promotion
      of the non-empty view to NonEmptyFiniteIterable never throws. */
  function ToNonEmpty<A>(x: Iter<A>): (r: Thrown<Maybe<Iter<A>>>)
    requires Implements(x, Finite)
    ensures r.Returned?
    ensures r.value.Just? <==> |x.elems.elems| > 0
    ensures r.value.Just? ==> Implements(r.value.value, NonEmptyFinite) && r.value.value.elems == x.elems
  {
    TraverseMaybe(MaybeNonEmpty(FromEnhanced(x)), (it: Iter<A>) requires Valid(it) => NonEmptyFiniteOrThrow(FromEnhanced(it)))
  }

  /** zipWith(Iterable): as many pairs as the shorter side has elements;
      finite because the receiver is. */
  function ZipWith<A, B, C>(x: Iter<A>, fn: (A, B) -> C, other: Source<B>): (r: Iter<C>)
    requires Implements(x, Finite) && SourceValid(other)
    ensures Implements(r, Finite) && r.elems.Fin?
    ensures |r.elems.elems| <= |x.elems.elems|
    ensures forall i: nat :: i < |r.elems.elems| <==> i < |x.elems.elems| && Streams.Defined(Elems(other), i)
    ensures forall i :: 0 <= i < |r.elems.elems| ==>
              r.elems.elems[i] == fn(x.elems.elems[i], Streams.At(Elems(other), i))
  {
    WrapFinite(FromPlain(Streams.ZipWith(fn, x.elems, Elems(other))))
  }

  /** finiteIterable(Collection): the collection's elements, tagged finite. */
  function FromCollectionItems<A>(items: seq<A>): (r: Iter<A>)
    ensures Implements(r, Finite) && r.elems == Streams.Fin(items)
  {
    WrapFinite(FromCollection(items))
  }
}
