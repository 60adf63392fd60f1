/** The operations of EnhancedIterable, the root of the hierarchy: every
    receiver is some truthful iterable, possibly infinite and possibly
    empty. Results built by the functional library are plain iterables and
    go back through enhance, which promotes a non-empty one. */
module EnhancedIterable {
  import opened Adt
  import Streams
  import Seqs
  import opened Capabilities
  import opened EnhancedIterables
  import opened Validation

  /** append: the result is never empty, so the promotion cannot throw. */
  function Append<A>(x: Iter<A>, e: A): (r: Thrown<Iter<A>>)
    requires Valid(x)
    ensures r.Returned? && Implements(r.value, NonEmpty)
    ensures Streams.Equiv(r.value.elems, Streams.Snoc(x.elems, e))
  {
    NonEmptyOrThrow(FromPlain(Streams.Snoc(x.elems, e)))
  }

  /** concat(Iterable): the elements of `x`, then those of `other`. */
  function Concat<A>(x: Iter<A>, other: Source<A>): (r: Iter<A>)
    requires Valid(x) && SourceValid(other)
    ensures Valid(r) && Streams.Equiv(r.elems, Streams.Concat(x.elems, Elems(other)))
    ensures r.caps.nonEmpty <==> !Streams.IsEmpty(x.elems) || !Streams.IsEmpty(Elems(other))
  {
    EnhanceProbing(FromPlain(Streams.Concat(x.elems, Elems(other))))
  }

  /** concat(NonEmptyIterable): non-empty because `other` is, so the
      promotion cannot throw. */
  function ConcatNonEmpty<A>(x: Iter<A>, other: Iter<A>): (r: Thrown<Iter<A>>)
    requires Valid(x) && Implements(other, NonEmpty)
    ensures r.Returned? && Implements(r.value, NonEmpty)
    ensures Streams.Equiv(r.value.elems, Streams.Concat(x.elems, other.elems))
  {
    NonEmptyOrThrow(FromPlain(Streams.Concat(x.elems, other.elems)))
  }

  /** drop: a negative count is rejected before anything else happens. */
  function Drop<A>(x: Iter<A>, count: int): (r: Thrown<Iter<A>>)
    requires Valid(x)
    ensures r.IllegalArgument? <==> count < 0
    ensures r.IllegalArgument? ==> r.message == "count must be >= 0"
    ensures r.Returned? ==> Valid(r.value) && Streams.Equiv(r.value.elems, Streams.Drop(count as nat, x.elems))
  {
    match ValidateDrop(count)
    case IllegalArgument(m) => IllegalArgument(m)
    case Returned(_) => Returned(EnhanceProbing(FromPlain(Streams.Drop(count as nat, x.elems))))
  }

  /** dropWhile, on a receiver whose elements end. */
  function DropWhile<A>(x: Iter<A>, p: A -> bool): (r: Iter<A>)
    requires Valid(x) && x.elems.Fin?
    ensures Valid(r) && r.elems == Streams.Fin(Seqs.DropWhile(p, x.elems.elems))
  {
    EnhanceProbing(FromPlain(Streams.Fin(Seqs.DropWhile(p, x.elems.elems))))
  }

  /** filter, on a receiver whose elements end. */
  function Filter<A>(x: Iter<A>, p: A -> bool): (r: Iter<A>)
    requires Valid(x) && x.elems.Fin?
    ensures Valid(r) && r.elems == Streams.Fin(Seqs.Filter(p, x.elems.elems))
    ensures forall i :: 0 <= i < |x.elems.elems| ==>
              var xs := x.elems.elems;
              multiset(r.elems.elems)[xs[i]] == if p(xs[i]) then multiset(xs)[xs[i]] else 0
    ensures forall k :: 0 <= k <= |x.elems.elems| ==>
              r.elems.elems == Seqs.Filter(p, x.elems.elems[..k]) + Seqs.Filter(p, x.elems.elems[k..])
  {
    Seqs.FilterCountAll(p, x.elems.elems);
    Seqs.FilterSplits(p, x.elems.elems);
    EnhanceProbing(FromPlain(Streams.Fin(Seqs.Filter(p, x.elems.elems))))
  }

  /** find: the first element satisfying `p`, which is the head of filter,
      and nothing exactly when no element satisfies it. */
  function Find<A>(x: Iter<A>, p: A -> bool): (r: Maybe<A>)
    requires Valid(x) && x.elems.Fin?
    ensures r.Nothing? <==> forall i :: 0 <= i < |x.elems.elems| ==> !p(x.elems.elems[i])
    ensures r.Just? ==> r.value == Seqs.Filter(p, x.elems.elems)[0]
  {
    Seqs.FindIsHeadOfFilter(p, x.elems.elems);
    Seqs.Find(p, x.elems.elems)
  }

  /** fmap: `f` applied to every element; the result is tagged non-empty
      exactly when the receiver has an element. */
  function Fmap<A, B>(x: Iter<A>, f: A -> B): (r: Iter<B>)
    requires Valid(x)
    ensures Valid(r) && Streams.Equiv(r.elems, Streams.Map(f, x.elems))
    ensures r.caps.nonEmpty <==> !Streams.IsEmpty(x.elems)
  {
    EnhanceProbing(FromPlain(Streams.Map(f, x.elems)))
  }

  /** fmap of the identity yields the receiver's elements. */
  lemma {:induction false} FmapIdentity<A>(x: Iter<A>)
    requires Valid(x)
    ensures Streams.Equiv(Fmap(x, a => a).elems, x.elems)
  {
    Streams.MapIdentity(x.elems);
    Streams.EquivIsEquivalence(Fmap(x, a => a).elems, Streams.Map(a => a, x.elems), x.elems);
  }

  /** fmap `f` then fmap `g` yields the same elements as one fmap of their
      composition. */
  lemma {:induction false} FmapCompose<A, B, C>(x: Iter<A>, f: A -> B, g: B -> C)
    requires Valid(x)
    ensures Streams.Equiv(Fmap(Fmap(x, f), g).elems, Fmap(x, a => g(f(a))).elems)
  {
    var once := Fmap(x, f);
    var twice := Fmap(once, g);
    var composed := Fmap(x, a => g(f(a)));
    Streams.MapEquiv(g, once.elems, Streams.Map(f, x.elems));
    Streams.EquivIsEquivalence(twice.elems, Streams.Map(g, once.elems), Streams.Map(g, Streams.Map(f, x.elems)));
    Streams.MapCompose(f, g, x.elems);
    Streams.EquivIsEquivalence(twice.elems, Streams.Map(g, Streams.Map(f, x.elems)), Streams.Map(a => g(f(a)), x.elems));
    Streams.EquivIsEquivalence(composed.elems, Streams.Map(a => g(f(a)), x.elems), twice.elems);
    Streams.EquivIsEquivalence(twice.elems, Streams.Map(a => g(f(a)), x.elems), composed.elems);
  }

  /** intersperse. */
  function Intersperse<A>(x: Iter<A>, sep: A): (r: Iter<A>)
    requires Valid(x)
    ensures Valid(r) && Streams.Equiv(r.elems, Streams.Intersperse(sep, x.elems))
  {
    EnhanceProbing(FromPlain(Streams.Intersperse(sep, x.elems)))
  }

  /** isEmpty: whether the first call to hasNext answers false. */
  function IsEmpty<A>(x: Iter<A>): (r: bool)
    requires Valid(x)
    ensures r <==> Streams.IsEmpty(x.elems)
    ensures x.caps.nonEmpty ==> !r
  {
    !Streams.Defined(x.elems, 0)
  }

  /** partition, on a receiver whose elements end: the `Left` payloads and
      the `Right` payloads of the classified elements, each in order. */
  function Partition<A, B, C>(x: Iter<A>, f: A -> Choice<B, C>): (r: (Iter<B>, Iter<C>))
    requires Valid(x) && x.elems.Fin?
    ensures Valid(r.0) && r.0.elems == Streams.Fin(Seqs.Lefts(Seqs.MapSeq(f, x.elems.elems)))
    ensures Valid(r.1) && r.1.elems == Streams.Fin(Seqs.Rights(Seqs.MapSeq(f, x.elems.elems)))
  {
    var (ls, rs) := Seqs.Partition(f, x.elems.elems);
    (EnhanceProbing(FromPlain(Streams.Fin(ls))), EnhanceProbing(FromPlain(Streams.Fin(rs))))
  }

  /** prepend: `e` becomes the head and the receiver the tail. */
  function Prepend<A>(x: Iter<A>, e: A): (r: Iter<A>)
    requires Valid(x)
    ensures Implements(r, NonEmpty)
    ensures Streams.At(r.elems, 0) == e
    ensures Streams.Equiv(Streams.Drop(1, r.elems), x.elems)
  {
    var r := NonEmptyOf(e, FromEnhanced(x));
    Streams.ConsDrop(e, x.elems);
    r
  }

  /** prependAll. */
  function PrependAll<A>(x: Iter<A>, sep: A): (r: Iter<A>)
    requires Valid(x)
    ensures Valid(r) && Streams.Equiv(r.elems, Streams.PrependAll(sep, x.elems))
  {
    EnhanceProbing(FromPlain(Streams.PrependAll(sep, x.elems)))
  }

  /** slide: `k` below 1 is rejected eagerly. Every window has exactly `k`
      elements, so the promotion of each window to NonEmptyFiniteIterable
      never throws and is truthful. */
  function Slide<A>(x: Iter<A>, k: int): (r: Thrown<Iter<Thrown<Iter<A>>>>)
    requires Valid(x)
    ensures r.IllegalArgument? <==> k < 1
    ensures r.IllegalArgument? ==> r.message == "k must be >= 1"
    ensures r.Returned? ==> Valid(r.value) && (r.value.elems.Fin? <==> x.elems.Fin?)
    ensures r.Returned? ==> ElementsReturnImplementing(r.value.elems, NonEmptyFinite, Streams.Windows(k as nat, x.elems))
  {
    match ValidateSlide(k)
    case IllegalArgument(m) => IllegalArgument(m)
    case Returned(_) =>
      var ws := Streams.Windows(k as nat, x.elems);
      var promoted := Streams.Map(PromoteNonEmptyFinite, ws);
      PromoteAllNonEmptyFinite(ws);
      var r := EnhanceProbing(FromPlain(promoted));
      ElementsReturnImplementingEquiv(promoted, r.elems, NonEmptyFinite, ws);
      Returned(r)
  }

  /** span, on a receiver whose elements end: the longest prefix satisfying
      `p` and the rest. */
  function Span<A>(x: Iter<A>, p: A -> bool): (r: (Iter<A>, Iter<A>))
    requires Valid(x) && x.elems.Fin?
    ensures Valid(r.0) && Valid(r.1) && r.0.elems.Fin? && r.1.elems.Fin?
    ensures r.0.elems.elems + r.1.elems.elems == x.elems.elems
    ensures forall i :: 0 <= i < |r.0.elems.elems| ==> p(r.0.elems.elems[i])
    ensures |r.1.elems.elems| > 0 ==> !p(r.1.elems.elems[0])
  {
    Seqs.SpanSplits(p, x.elems.elems);
    var (taken, rest) := Seqs.Span(p, x.elems.elems);
    (EnhanceProbing(FromPlain(Streams.Fin(taken))), EnhanceProbing(FromPlain(Streams.Fin(rest))))
  }

  /** tails: every suffix, enhanced. There is always at least one suffix,
      so the promotion of the outer iterable cannot throw. */
  function Tails<A>(x: Iter<A>): (r: Thrown<Iter<Iter<A>>>)
    requires Valid(x)
    ensures r.Returned? && Implements(r.value, ImmutableNonEmpty)
    ensures r.value.elems.Fin? <==> x.elems.Fin?
    ensures ElementsImplement(r.value.elems, Enhanced, Streams.Tails(x.elems))
  {
    var ts := Streams.Tails(x.elems);
    var enhanced := Streams.Map(EnhanceEach, ts);
    EnhanceAll(ts);
    var r := ImmutableNonEmptyOrThrow(FromPlain(enhanced));
    ElementsImplementEquiv(enhanced, r.value.elems, Enhanced, ts);
    r
  }

  /** take: a negative count is rejected; otherwise the result is tagged
      finite, truthfully even for an infinite receiver. */
  function Take<A>(x: Iter<A>, count: int): (r: Thrown<Iter<A>>)
    requires Valid(x)
    ensures r.IllegalArgument? <==> count < 0
    ensures r.IllegalArgument? ==> r.message == "count must be >= 0"
    ensures r.Returned? ==> Implements(r.value, Finite) && r.value.elems == Streams.Take(count as nat, x.elems)
  {
    match ValidateTake(count)
    case IllegalArgument(m) => IllegalArgument(m)
    case Returned(_) => Returned(WrapFinite(FromPlain(Streams.Take(count as nat, x.elems))))
  }

  /** takeWhile, on a receiver whose elements end. */
  function TakeWhile<A>(x: Iter<A>, p: A -> bool): (r: Iter<A>)
    requires Valid(x) && x.elems.Fin?
    ensures Valid(r) && r.elems == Streams.Fin(Seqs.TakeWhile(p, x.elems.elems))
  {
    EnhanceProbing(FromPlain(Streams.Fin(Seqs.TakeWhile(p, x.elems.elems))))
  }

  /** toFinite: present exactly when the runtime class is finite. */
  function ToFinite<A>(x: Iter<A>): (r: Maybe<Iter<A>>)
    requires Valid(x)
    ensures r.Just? <==> x.caps.finite
    ensures r.Just? ==> Implements(r.value, Finite) && r.value == x
  {
    MaybeFinite(FromEnhanced(x))
  }

  /** toNonEmpty: present exactly when there is a first element. */
  function ToNonEmpty<A>(x: Iter<A>): (r: Maybe<Iter<A>>)
    requires Valid(x)
    ensures r.Just? <==> !Streams.IsEmpty(x.elems)
    ensures r.Just? ==> Implements(r.value, NonEmpty) && Streams.Equiv(r.value.elems, x.elems)
  {
    MaybeNonEmpty(FromEnhanced(x))
  }

  /** zipWith(Iterable). */
  function ZipWith<A, B, C>(x: Iter<A>, fn: (A, B) -> C, other: Source<B>): (r: Iter<C>)
    requires Valid(x) && SourceValid(other)
    ensures Valid(r) && Streams.Equiv(r.elems, Streams.ZipWith(fn, x.elems, Elems(other)))
  {
    EnhanceProbing(FromPlain(Streams.ZipWith(fn, x.elems, Elems(other))))
  }

  /** zipWith(FiniteIterable): tagged finite, truthfully, because zipping
      stops with the shorter side. */
  function ZipWithFinite<A, B, C>(x: Iter<A>, fn: (A, B) -> C, other: Iter<B>): (r: Iter<C>)
    requires Valid(x) && Implements(other, Finite)
    ensures Implements(r, Finite) && r.elems == Streams.ZipWith(fn, x.elems, other.elems)
  {
    WrapFinite(FromPlain(Streams.ZipWith(fn, x.elems, other.elems)))
  }

  /** zipWith(Collection): tagged finite, truthfully. */
  function ZipWithCollection<A, B, C>(x: Iter<A>, fn: (A, B) -> C, other: seq<B>): (r: Iter<C>)
    requires Valid(x)
    ensures Implements(r, Finite) && r.elems == Streams.ZipWith(fn, x.elems, Streams.Fin(other))
  {
    WrapFinite(FromPlain(Streams.ZipWith(fn, x.elems, Streams.Fin(other))))
  }
}
