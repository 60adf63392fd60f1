/** The later revision of ImmutableIterable (package software.kes). Where it
    differs from the earlier one it promotes results with the unchecked
    unsafe* factories instead of the throwing ones, so each contract below
    shows the unchecked tag is truthful. Its remaining operations build the
    same iterables as ImmutableIterable's. Its tails is the exception: it
    tags every result finite, which is untrue for an infinite receiver; the
    as-written operation and the corrected one are both modelled. */
module KesImmutableIterable {
  import opened Adt
  import Streams
  import Seqs
  import opened Capabilities
  import opened EnhancedIterables
  import Validation

  /** append: the unchecked promotion is truthful because the appended
      element is always there. */
  function Append<A>(x: Iter<A>, e: A): (r: Iter<A>)
    requires Implements(x, Immutable)
    ensures Implements(r, ImmutableNonEmpty)
    ensures r.elems == Streams.Snoc(x.elems, e)
  {
    UnsafeImmutableNonEmpty(FromPlain(Streams.Snoc(x.elems, e)))
  }

  /** concat(ImmutableNonEmptyIterable): truthful because `other` has a
      first element. */
  function ConcatNonEmpty<A>(x: Iter<A>, other: Iter<A>): (r: Iter<A>)
    requires Implements(x, Immutable) && Implements(other, ImmutableNonEmpty)
    ensures Implements(r, ImmutableNonEmpty)
    ensures r.elems == Streams.Concat(x.elems, other.elems)
  {
    UnsafeImmutableNonEmpty(FromPlain(Streams.Concat(x.elems, other.elems)))
  }

  /** magnetizeBy, on a receiver whose elements end: each group is tagged
      non-empty without a check, which is truthful because no group is
      empty. */
  function MagnetizeBy<A>(x: Iter<A>, p: (A, A) -> bool): (r: Iter<Iter<A>>)
    requires Implements(x, Immutable) && x.elems.Fin?
    ensures Implements(r, Immutable)
    ensures ElementsImplement(r.elems, ImmutableNonEmpty, Streams.FinEach(Seqs.MagnetizeBy(p, x.elems.elems)))
  {
    var gs := Streams.FinEach(Seqs.MagnetizeBy(p, x.elems.elems));
    var grouped := WrapImmutable(FromPlain(gs));
    UnsafeImmutableNonEmptyAll(gs);
    WrapImmutable(FromPlain(Streams.Map(UnsafeImmutableNonEmptyEach, grouped.elems)))
  }

  /** prepend: `e` consed onto the receiver's elements; truthful because `e`
      is the first element. */
  function Prepend<A>(x: Iter<A>, e: A): (r: Iter<A>)
    requires Implements(x, Immutable)
    ensures Implements(r, ImmutableNonEmpty)
    ensures Streams.At(r.elems, 0) == e
    ensures Streams.Equiv(Streams.Drop(1, r.elems), x.elems)
  {
    Streams.ConsDrop(e, x.elems);
    UnsafeImmutableNonEmpty(FromPlain(Streams.Cons(e, x.elems)))
  }

  /** slide: `k` below 1 is rejected; every window is tagged non-empty and
      finite without a check, which is truthful because every window holds
      exactly `k` elements, even when the receiver is infinite. */
  function Slide<A>(x: Iter<A>, k: int): (r: Thrown<Iter<Iter<A>>>)
    requires Implements(x, Immutable)
    ensures r.IllegalArgument? <==> k < 1
    ensures r.IllegalArgument? ==> r.message == "k must be >= 1"
    ensures r.Returned? ==> Implements(r.value, Immutable)
    ensures r.Returned? ==>
              ElementsImplement(r.value.elems, ImmutableNonEmptyFinite, Streams.Windows(k as nat, x.elems))
  {
    match Validation.ValidateSlide(k)
    case IllegalArgument(m) => IllegalArgument(m)
    case Returned(_) =>
      var ws := Streams.Windows(k as nat, x.elems);
      UnsafeImmutableNonEmptyFiniteAll(ws);
      Returned(WrapImmutable(FromPlain(Streams.Map(UnsafeImmutableNonEmptyFiniteEach, ws))))
  }

  /** tails as written: every suffix, tagged immutable, but the whole is
      tagged non-empty AND finite without a check. The finite tag is
      truthful exactly when the receiver is finite. */
  function TailsAsWritten<A>(x: Iter<A>): (r: Iter<Iter<A>>)
    requires Implements(x, Immutable)
    ensures AtLeast(r.caps, ImmutableNonEmptyFinite)
    ensures Valid(r) <==> x.elems.Fin?
    ensures ElementsImplement(r.elems, Immutable, Streams.Tails(x.elems))
  {
    var ts := Streams.Tails(x.elems);
    ImmutableAll(ts);
    UnsafeImmutableNonEmptyFinite(FromPlain(Streams.Map(ImmutableEach, ts)))
  }

  /** The repetition of one element is an ImmutableIterable whose tails, as
      written, claim to be finite but never end. */
  lemma TailsAsWrittenMislabelsRepeat<A>(e: A)
    ensures Implements(Repeat(e), Immutable)
    ensures TailsAsWritten(Repeat(e)).caps.finite
    ensures TailsAsWritten(Repeat(e)).elems.Inf?
    ensures !Valid(TailsAsWritten(Repeat(e)))
  {
  }

  /** tails, corrected: the whole promoted only to ImmutableNonEmptyIterable,
      the type the method declares; truthful for every receiver. */
  function Tails<A>(x: Iter<A>): (r: Iter<Iter<A>>)
    requires Implements(x, Immutable)
    ensures Implements(r, ImmutableNonEmpty)
    ensures r.elems.Fin? <==> x.elems.Fin?
    ensures ElementsImplement(r.elems, Immutable, Streams.Tails(x.elems))
  {
    var ts := Streams.Tails(x.elems);
    ImmutableAll(ts);
    UnsafeImmutableNonEmpty(FromPlain(Streams.Map(ImmutableEach, ts)))
  }

  /** toNonEmpty: present exactly when there is a first element; the
      non-empty view is tagged immutable without a check, which is truthful
      because the receiver is immutable and the view is non-empty. */
  function ToNonEmpty<A>(x: Iter<A>): (r: Maybe<Iter<A>>)
    requires Implements(x, Immutable)
    ensures r.Just? <==> !Streams.IsEmpty(x.elems)
    ensures r.Just? ==> Implements(r.value, ImmutableNonEmpty) && Streams.Equiv(r.value.elems, x.elems)
  {
    match MaybeNonEmpty(FromEnhanced(x))
    case Nothing => Nothing
    case Just(view) => Just(UnsafeImmutableNonEmpty(FromEnhanced(view)))
  }
}
