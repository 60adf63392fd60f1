/** The package-private factory functions every operation goes through. Each
    returns an iterable of a particular runtime class; the model records
    that class's capability tag. Three families matter:
      - the plain wrappers (finiteIterable, immutableIterable, ...) return
        an instance that already has the capability unchanged and otherwise
        wrap the argument with exactly that tag, without looking at it;
      - the *OrThrow promotions take the argument apart with uncons and
        throw IllegalArgumentException("iterable is empty") when there is no
        first element;
      - the unsafe* promotions wrap without any check.
    For each the contract says when the tag it attaches tells the truth. */
module EnhancedIterables {
  import opened Adt
  import opened Streams
  import opened Capabilities
  import Seqs

  /** The message of the exception an *OrThrow promotion throws. */
  const EmptyMessage := "iterable is empty"

  /** The largest value of a Java int. */
  const IntMax: nat := 2147483647

  // ---------------------------------------------------------------------
  // Canonical values
  // ---------------------------------------------------------------------

  /** The shared empty iterable: immutable and finite, with no element. */
  function Empty<A>(): (r: Iter<A>)
    ensures Implements(r, ImmutableFinite) && IsEmpty(r.elems)
  {
    Iter(ImmutableFinite, Fin([]))
  }

  /** An iterable holding exactly one value; its tail is the empty one. */
  function Singleton<A>(v: A): (r: Iter<A>)
    ensures Implements(r, ImmutableNonEmptyFinite)
    ensures r.elems.Fin? && r.elems.elems == [v]
  {
    Iter(ImmutableNonEmptyFinite, Fin([v]))
  }

  /** The same element forever; the tail of the repetition is itself. */
  function Repeat<A>(e: A): (r: Iter<A>)
    ensures Implements(r, ImmutableNonEmpty) && !r.caps.finite
    ensures r.elems.Inf? && forall i: nat :: At(r.elems, i) == e
    ensures Equiv(Drop(1, r.elems), r.elems)
  {
    RepeatTail(e);
    Iter(ImmutableNonEmpty, Streams.Repeat(e))
  }

  // ---------------------------------------------------------------------
  // Collections
  // ---------------------------------------------------------------------

  /** A collection as a finite iterable; a non-empty collection is known to
      be non-empty from its size. */
  function FiniteFromCollection<A>(items: seq<A>): (r: Iter<A>)
    ensures Implements(r, Finite) && r.elems == Fin(items)
    ensures r.caps.nonEmpty <==> |items| > 0
  {
    if |items| == 0 then Iter(Finite, Fin(items)) else Iter(NonEmptyFinite, Fin(items))
  }

  /** A collection as an immutable finite iterable. */
  function ImmutableFiniteFromCollection<A>(items: seq<A>): (r: Iter<A>)
    ensures Implements(r, ImmutableFinite) && r.elems == Fin(items)
    ensures r.caps.nonEmpty <==> |items| > 0
  {
    if |items| == 0 then Empty() else Iter(ImmutableNonEmptyFinite, Fin(items))
  }

  // ---------------------------------------------------------------------
  // enhance and the plain wrappers
  // ---------------------------------------------------------------------

  /** enhance: one of the library's iterables is returned as is, a
      collection becomes a finite iterable, anything else is wrapped as a
      plain EnhancedIterable without being iterated. */
  function Enhance<A>(src: Source<A>): (r: Iter<A>)
    requires SourceValid(src)
    ensures Valid(r) && r.elems == Elems(src)
    ensures src.FromEnhanced? ==> r == src.it
    ensures src.FromCollection? ==> AtLeast(r.caps, Finite) && (r.caps.nonEmpty <==> |src.items| > 0)
    ensures src.FromPlain? ==> r.caps == Enhanced
  {
    match src
    case FromEnhanced(it) => it
    case FromCollection(items) => FiniteFromCollection(items)
    case FromPlain(s) => Iter(Enhanced, s)
  }

  /** The older enhance, which also starts an iteration of a plain iterable
      and promotes it to NonEmptyIterable when a first element exists. */
  function EnhanceProbing<A>(src: Source<A>): (r: Iter<A>)
    requires SourceValid(src)
    ensures Valid(r) && Equiv(r.elems, Elems(src))
    ensures src.FromEnhanced? ==> r == src.it
    ensures src.FromCollection? ==> AtLeast(r.caps, Finite) && (r.caps.nonEmpty <==> |src.items| > 0)
    ensures src.FromPlain? ==> !r.caps.finite && !r.caps.immutable && (r.caps.nonEmpty <==> !IsEmpty(src.s))
  {
    match src
    case FromEnhanced(it) => it
    case FromCollection(items) =>
      if |items| == 0 then WrapFinite(src) else NonEmptyFiniteOrThrow(src).value
    case FromPlain(s) =>
      if !IsEmpty(s) then NonEmptyOrThrow(src).value else Iter(Enhanced, s)
  }

  /** finiteIterable: tags the argument finite. An argument that is not
      already a FiniteIterable is wrapped without any check, so the tag is
      truthful exactly when the elements end. */
  function WrapFinite<A>(src: Source<A>): (r: Iter<A>)
    requires SourceValid(src)
    ensures AtLeast(r.caps, Finite) && r.elems == Elems(src)
    ensures Valid(r) <==> Elems(src).Fin?
    ensures IsInstance(src, Finite) ==> r == src.it
  {
    if IsInstance(src, Finite) then src.it
    else Iter(Finite, Elems(src))
  }

  /** immutableIterable, earlier revision: an ImmutableIterable is returned
      as is; anything else, a collection included, is wrapped in a bare
      immutable lambda that claims no other capability. */
  function ProtectedImmutable<A>(src: Source<A>): (r: Iter<A>)
    requires SourceValid(src)
    ensures Implements(r, Immutable) && r.elems == Elems(src)
    ensures IsInstance(src, Immutable) ==> r == src.it
    ensures !IsInstance(src, Immutable) ==> r.caps == Immutable
  {
    if IsInstance(src, Immutable) then src.it
    else Iter(Immutable, Elems(src))
  }

  /** immutableFiniteIterable, earlier revision: an ImmutableFiniteIterable
      is returned as is; anything else, a collection included, is wrapped in
      a lambda tagged immutable and finite but never non-empty. The finite
      tag is truthful exactly when the elements end. */
  function ProtectedImmutableFinite<A>(src: Source<A>): (r: Iter<A>)
    requires SourceValid(src)
    ensures AtLeast(r.caps, ImmutableFinite) && r.elems == Elems(src)
    ensures Valid(r) <==> Elems(src).Fin?
    ensures IsInstance(src, ImmutableFinite) ==> r == src.it
    ensures !IsInstance(src, ImmutableFinite) ==> r.caps == ImmutableFinite
  {
    if IsInstance(src, ImmutableFinite) then src.it
    else Iter(ImmutableFinite, Elems(src))
  }

  /** The two revisions of immutableIterable differ on a non-empty
      collection: the earlier one forgets that it is finite and non-empty,
      the later one keeps both. */
  lemma WrapImmutableRevisionsDiffer<A>(items: seq<A>)
    requires |items| > 0
    ensures !ProtectedImmutable(FromCollection(items)).caps.finite
    ensures !ProtectedImmutable(FromCollection(items)).caps.nonEmpty
    ensures Implements(WrapImmutable(FromCollection(items)), ImmutableNonEmptyFinite)
  {
  }

  /** immutableIterable, later revision: tags the argument immutable; a
      collection becomes an immutable finite iterable, non-empty exactly
      when it has an element. */
  function WrapImmutable<A>(src: Source<A>): (r: Iter<A>)
    requires SourceValid(src)
    ensures Implements(r, Immutable) && r.elems == Elems(src)
    ensures IsInstance(src, Immutable) ==> r == src.it
    ensures src.FromCollection? ==> r.caps.finite && (r.caps.nonEmpty <==> |src.items| > 0)
  {
    if IsInstance(src, Immutable) then src.it
    else if src.FromCollection? then ImmutableFiniteFromCollection(src.items)
    else Iter(Immutable, Elems(src))
  }

  /** immutableFiniteIterable, later revision: tags the argument immutable
      and finite, truthfully exactly when the elements end; a collection
      becomes an immutable finite iterable, non-empty exactly when it has an
      element. */
  function WrapImmutableFinite<A>(src: Source<A>): (r: Iter<A>)
    requires SourceValid(src)
    ensures AtLeast(r.caps, ImmutableFinite) && r.elems == Elems(src)
    ensures Valid(r) <==> Elems(src).Fin?
    ensures IsInstance(src, ImmutableFinite) ==> r == src.it
    ensures src.FromCollection? ==> (r.caps.nonEmpty <==> |src.items| > 0)
  {
    if IsInstance(src, ImmutableFinite) then src.it
    else if src.FromCollection? then ImmutableFiniteFromCollection(src.items)
    else Iter(ImmutableFinite, Elems(src))
  }

  // ---------------------------------------------------------------------
  // Optional promotions
  // ---------------------------------------------------------------------

  /** maybeFinite: only a FiniteIterable or a collection is known to be
      finite; nothing else is iterated to find out. */
  function MaybeFinite<A>(src: Source<A>): (r: Maybe<Iter<A>>)
    requires SourceValid(src)
    ensures r.Just? <==> IsInstance(src, Finite) || src.FromCollection?
    ensures r.Just? ==> Implements(r.value, Finite) && r.value.elems == Elems(src)
  {
    if IsInstance(src, Finite) then Just(src.it)
    else if src.FromCollection? then Just(FiniteFromCollection(src.items))
    else Nothing
  }

  /** immutableMaybeFinite: only an ImmutableFiniteIterable or a collection
      qualifies. */
  function ImmutableMaybeFinite<A>(src: Source<A>): (r: Maybe<Iter<A>>)
    requires SourceValid(src)
    ensures r.Just? <==> IsInstance(src, ImmutableFinite) || src.FromCollection?
    ensures r.Just? ==> Implements(r.value, ImmutableFinite) && r.value.elems == Elems(src)
  {
    if IsInstance(src, ImmutableFinite) then Just(src.it)
    else if src.FromCollection? then Just(ImmutableFiniteFromCollection(src.items))
    else Nothing
  }

  /** nonEmptyMaybeFinite: a head in front of a tail that is known to be
      finite. */
  function NonEmptyMaybeFinite<A>(head: A, tail: Source<A>): (r: Maybe<Iter<A>>)
    requires SourceValid(tail)
    ensures r.Just? <==> IsInstance(tail, Finite) || tail.FromCollection?
    ensures r.Just? ==> Implements(r.value, NonEmptyFinite) && r.value.elems == Cons(head, Elems(tail))
  {
    if IsInstance(tail, Finite) then Just(NonEmptyFiniteOf(head, tail.it))
    else if tail.FromCollection? then Just(NonEmptyFiniteOf(head, WrapFinite(tail)))
    else Nothing
  }

  /** immutableNonEmptyMaybeFinite: a head in front of a tail that is known
      to be immutable and finite. */
  function ImmutableNonEmptyMaybeFinite<A>(head: A, tail: Source<A>): (r: Maybe<Iter<A>>)
    requires SourceValid(tail)
    ensures r.Just? <==> IsInstance(tail, ImmutableFinite) || tail.FromCollection?
    ensures r.Just? ==> Implements(r.value, ImmutableNonEmptyFinite)
                        && r.value.elems == Cons(head, Elems(tail))
  {
    if IsInstance(tail, ImmutableFinite) then Just(ImmutableNonEmptyFiniteOf(head, tail.it))
    else if tail.FromCollection? then Just(ImmutableNonEmptyFiniteOf(head, WrapImmutableFinite(tail)))
    else Nothing
  }

  /** maybeNonEmpty: a NonEmptyIterable is returned as is; anything else is
      taken apart with uncons and rebuilt from its head and tail. */
  function MaybeNonEmpty<A>(src: Source<A>): (r: Maybe<Iter<A>>)
    requires SourceValid(src)
    ensures r.Just? <==> !IsEmpty(Elems(src))
    ensures r.Just? ==> Implements(r.value, NonEmpty) && Equiv(r.value.elems, Elems(src))
    ensures IsInstance(src, NonEmpty) ==> r == Just(src.it)
  {
    if IsInstance(src, NonEmpty) then Just(src.it)
    else if IsEmpty(Elems(src)) then Nothing
    else
      var (h, t) := Uncons(Elems(src));
      ConsUncons(Elems(src));
      Just(NonEmptyOf(h, FromPlain(t)))
  }

  // ---------------------------------------------------------------------
  // Head-and-tail constructors
  // ---------------------------------------------------------------------

  /** nonEmptyIterable(head, tail). */
  function NonEmptyOf<A>(head: A, tail: Source<A>): (r: Iter<A>)
    ensures Implements(r, NonEmpty) && r.caps == NonEmpty
    ensures r.elems == Cons(head, Elems(tail))
  {
    Iter(NonEmpty, Cons(head, Elems(tail)))
  }

  /** nonEmptyFiniteIterable(head, tail): finite exactly when the tail is. */
  function NonEmptyFiniteOf<A>(head: A, tail: Iter<A>): (r: Iter<A>)
    requires AtLeast(tail.caps, Finite)
    ensures AtLeast(r.caps, NonEmptyFinite) && r.elems == Cons(head, tail.elems)
    ensures Valid(r) <==> tail.elems.Fin?
  {
    Iter(NonEmptyFinite, Cons(head, tail.elems))
  }

  /** immutableNonEmptyIterable(head, tail). */
  function ImmutableNonEmptyOf<A>(head: A, tail: Iter<A>): (r: Iter<A>)
    requires AtLeast(tail.caps, Immutable)
    ensures Implements(r, ImmutableNonEmpty) && r.elems == Cons(head, tail.elems)
  {
    Iter(ImmutableNonEmpty, Cons(head, tail.elems))
  }

  /** immutableNonEmptyFiniteIterable(head, tail): finite exactly when the
      tail is. */
  function ImmutableNonEmptyFiniteOf<A>(head: A, tail: Iter<A>): (r: Iter<A>)
    requires AtLeast(tail.caps, ImmutableFinite)
    ensures AtLeast(r.caps, ImmutableNonEmptyFinite) && r.elems == Cons(head, tail.elems)
    ensures Valid(r) <==> tail.elems.Fin?
  {
    Iter(ImmutableNonEmptyFinite, Cons(head, tail.elems))
  }

  /** of(first, more...): the first element followed by the others. */
  function Of<A>(first: A, more: seq<A>): (r: Iter<A>)
    ensures Implements(r, ImmutableNonEmptyFinite)
    ensures r.elems == Fin([first] + more)
  {
    if |more| > 0 then ImmutableNonEmptyFiniteOf(first, WrapImmutableFinite(FromCollection(more)))
    else Singleton(first)
  }

  // ---------------------------------------------------------------------
  // Promotions that throw on an empty argument
  // ---------------------------------------------------------------------

  /** uncons, throwing IllegalArgumentException when there is no head. */
  function UnconsOrThrow<A>(s: Stream<A>): (r: Thrown<(A, Stream<A>)>)
    ensures r.Returned? <==> !IsEmpty(s)
    ensures r.IllegalArgument? ==> r.message == EmptyMessage
    ensures r.Returned? ==> r.value.0 == At(s, 0) && r.value.1 == Drop(1, s)
  {
    if IsEmpty(s) then IllegalArgument(EmptyMessage) else Returned(Uncons(s))
  }

  /** nonEmptyIterableOrThrow: throws exactly when the argument has no
      element; otherwise the result is a truthful NonEmptyIterable with the
      same elements. */
  function NonEmptyOrThrow<A>(src: Source<A>): (r: Thrown<Iter<A>>)
    requires SourceValid(src)
    ensures r.Returned? <==> !IsEmpty(Elems(src))
    ensures r.IllegalArgument? ==> r.message == EmptyMessage
    ensures r.Returned? ==> Implements(r.value, NonEmpty) && Equiv(r.value.elems, Elems(src))
    ensures IsInstance(src, NonEmpty) ==> r == Returned(src.it)
  {
    if IsInstance(src, NonEmpty) then Returned(src.it)
    else
      match UnconsOrThrow(Elems(src))
      case IllegalArgument(m) => IllegalArgument(m)
      case Returned((h, t)) =>
        ConsUncons(Elems(src));
        Returned(NonEmptyOf(h, FromPlain(t)))
  }

  /** nonEmptyFiniteIterableOrThrow: throws exactly when the argument has no
      element. The tail is tagged finite without a check, so the result is
      truthful exactly when the elements end. */
  function NonEmptyFiniteOrThrow<A>(src: Source<A>): (r: Thrown<Iter<A>>)
    requires SourceValid(src)
    ensures r.Returned? <==> !IsEmpty(Elems(src))
    ensures r.IllegalArgument? ==> r.message == EmptyMessage
    ensures r.Returned? ==> AtLeast(r.value.caps, NonEmptyFinite) && Equiv(r.value.elems, Elems(src))
    ensures r.Returned? ==> (Valid(r.value) <==> Elems(src).Fin?)
    ensures IsInstance(src, NonEmptyFinite) ==> r == Returned(src.it)
  {
    if IsInstance(src, NonEmptyFinite) then Returned(src.it)
    else
      match UnconsOrThrow(Elems(src))
      case IllegalArgument(m) => IllegalArgument(m)
      case Returned((h, t)) =>
        ConsUncons(Elems(src));
        Returned(NonEmptyFiniteOf(h, WrapFinite(FromPlain(t))))
  }

  /** immutableNonEmptyIterableOrThrow: throws exactly when the argument has
      no element; otherwise a truthful ImmutableNonEmptyIterable. */
  function ImmutableNonEmptyOrThrow<A>(src: Source<A>): (r: Thrown<Iter<A>>)
    requires SourceValid(src)
    ensures r.Returned? <==> !IsEmpty(Elems(src))
    ensures r.IllegalArgument? ==> r.message == EmptyMessage
    ensures r.Returned? ==> Implements(r.value, ImmutableNonEmpty) && Equiv(r.value.elems, Elems(src))
    ensures IsInstance(src, ImmutableNonEmpty) ==> r == Returned(src.it)
  {
    if IsInstance(src, ImmutableNonEmpty) then Returned(src.it)
    else
      match UnconsOrThrow(Elems(src))
      case IllegalArgument(m) => IllegalArgument(m)
      case Returned((h, t)) =>
        ConsUncons(Elems(src));
        Returned(ImmutableNonEmptyOf(h, ProtectedImmutable(FromPlain(t))))
  }

  /** immutableNonEmptyFiniteIterableOrThrow: throws exactly when the
      argument has no element; truthful exactly when the elements end. */
  function ImmutableNonEmptyFiniteOrThrow<A>(src: Source<A>): (r: Thrown<Iter<A>>)
    requires SourceValid(src)
    ensures r.Returned? <==> !IsEmpty(Elems(src))
    ensures r.IllegalArgument? ==> r.message == EmptyMessage
    ensures r.Returned? ==> AtLeast(r.value.caps, ImmutableNonEmptyFinite)
                            && Equiv(r.value.elems, Elems(src))
    ensures r.Returned? ==> (Valid(r.value) <==> Elems(src).Fin?)
    ensures IsInstance(src, ImmutableNonEmptyFinite) ==> r == Returned(src.it)
  {
    if IsInstance(src, ImmutableNonEmptyFinite) then Returned(src.it)
    else
      match UnconsOrThrow(Elems(src))
      case IllegalArgument(m) => IllegalArgument(m)
      case Returned((h, t)) =>
        ConsUncons(Elems(src));
        Returned(ImmutableNonEmptyFiniteOf(h, ProtectedImmutableFinite(FromPlain(t))))
  }

  // ---------------------------------------------------------------------
  // The same promotions as first-class functions, for use inside a lazy map
  // ---------------------------------------------------------------------

  /** `EnhancedIterables::nonEmptyIterableOrThrow` applied to a nested
      iterable. */
  function PromoteNonEmpty<A>(t: Stream<A>): (r: Thrown<Iter<A>>)
    ensures r.Returned? <==> !IsEmpty(t)
    ensures r.Returned? ==> Implements(r.value, NonEmpty) && Equiv(r.value.elems, t)
  {
    NonEmptyOrThrow(FromPlain(t))
  }

  /** `EnhancedIterables::nonEmptyFiniteIterableOrThrow` applied to a
      nested iterable. */
  function PromoteNonEmptyFinite<A>(t: Stream<A>): (r: Thrown<Iter<A>>)
    ensures r.Returned? <==> !IsEmpty(t)
    ensures r.Returned? && t.Fin? ==> Implements(r.value, NonEmptyFinite) && r.value.elems == t
  {
    NonEmptyFiniteOrThrow(FromPlain(t))
  }

  /** `EnhancedIterables::immutableNonEmptyIterableOrThrow` applied to a
      nested iterable. */
  function PromoteImmutableNonEmpty<A>(t: Stream<A>): (r: Thrown<Iter<A>>)
    ensures r.Returned? <==> !IsEmpty(t)
    ensures r.Returned? ==> Implements(r.value, ImmutableNonEmpty) && Equiv(r.value.elems, t)
  {
    ImmutableNonEmptyOrThrow(FromPlain(t))
  }

  /** `EnhancedIterables::immutableNonEmptyFiniteIterableOrThrow` applied to
      a nested iterable. */
  function PromoteImmutableNonEmptyFinite<A>(t: Stream<A>): (r: Thrown<Iter<A>>)
    ensures r.Returned? <==> !IsEmpty(t)
    ensures r.Returned? && t.Fin? ==> Implements(r.value, ImmutableNonEmptyFinite) && r.value.elems == t
  {
    ImmutableNonEmptyFiniteOrThrow(FromPlain(t))
  }

  /** `EnhancedIterable::enhance` applied to a nested iterable. */
  function EnhanceEach<A>(t: Stream<A>): (r: Iter<A>)
    ensures Valid(r) && Equiv(r.elems, t)
  {
    EnhanceProbing(FromPlain(t))
  }

  /** `EnhancedIterables::finiteIterable` applied to a nested iterable. */
  function FiniteEach<A>(t: Stream<A>): (r: Iter<A>)
    ensures AtLeast(r.caps, Finite) && r.elems == t
    ensures Valid(r) <==> t.Fin?
  {
    WrapFinite(FromPlain(t))
  }

  /** `EnhancedIterables::immutableIterable` applied to a nested iterable. */
  function ImmutableEach<A>(t: Stream<A>): (r: Iter<A>)
    ensures Implements(r, Immutable) && r.elems == t
  {
    WrapImmutable(FromPlain(t))
  }

  /** `EnhancedIterables::immutableFiniteIterable` applied to a nested
      iterable. */
  function ImmutableFiniteEach<A>(t: Stream<A>): (r: Iter<A>)
    ensures AtLeast(r.caps, ImmutableFinite) && r.elems == t
    ensures Valid(r) <==> t.Fin?
  {
    WrapImmutableFinite(FromPlain(t))
  }

  /** `EnhancedIterables::unsafeNonEmptyFiniteIterable` applied to a nested
      iterable. */
  function UnsafeNonEmptyFiniteEach<A>(t: Stream<A>): (r: Iter<A>)
    ensures AtLeast(r.caps, NonEmptyFinite) && r.elems == t
    ensures Valid(r) <==> t.Fin? && !IsEmpty(t)
  {
    UnsafeNonEmptyFinite(FromPlain(t))
  }

  /** `EnhancedIterables::unsafeImmutableNonEmptyFiniteIterable` applied to
      a nested iterable. */
  function UnsafeImmutableNonEmptyFiniteEach<A>(t: Stream<A>): (r: Iter<A>)
    ensures AtLeast(r.caps, ImmutableNonEmptyFinite) && r.elems == t
    ensures Valid(r) <==> t.Fin? && !IsEmpty(t)
  {
    UnsafeImmutableNonEmptyFinite(FromPlain(t))
  }

  /** `EnhancedIterables::unsafeImmutableNonEmptyIterable` applied to a
      nested iterable. */
  function UnsafeImmutableNonEmptyEach<A>(t: Stream<A>): (r: Iter<A>)
    ensures AtLeast(r.caps, ImmutableNonEmpty) && r.elems == t
    ensures Valid(r) <==> !IsEmpty(t)
  {
    UnsafeImmutableNonEmpty(FromPlain(t))
  }

  /** The unchecked promotion of non-empty nested iterables to
      ImmutableNonEmptyIterable is truthful. */
  lemma {:induction false} UnsafeImmutableNonEmptyAll<A>(ws: Stream<Stream<A>>)
    requires AllFinNonEmpty(ws)
    ensures ElementsImplement(Map(UnsafeImmutableNonEmptyEach, ws), ImmutableNonEmpty, ws)
  {
  }

  /** The unchecked promotion of finite non-empty nested iterables to
      NonEmptyFiniteIterable is truthful. */
  lemma {:induction false} UnsafeNonEmptyFiniteAll<A>(ws: Stream<Stream<A>>)
    requires AllFinNonEmpty(ws)
    ensures ElementsImplement(Map(UnsafeNonEmptyFiniteEach, ws), NonEmptyFinite, ws)
  {
  }

  /** The unchecked promotion of finite non-empty nested iterables to
      ImmutableNonEmptyFiniteIterable is truthful. */
  lemma {:induction false} UnsafeImmutableNonEmptyFiniteAll<A>(ws: Stream<Stream<A>>)
    requires AllFinNonEmpty(ws)
    ensures ElementsImplement(Map(UnsafeImmutableNonEmptyFiniteEach, ws), ImmutableNonEmptyFinite, ws)
  {
  }

  /** Promoting finite non-empty nested iterables to NonEmptyFiniteIterable
      never throws and yields truthful results. */
  lemma {:induction false} PromoteAllNonEmptyFinite<A>(ws: Stream<Stream<A>>)
    requires AllFinNonEmpty(ws)
    ensures ElementsReturnImplementing(Map(PromoteNonEmptyFinite, ws), NonEmptyFinite, ws)
  {
  }

  /** Promoting finite non-empty nested iterables to
      ImmutableNonEmptyFiniteIterable never throws and yields truthful
      results. */
  lemma {:induction false} PromoteAllImmutableNonEmptyFinite<A>(ws: Stream<Stream<A>>)
    requires AllFinNonEmpty(ws)
    ensures ElementsReturnImplementing(Map(PromoteImmutableNonEmptyFinite, ws), ImmutableNonEmptyFinite, ws)
  {
  }

  /** Promoting non-empty nested iterables to NonEmptyIterable never throws. */
  lemma {:induction false} PromoteAllNonEmpty<A>(ws: Stream<Stream<A>>)
    requires AllFinNonEmpty(ws)
    ensures ElementsReturnImplementing(Map(PromoteNonEmpty, ws), NonEmpty, ws)
  {
  }

  /** Promoting non-empty nested iterables to ImmutableNonEmptyIterable never
      throws. */
  lemma {:induction false} PromoteAllImmutableNonEmpty<A>(ws: Stream<Stream<A>>)
    requires AllFinNonEmpty(ws)
    ensures ElementsReturnImplementing(Map(PromoteImmutableNonEmpty, ws), ImmutableNonEmpty, ws)
  {
  }

  /** Enhancing nested iterables yields truthful iterables. */
  lemma {:induction false} EnhanceAll<A>(ts: Stream<Stream<A>>)
    ensures ElementsImplement(Map(EnhanceEach, ts), Enhanced, ts)
  {
  }

  /** Tagging finite nested iterables finite is truthful. */
  lemma {:induction false} FiniteAll<A>(ts: Stream<Stream<A>>)
    requires AllFin(ts)
    ensures ElementsImplement(Map(FiniteEach, ts), Finite, ts)
  {
  }

  /** Tagging nested iterables immutable is truthful. */
  lemma {:induction false} ImmutableAll<A>(ts: Stream<Stream<A>>)
    ensures ElementsImplement(Map(ImmutableEach, ts), Immutable, ts)
  {
  }

  /** Tagging finite nested iterables immutable and finite is truthful. */
  lemma {:induction false} ImmutableFiniteAll<A>(ts: Stream<Stream<A>>)
    requires AllFin(ts)
    ensures ElementsImplement(Map(ImmutableFiniteEach, ts), ImmutableFinite, ts)
  {
  }

  // ---------------------------------------------------------------------
  // Promotions without a check
  // ---------------------------------------------------------------------

  /** unsafeNonEmptyIterable: tags the argument non-empty without looking;
      a collection or a FiniteIterable is tagged finite as well. The tag is
      truthful exactly when there is a first element. */
  function UnsafeNonEmpty<A>(src: Source<A>): (r: Iter<A>)
    requires SourceValid(src)
    ensures AtLeast(r.caps, NonEmpty) && r.elems == Elems(src)
    ensures Valid(r) <==> !IsEmpty(Elems(src))
    ensures IsInstance(src, NonEmpty) ==> r == src.it
  {
    if IsInstance(src, NonEmpty) then src.it
    else if src.FromCollection? then Iter(NonEmptyFinite, Elems(src))
    else if IsInstance(src, Finite) then Iter(NonEmptyFinite, Elems(src))
    else Iter(NonEmpty, Elems(src))
  }

  /** unsafeNonEmptyFiniteIterable: tags the argument non-empty and finite
      without looking; truthful exactly when the elements end and there is a
      first one. */
  function UnsafeNonEmptyFinite<A>(src: Source<A>): (r: Iter<A>)
    requires SourceValid(src)
    ensures AtLeast(r.caps, NonEmptyFinite) && r.elems == Elems(src)
    ensures Valid(r) <==> Elems(src).Fin? && !IsEmpty(Elems(src))
    ensures IsInstance(src, NonEmptyFinite) ==> r == src.it
  {
    if src.FromCollection? then Iter(NonEmptyFinite, Elems(src))
    else if IsInstance(src, NonEmptyFinite) then src.it
    else Iter(NonEmptyFinite, Elems(src))
  }

  /** unsafeImmutableNonEmptyIterable: tags the argument immutable and
      non-empty without looking; a collection or a FiniteIterable is tagged
      finite as well. Truthful exactly when there is a first element. */
  function UnsafeImmutableNonEmpty<A>(src: Source<A>): (r: Iter<A>)
    requires SourceValid(src)
    ensures AtLeast(r.caps, ImmutableNonEmpty) && r.elems == Elems(src)
    ensures Valid(r) <==> !IsEmpty(Elems(src))
    ensures IsInstance(src, ImmutableNonEmpty) ==> r == src.it
  {
    if IsInstance(src, ImmutableNonEmpty) then src.it
    else if src.FromCollection? then Iter(ImmutableNonEmptyFinite, Elems(src))
    else if IsInstance(src, Finite) then Iter(ImmutableNonEmptyFinite, Elems(src))
    else Iter(ImmutableNonEmpty, Elems(src))
  }

  /** unsafeImmutableNonEmptyFiniteIterable: tags the argument with every
      capability without looking; truthful exactly when the elements end and
      there is a first one. */
  function UnsafeImmutableNonEmptyFinite<A>(src: Source<A>): (r: Iter<A>)
    requires SourceValid(src)
    ensures AtLeast(r.caps, ImmutableNonEmptyFinite) && r.elems == Elems(src)
    ensures Valid(r) <==> Elems(src).Fin? && !IsEmpty(Elems(src))
    ensures IsInstance(src, ImmutableNonEmptyFinite) ==> r == src.it
  {
    if IsInstance(src, ImmutableNonEmptyFinite) then src.it
    else Iter(ImmutableNonEmptyFinite, Elems(src))
  }

  // ---------------------------------------------------------------------
  // copyFrom, cycle, distinct, size
  // ---------------------------------------------------------------------

  /** copyFrom(FiniteIterable): an ImmutableFiniteIterable is returned as
      is; anything else is copied into a fresh list, whose immutable wrapper
      is non-empty exactly when the list is. */
  function CopyFrom<A>(x: Iter<A>): (r: Iter<A>)
    requires Implements(x, Finite)
    ensures Implements(r, ImmutableFinite) && r.elems == x.elems
    ensures x.caps.immutable ==> r == x
    ensures !x.caps.immutable ==> (r.caps.nonEmpty <==> !IsEmpty(x.elems))
  {
    if x.caps.immutable then x
    else
      var snapshot := x.elems.elems;
      if |snapshot| == 0 then Iter(ImmutableFinite, Fin([]))
      else Iter(ImmutableNonEmptyFinite, Fin(snapshot))
  }

  /** copyFrom(Collection): a snapshot of the collection's elements. */
  function CopyFromCollection<A>(items: seq<A>): (r: Iter<A>)
    ensures Implements(r, ImmutableFinite) && r.elems == Fin(items)
  {
    CopyFrom(WrapFinite(FromCollection(items)))
  }

  /** nonEmptyCycle(NonEmptyFiniteIterable): the elements over and over;
      non-empty and never ending. */
  function NonEmptyCycle<A>(x: Iter<A>): (r: Iter<A>)
    requires Implements(x, NonEmptyFinite)
    ensures Implements(r, NonEmpty) && !r.caps.finite && r.elems.Inf?
    ensures Take(|x.elems.elems|, r.elems).elems == x.elems.elems
    ensures forall i: nat :: At(r.elems, i + |x.elems.elems|) == At(r.elems, i)
  {
    var xs := x.elems.elems;
    var r := Iter(NonEmpty, Cycle(xs));
    assert Take(|xs|, r.elems).elems == xs;
    r
  }

  /** nonEmptyCycle(ImmutableNonEmptyFiniteIterable). */
  function ImmutableNonEmptyCycle<A>(x: Iter<A>): (r: Iter<A>)
    requires Implements(x, ImmutableNonEmptyFinite)
    ensures Implements(r, ImmutableNonEmpty) && !r.caps.finite && r.elems.Inf?
    ensures Take(|x.elems.elems|, r.elems).elems == x.elems.elems
    ensures forall i: nat :: At(r.elems, i + |x.elems.elems|) == At(r.elems, i)
  {
    var xs := x.elems.elems;
    var r := Iter(ImmutableNonEmpty, Cycle(xs));
    assert Take(|xs|, r.elems).elems == xs;
    r
  }

  /** nonEmptyDistinct(NonEmptyFiniteIterable): the unchecked promotion is
      justified, because distinct keeps the first element. */
  function NonEmptyDistinct<A(==)>(x: Iter<A>): (r: Iter<A>)
    requires Implements(x, NonEmptyFinite)
    ensures Implements(r, NonEmptyFinite)
    ensures r.elems == Fin(Seqs.Distinct(x.elems.elems))
  {
    UnsafeNonEmptyFinite(FromPlain(Fin(Seqs.Distinct(x.elems.elems))))
  }

  /** nonEmptyDistinct(ImmutableNonEmptyFiniteIterable). */
  function ImmutableNonEmptyDistinct<A(==)>(x: Iter<A>): (r: Iter<A>)
    requires Implements(x, ImmutableNonEmptyFinite)
    ensures Implements(r, ImmutableNonEmptyFinite)
    ensures r.elems == Fin(Seqs.Distinct(x.elems.elems))
  {
    UnsafeImmutableNonEmptyFinite(FromPlain(Fin(Seqs.Distinct(x.elems.elems))))
  }

  /** size: the number of elements as a Java int, saturating at
      Integer.MAX_VALUE. */
  function Size<A>(x: Iter<A>): (r: nat)
    requires Implements(x, Finite)
    ensures r <= IntMax
    ensures |x.elems.elems| <= IntMax ==> r == |x.elems.elems|
    ensures |x.elems.elems| > IntMax ==> r == IntMax
  {
    var n := |x.elems.elems|;
    if n > IntMax then IntMax else n
  }
}
