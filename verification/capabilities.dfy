/** The capability tags of the library's eight iterable types, an iterable
    value as a runtime tag over an element stream, and what a tag promises:
    a finite tag promises that iteration ends, a non-empty tag that it yields
    at least one element. Immutability is a promise about the absence of
    mutation, which a value model cannot observe; it is carried as a tag
    only. */
module Capabilities {
  import opened Adt
  import opened Streams

  /** The capability flags a runtime class carries. */
  datatype Caps = Caps(finite: bool, nonEmpty: bool, immutable: bool)

  /** One constant per interface of the hierarchy. */
  const Enhanced := Caps(false, false, false)
  const Finite := Caps(true, false, false)
  const NonEmpty := Caps(false, true, false)
  const NonEmptyFinite := Caps(true, true, false)
  const Immutable := Caps(false, false, true)
  const ImmutableFinite := Caps(true, false, true)
  const ImmutableNonEmpty := Caps(false, true, true)
  const ImmutableNonEmptyFinite := Caps(true, true, true)

  /** Every capability of `t` is present in `c`: a value tagged `c` may be
      used where the interface `t` is declared. */
  predicate AtLeast(c: Caps, t: Caps) {
    && (t.finite ==> c.finite)
    && (t.nonEmpty ==> c.nonEmpty)
    && (t.immutable ==> c.immutable)
  }

  /** The subtype relation is a partial order whose least element is
      Enhanced (no capability) and whose greatest is ImmutableNonEmptyFinite
      (all three), and it is closed under combining capabilities. */
  lemma {:induction false} AtLeastIsLattice(a: Caps, b: Caps, c: Caps)
    ensures AtLeast(a, a) && AtLeast(a, Enhanced) && AtLeast(ImmutableNonEmptyFinite, a)
    ensures AtLeast(a, b) && AtLeast(b, a) ==> a == b
    ensures AtLeast(a, b) && AtLeast(b, c) ==> AtLeast(a, c)
    ensures AtLeast(Caps(a.finite || b.finite, a.nonEmpty || b.nonEmpty, a.immutable || b.immutable), a)
  {
  }

  /** An iterable: the capability tag of its runtime class, and the elements
      iterating it yields. */
  datatype Iter<A> = Iter(caps: Caps, elems: Stream<A>)

  /** The tag tells the truth about the elements. */
  predicate Valid<A>(x: Iter<A>) {
    && (x.caps.finite ==> x.elems.Fin?)
    && (x.caps.nonEmpty ==> !IsEmpty(x.elems))
  }

  /** `x` is a truthful instance of the interface `t`. */
  predicate Implements<A>(x: Iter<A>, t: Caps) {
    Valid(x) && AtLeast(x.caps, t)
  }

  /** A stream of nested iterables lines up with `expected`: the same
      positions are defined, and each nested iterable implements `t` and
      yields the corresponding expected elements. */
  ghost predicate ElementsImplement<A>(s: Stream<Iter<A>>, t: Caps, expected: Stream<Stream<A>>) {
    && (forall i: nat :: Defined(s, i) <==> Defined(expected, i))
    && (forall i: nat | Defined(s, i) ::
          Implements(At(s, i), t) && Equiv(At(s, i).elems, At(expected, i)))
  }

  /** Like ElementsImplement, for a stream whose elements were produced by
      a promotion that may throw: none of them threw. */
  ghost predicate ElementsReturnImplementing<A>(s: Stream<Thrown<Iter<A>>>, t: Caps, expected: Stream<Stream<A>>) {
    && (forall i: nat :: Defined(s, i) <==> Defined(expected, i))
    && (forall i: nat | Defined(s, i) ::
          At(s, i).Returned? && Implements(At(s, i).value, t) && Equiv(At(s, i).value.elems, At(expected, i)))
  }

  /** ElementsImplement carries over to an equivalent stream. */
  lemma {:induction false} ElementsImplementEquiv<A>(s: Stream<Iter<A>>, s2: Stream<Iter<A>>, t: Caps, expected: Stream<Stream<A>>)
    requires ElementsImplement(s, t, expected) && Equiv(s2, s)
    ensures ElementsImplement(s2, t, expected)
  {
    EquivPointwise(s2, s);
  }

  /** ElementsReturnImplementing carries over to an equivalent stream. */
  lemma {:induction false} ElementsReturnImplementingEquiv<A>(
    s: Stream<Thrown<Iter<A>>>, s2: Stream<Thrown<Iter<A>>>, t: Caps, expected: Stream<Stream<A>>)
    requires ElementsReturnImplementing(s, t, expected) && Equiv(s2, s)
    ensures ElementsReturnImplementing(s2, t, expected)
  {
    EquivPointwise(s2, s);
  }

  /** An argument of declared type Iterable: one of the library's own
      iterables, a java.util.Collection (finite, with a known size), or any
      other Iterable, including the lazy results of the functional library
      the combinators delegate to. */
  datatype Source<A> =
    | FromEnhanced(it: Iter<A>)
    | FromCollection(items: seq<A>)
    | FromPlain(s: Stream<A>)

  /** The elements iterating the argument yields. */
  function Elems<A>(src: Source<A>): (r: Stream<A>)
    ensures src.FromCollection? ==> r.Fin?
  {
    match src
    case FromEnhanced(it) => it.elems
    case FromCollection(items) => Fin(items)
    case FromPlain(s) => s
  }

  /** An argument that is one of the library's iterables honours its tag. */
  predicate SourceValid<A>(src: Source<A>) {
    src.FromEnhanced? ==> Valid(src.it)
  }

  /** The runtime class of the argument implements `t`. */
  predicate IsInstance<A>(src: Source<A>, t: Caps) {
    src.FromEnhanced? && AtLeast(src.it.caps, t)
  }
}
