# enhanced-iterables, modelled in Dafny

enhanced-iterables is a Java library of lazy iterables whose static types carry
capabilities. An `EnhancedIterable` adds combinators (`take`, `fmap`, `slide`,
`magnetizeBy`, `tails`, ...) to a plain `Iterable`. Its sub-interfaces add three
independent promises:

- *finite*: the elements end;
- *non-empty*: there is a first element, so `head` and `tail` exist;
- *immutable*: the iterable cannot change.

The interface lattice combines them into eight types: `EnhancedIterable`,
`FiniteIterable`, `NonEmptyIterable`, `NonEmptyFiniteIterable`,
`ImmutableIterable`, `ImmutableFiniteIterable`, `ImmutableNonEmptyIterable` and
`ImmutableNonEmptyFiniteIterable`. Every combinator picks the strongest return
type it can justify. It builds the result with the lambda library and then
promotes it. The promotion is either checked (`nonEmptyIterableOrThrow` and
friends, which throw `IllegalArgumentException("iterable is empty")`) or
unchecked (`unsafeNonEmptyIterable` and friends, which trust the caller).

The repository holds two revisions:

- package `dev.marksman.enhancediterables` (the earlier one). Its interfaces
  and package-private factories are modelled in full. A few helpers it lacks
  are taken from the later revision and cited there. So are the later
  `immutableIterable` and `immutableFiniteIterable`, which `of` and
  `immutableNonEmptyMaybeFinite` rely on. They differ from the earlier two
  on a collection, and both pairs are modelled;
- package `software.kes.enhancediterables`. It replaces many checked promotions
  with unchecked ones and adds `singleton`, `repeat`, `cycle` and `distinct`
  factories.

## What the model is

- A value's elements are a `Streams.Stream`: either a finite sequence (`Fin`)
  or a total function from positions (`Inf`). An infinite iterable is a stream
  that never ends.
- An iterable object is an `Capabilities.Iter`: its elements plus the `Caps` it
  claims, meaning the finite / non-empty / immutable flags of its runtime
  interface. `Valid(x)` says the claim is truthful, and `Implements(x, t)` says
  it is truthful and at least `t`. Immutability is a tag only; there is no
  mutation to rule out.
- An argument declared `Iterable<A>` is a `Capabilities.Source`: an enhanced
  value, a `java.util.Collection`, or a plain iterable known only by its
  elements. The `instanceof` dispatch of the factories is a match on it.
- A thrown `IllegalArgumentException` is `Adt.Thrown.IllegalArgument(message)`.
  An optional `Maybe` is `Adt.Maybe`.
- The lambda library's functions (`Map`, `Take`, `Drop`, `Slide`,
  `MagnetizeBy`, `Cartesian`, ...) are modelled by their element semantics in
  `Seqs` (finite) and `Streams` (possibly infinite). What they return is a plain
  iterable, `FromPlain`.

There are two layers of proof.

1. Each combinator's contract says which elements it produces.
2. Each contract also shows that the promotion it performs is justified:
   - every `*OrThrow` call in a combinator is shown never to throw;
   - every `unsafe*` tag is shown to be truthful;
   - the tags of nested iterables are tracked through `ElementsImplement`.

Module layout follows the source: one module per interface, one for the
package-private `EnhancedIterables` factories, and one for `Validation`.

- `KesImmutableIterable` and `KesImmutableNonEmptyFiniteIterable` hold the later
  revision's versions of the operations that differ. The later `init`,
  `prepend`, `take`, `partition`, `toFinite`, `toNonEmpty` and the other
  unchanged members build the same iterables as the earlier ones.
- `Factories` holds the static factories that call back into the interfaces:
  `finiteIterable(maxCount, ...)`, `copyFrom(maxCount, ...)`, `cycle` and
  `distinct`.
- `TestExamples` proves concrete cases stated in the library's tests.

## Model

| member | source | states |
|---|---|---|
| Validation.RequirePositive | src/main/java/dev/marksman/enhancediterables/Validation.java:8-12 | Succeeds exactly when the value is at least 1; otherwise the IllegalArgumentException message is `<name> must be >= 1`. |
| Validation.RequireNonNegative | src/main/java/dev/marksman/enhancediterables/Validation.java:14-18 | Succeeds exactly when the value is at least 0; otherwise the message is `<name> must be >= 0`. |
| Validation.ValidateTake | src/main/java/dev/marksman/enhancediterables/Validation.java:20-22 | take accepts exactly `count >= 0`, else throws with `count must be >= 0`. |
| Validation.ValidateDrop | src/main/java/dev/marksman/enhancediterables/Validation.java:24-26 | drop accepts exactly `count >= 0`, else throws with `count must be >= 0`. |
| Validation.ValidateSlide | src/main/java/dev/marksman/enhancediterables/Validation.java:28-30 | slide accepts exactly `k >= 1`, else throws with `k must be >= 1`. |
| EnhancedIterables.Empty | src/main/java/software/kes/enhancediterables/EnhancedIterables.java:23-31 | The shared empty value has no element and truthfully implements ImmutableFiniteIterable. |
| EnhancedIterables.Singleton | src/main/java/software/kes/enhancediterables/EnhancedIterables.java:247-249 | Holds exactly the one value and truthfully implements ImmutableNonEmptyFiniteIterable. |
| EnhancedIterables.Repeat | src/main/java/software/kes/enhancediterables/EnhancedIterables.java:276-303 | Infinite (never tagged finite), every position holds the element, and dropping the head leaves the same elements: the tail is the repetition itself. |
| EnhancedIterables.FiniteFromCollection | src/main/java/software/kes/enhancediterables/EnhancedIterables.java:363-369 | A collection becomes a finite iterable with the same elements, tagged non-empty exactly when the collection has an element. |
| EnhancedIterables.ImmutableFiniteFromCollection | src/main/java/software/kes/enhancediterables/EnhancedIterables.java:371-377 | As FiniteFromCollection, also tagged immutable; the tags are truthful. |
| EnhancedIterables.Enhance | src/main/java/software/kes/enhancediterables/EnhancedIterables.java:33-42 | Later enhance: an enhanced value is returned as is; a collection is finite and non-empty iff it has an element; any other iterable is wrapped with no tag and is not probed. |
| EnhancedIterables.EnhanceProbing | src/main/java/dev/marksman/enhancediterables/EnhancedIterables.java:28-44 | Earlier enhance: same elements; an enhanced value is returned as is; a collection is classified by emptiness; a plain iterable is tagged non-empty exactly when it has a first element, never finite or immutable. |
| EnhancedIterables.WrapFinite | src/main/java/dev/marksman/enhancediterables/EnhancedIterables.java:46-52 | A value that already implements FiniteIterable is returned unchanged; otherwise the finite tag is unchecked and is truthful exactly when the elements end. |
| EnhancedIterables.ProtectedImmutable | src/main/java/dev/marksman/enhancediterables/EnhancedIterables.java:54-60 | Earlier revision: a value that already implements ImmutableIterable is returned unchanged; anything else, a collection included, is truthfully immutable and claims nothing more, so it is neither finite nor non-empty. |
| EnhancedIterables.ProtectedImmutableFinite | src/main/java/dev/marksman/enhancediterables/EnhancedIterables.java:62-68 | Earlier revision: a value that already implements ImmutableFiniteIterable is returned unchanged; anything else, a collection included, is tagged exactly ImmutableFinite, never non-empty, and the finite tag is truthful exactly when the elements end. |
| EnhancedIterables.WrapImmutable | src/main/java/software/kes/enhancediterables/EnhancedIterables.java:55-64 | Later revision: a value that already implements ImmutableIterable is returned unchanged; the result always truthfully implements ImmutableIterable, and a collection becomes finite, non-empty exactly when it has an element. |
| EnhancedIterables.WrapImmutableFinite | src/main/java/software/kes/enhancediterables/EnhancedIterables.java:66-74 | Later revision: a value that already implements ImmutableFiniteIterable is returned unchanged; a collection is non-empty exactly when it has an element; otherwise the finite tag is truthful exactly when the elements end. |
| EnhancedIterables.WrapImmutableRevisionsDiffer | src/main/java/software/kes/enhancediterables/EnhancedIterables.java:59-60 | On a non-empty collection the earlier immutableIterable claims neither finite nor non-empty, while the later one is a truthful ImmutableNonEmptyFiniteIterable. |
| EnhancedIterables.MaybeFinite | src/main/java/dev/marksman/enhancediterables/EnhancedIterables.java:70-78 | Present exactly for a FiniteIterable or a collection, and then a truthful FiniteIterable with the same elements. |
| EnhancedIterables.ImmutableMaybeFinite | src/main/java/software/kes/enhancediterables/EnhancedIterables.java:96-104 | Present exactly for an ImmutableFiniteIterable or a collection, and then a truthful ImmutableFiniteIterable with the same elements. |
| EnhancedIterables.NonEmptyMaybeFinite | src/main/java/software/kes/enhancediterables/EnhancedIterables.java:86-94 | Present exactly when the tail is a FiniteIterable or a collection; then a truthful NonEmptyFiniteIterable holding the head followed by the tail. |
| EnhancedIterables.ImmutableNonEmptyMaybeFinite | src/main/java/software/kes/enhancediterables/EnhancedIterables.java:106-114 | Present exactly when the tail is an ImmutableFiniteIterable or a collection; then truthfully ImmutableNonEmptyFinite. |
| EnhancedIterables.MaybeNonEmpty | src/main/java/dev/marksman/enhancediterables/EnhancedIterables.java:80-87 | Present exactly when there is a first element; then a truthful NonEmptyIterable with the same elements; a NonEmptyIterable is returned itself. |
| EnhancedIterables.NonEmptyOf | src/main/java/dev/marksman/enhancediterables/EnhancedIterables.java:89-102 | nonEmptyIterable(head, tail) is truthfully non-empty and enumerates the head followed by the tail. |
| EnhancedIterables.NonEmptyFiniteOf | src/main/java/dev/marksman/enhancediterables/EnhancedIterables.java:113-126 | The head followed by the finite tail, tagged non-empty and finite; the tags are truthful exactly when the tail's elements end. |
| EnhancedIterables.ImmutableNonEmptyOf | src/main/java/dev/marksman/enhancediterables/EnhancedIterables.java:137-150 | The head followed by an immutable tail, truthfully ImmutableNonEmpty. |
| EnhancedIterables.ImmutableNonEmptyFiniteOf | src/main/java/dev/marksman/enhancediterables/EnhancedIterables.java:161-174 | The head followed by an immutable finite tail, tagged ImmutableNonEmptyFinite; truthful exactly when the tail ends. |
| EnhancedIterables.Of | src/main/java/software/kes/enhancediterables/EnhancedIterables.java:238-249 | of(first, more...) holds `[first] + more` and truthfully implements ImmutableNonEmptyFiniteIterable, with or without extra elements. |
| EnhancedIterables.UnconsOrThrow | src/main/java/dev/marksman/enhancediterables/EnhancedIterables.java:231-234 | Throws `iterable is empty` exactly when there is no element; otherwise returns the first element and the rest. |
| EnhancedIterables.NonEmptyOrThrow | src/main/java/dev/marksman/enhancediterables/EnhancedIterables.java:104-111 | Throws `iterable is empty` exactly when the argument has no element; otherwise a truthful NonEmptyIterable with the same elements, the argument itself if it already is one. |
| EnhancedIterables.NonEmptyFiniteOrThrow | src/main/java/dev/marksman/enhancediterables/EnhancedIterables.java:128-135 | Throws exactly on an empty argument; otherwise tagged NonEmptyFinite, truthful exactly when the elements end. |
| EnhancedIterables.ImmutableNonEmptyOrThrow | src/main/java/dev/marksman/enhancediterables/EnhancedIterables.java:152-159 | Throws exactly on an empty argument; otherwise a truthful ImmutableNonEmptyIterable with the same elements. |
| EnhancedIterables.ImmutableNonEmptyFiniteOrThrow | src/main/java/dev/marksman/enhancediterables/EnhancedIterables.java:176-184 | Throws exactly on an empty argument; otherwise tagged ImmutableNonEmptyFinite, truthful exactly when the elements end. |
| EnhancedIterables.UnsafeNonEmpty | src/main/java/software/kes/enhancediterables/EnhancedIterables.java:140-150 | Never throws; the non-empty tag is truthful exactly when the argument has an element; a NonEmptyIterable is returned itself. |
| EnhancedIterables.UnsafeImmutableNonEmpty | src/main/java/software/kes/enhancediterables/EnhancedIterables.java:152-162 | Never throws; the ImmutableNonEmpty tag is truthful exactly when the argument has an element. |
| EnhancedIterables.UnsafeNonEmptyFinite | src/main/java/software/kes/enhancediterables/EnhancedIterables.java:183-191 | Never throws; the NonEmptyFinite tag is truthful exactly when the elements end and there is one. |
| EnhancedIterables.UnsafeImmutableNonEmptyFinite | src/main/java/software/kes/enhancediterables/EnhancedIterables.java:224-234 | Never throws; the ImmutableNonEmptyFinite tag is truthful exactly when the elements end and there is one. |
| EnhancedIterables.CopyFrom | src/main/java/dev/marksman/enhancediterables/EnhancedIterables.java:192-203 | An immutable finite source is returned unchanged; otherwise a snapshot with the same elements, non-empty exactly when there is an element; always a truthful ImmutableFiniteIterable. |
| EnhancedIterables.CopyFromCollection | src/main/java/dev/marksman/enhancediterables/EnhancedIterables.java:205-207 | A collection's snapshot: same elements, truthfully ImmutableFinite. |
| EnhancedIterables.NonEmptyCycle | src/main/java/software/kes/enhancediterables/EnhancedIterables.java:319-322 | Infinite and non-empty; its first n elements are the receiver's n elements and it repeats with period n. |
| EnhancedIterables.ImmutableNonEmptyCycle | src/main/java/software/kes/enhancediterables/EnhancedIterables.java:324-327 | As NonEmptyCycle, and immutable. |
| EnhancedIterables.NonEmptyDistinct | src/main/java/software/kes/enhancediterables/EnhancedIterables.java:343-346 | A truthful NonEmptyFiniteIterable holding the distinct elements in first-occurrence order. |
| EnhancedIterables.ImmutableNonEmptyDistinct | src/main/java/software/kes/enhancediterables/EnhancedIterables.java:348-351 | As NonEmptyDistinct, and immutable. |
| EnhancedIterables.Size | src/main/java/software/kes/enhancediterables/EnhancedIterables.java:353-361 | The element count, clamped to Integer.MAX_VALUE. |
| EnhancedIterables.UnsafeImmutableNonEmptyAll | src/main/java/software/kes/enhancediterables/ImmutableIterable.java:158-162 | Tagging every non-empty finite group ImmutableNonEmpty without a check yields only truthful tags. |
| EnhancedIterables.UnsafeImmutableNonEmptyFiniteAll | src/main/java/software/kes/enhancediterables/ImmutableIterable.java:220-224 | Tagging every window ImmutableNonEmptyFinite without a check yields only truthful tags. |
| EnhancedIterables.UnsafeNonEmptyFiniteAll | src/main/java/dev/marksman/enhancediterables/NonEmptyFiniteIterable.java:154-158 | Tagging every group NonEmptyFinite without a check yields only truthful tags. |
| EnhancedIterables.PromoteAllNonEmptyFinite | src/main/java/dev/marksman/enhancediterables/EnhancedIterable.java:206-210 | Promoting every window with nonEmptyFiniteIterableOrThrow never throws and gives a truthful NonEmptyFiniteIterable with the window's elements. |
| EnhancedIterables.PromoteAllImmutableNonEmptyFinite | src/main/java/dev/marksman/enhancediterables/ImmutableIterable.java:208-212 | Promoting every window with immutableNonEmptyFiniteIterableOrThrow never throws. |
| EnhancedIterables.PromoteAllNonEmpty | src/main/java/dev/marksman/enhancediterables/NonEmptyIterable.java:110-114 | Promoting every group with nonEmptyIterableOrThrow never throws. |
| EnhancedIterables.PromoteAllImmutableNonEmpty | src/main/java/dev/marksman/enhancediterables/ImmutableIterable.java:146-150 | Promoting every group with immutableNonEmptyIterableOrThrow never throws. |
| EnhancedIterables.ImmutableAll | src/main/java/dev/marksman/enhancediterables/ImmutableIterable.java:239-241 | Tagging every suffix immutable gives truthful ImmutableIterables with the suffix's elements. |
| EnhancedIterables.FiniteAll | src/main/java/dev/marksman/enhancediterables/FiniteIterable.java:320-322 | Tagging every suffix of a finite value finite gives truthful FiniteIterables. |
| EnhancedIterables.ImmutableFiniteAll | src/main/java/dev/marksman/enhancediterables/ImmutableFiniteIterable.java:275-277 | Tagging every suffix of an immutable finite value ImmutableFinite gives truthful tags. |
| EnhancedIterables.EnhanceAll | src/main/java/dev/marksman/enhancediterables/EnhancedIterable.java:234-236 | Enhancing every suffix gives valid iterables with the suffix's elements. |
| EnhancedIterable.Append | src/main/java/dev/marksman/enhancediterables/EnhancedIterable.java:39-41 | The element is appended after the receiver's elements; the non-empty promotion never throws and the result is truthfully non-empty. |
| EnhancedIterable.Concat | src/main/java/dev/marksman/enhancediterables/EnhancedIterable.java:50-53 | The receiver's elements followed by the other's; tagged non-empty exactly when either side has an element. |
| EnhancedIterable.ConcatNonEmpty | src/main/java/dev/marksman/enhancediterables/EnhancedIterable.java:62-65 | Concatenation with a NonEmptyIterable: the promotion never throws and the result is truthfully non-empty. |
| EnhancedIterable.Drop | src/main/java/dev/marksman/enhancediterables/EnhancedIterable.java:76-79 | Throws exactly for a negative count; otherwise the elements from position `count` on (none when count exceeds the size). |
| EnhancedIterable.DropWhile | src/main/java/dev/marksman/enhancediterables/EnhancedIterable.java:90-93 | The elements after the longest prefix satisfying the predicate. |
| EnhancedIterable.Filter | src/main/java/dev/marksman/enhancediterables/EnhancedIterable.java:102-105 | The elements satisfying the predicate, tagged neither finite nor non-empty beyond what holds; every satisfying value keeps all its occurrences and no other value appears; at every split point the satisfying elements before it come first. |
| EnhancedIterable.Find | src/main/java/dev/marksman/enhancediterables/EnhancedIterable.java:114-117 | Absent exactly when no element satisfies the predicate; otherwise the first element that does. |
| EnhancedIterable.Fmap | src/main/java/dev/marksman/enhancediterables/EnhancedIterable.java:128-131 | f applied at every position; the result is non-empty exactly when the receiver is. |
| EnhancedIterable.FmapIdentity | src/test/java/dev/marksman/enhancediterables/EnhancedIterableTest.java:286-289 | fmap of the identity gives back the receiver's elements. |
| EnhancedIterable.FmapCompose | src/test/java/dev/marksman/enhancediterables/EnhancedIterableTest.java:292-297 | fmap f then fmap g gives the same elements as fmap of g after f. |
| EnhancedIterable.Intersperse | src/main/java/dev/marksman/enhancediterables/EnhancedIterable.java:142-144 | The separator between each pair of neighbouring elements. |
| EnhancedIterable.IsEmpty | src/main/java/dev/marksman/enhancediterables/EnhancedIterable.java:151-153 | True exactly when there is no element; never true of a value tagged non-empty. |
| EnhancedIterable.Partition | src/main/java/dev/marksman/enhancediterables/EnhancedIterable.java:166-171 | The payloads of the left choices, and of the right choices, each in the receiver's order. |
| EnhancedIterable.Prepend | src/main/java/dev/marksman/enhancediterables/EnhancedIterable.java:179-181 | Truthfully non-empty; the first element is the prepended one and the rest are the receiver's. |
| EnhancedIterable.PrependAll | src/main/java/dev/marksman/enhancediterables/EnhancedIterable.java:192-194 | The separator before every element. |
| EnhancedIterable.Slide | src/main/java/dev/marksman/enhancediterables/EnhancedIterable.java:206-210 | Throws exactly for k < 1; otherwise finite exactly when the receiver is, and every window's promotion succeeds with a truthful NonEmptyFiniteIterable of the next k elements. |
| EnhancedIterable.Span | src/main/java/dev/marksman/enhancediterables/EnhancedIterable.java:219-223 | The longest prefix satisfying the predicate and the rest; together they are the receiver's elements and the rest does not start with a satisfying element. |
| EnhancedIterable.Tails | src/main/java/dev/marksman/enhancediterables/EnhancedIterable.java:234-236 | Truthfully ImmutableNonEmpty; finite exactly when the receiver is; the i-th element is the suffix from position i. |
| EnhancedIterable.Take | src/main/java/dev/marksman/enhancediterables/EnhancedIterable.java:247-250 | Throws exactly for a negative count; otherwise a truthful FiniteIterable of the first min(count, size) elements, even from an infinite receiver. |
| EnhancedIterable.TakeWhile | src/main/java/dev/marksman/enhancediterables/EnhancedIterable.java:261-264 | The longest prefix whose elements satisfy the predicate. |
| EnhancedIterable.ToFinite | src/main/java/dev/marksman/enhancediterables/EnhancedIterable.java:300-302 | Present exactly when the receiver is tagged finite, and then the receiver itself. |
| EnhancedIterable.ToNonEmpty | src/main/java/dev/marksman/enhancediterables/EnhancedIterable.java:310-312 | Present exactly when there is a first element; then a truthful NonEmptyIterable with the same elements. |
| EnhancedIterable.ZipWith | src/main/java/dev/marksman/enhancediterables/EnhancedIterable.java:328-332 | fn applied to the pairs at each position both sides have. |
| EnhancedIterable.ZipWithFinite | src/main/java/dev/marksman/enhancediterables/EnhancedIterable.java:348-352 | Zipping with a FiniteIterable is truthfully finite. |
| EnhancedIterable.ZipWithCollection | src/main/java/dev/marksman/enhancediterables/EnhancedIterable.java:368-372 | Zipping with a collection is truthfully finite. |
| FiniteIterable.Append | src/main/java/dev/marksman/enhancediterables/FiniteIterable.java:41-43 | `xs + [e]`, truthfully NonEmptyFinite; the promotion never throws. |
| FiniteIterable.Concat | src/main/java/dev/marksman/enhancediterables/FiniteIterable.java:52-55 | `xs + ys` of two finite values is truthfully finite. |
| FiniteIterable.ConcatCollection | src/main/java/dev/marksman/enhancediterables/FiniteIterable.java:64-67 | `xs + items` with a collection is truthfully finite. |
| FiniteIterable.ConcatNonEmpty | src/main/java/dev/marksman/enhancediterables/FiniteIterable.java:76-79 | Finite followed by non-empty finite is truthfully NonEmptyFinite; the promotion never throws. |
| FiniteIterable.Cross | src/main/java/dev/marksman/enhancediterables/FiniteIterable.java:88-91 | All pairs, left element varying slowest; `|xs| * |ys|` of them; empty exactly when either side is. |
| FiniteIterable.CrossCollection | src/main/java/dev/marksman/enhancediterables/FiniteIterable.java:100-103 | Cross with a collection is truthfully finite and holds all pairs. |
| FiniteIterable.Drop | src/main/java/dev/marksman/enhancediterables/FiniteIterable.java:115-118 | Throws exactly for a negative count; otherwise `xs[count..]`, or nothing when count exceeds the size. |
| FiniteIterable.DropWhile | src/main/java/dev/marksman/enhancediterables/FiniteIterable.java:130-133 | Finite, the elements after the longest satisfying prefix. |
| FiniteIterable.Filter | src/main/java/dev/marksman/enhancediterables/FiniteIterable.java:143-146 | Finite and never tagged non-empty, even from a non-empty receiver; every satisfying value keeps all its occurrences and no other value appears; at every split point the satisfying elements before it come first. |
| FiniteIterable.Fmap | src/main/java/dev/marksman/enhancediterables/FiniteIterable.java:158-161 | Same length, f applied at every position. |
| FiniteIterable.FoldLeft | src/main/java/dev/marksman/enhancediterables/FiniteIterable.java:177-180 | `z` for no elements; otherwise op applied to the fold of all but the last element and the last element. |
| FiniteIterable.Inits | src/main/java/dev/marksman/enhancediterables/FiniteIterable.java:191-193 | Truthfully ImmutableNonEmpty with `|xs| + 1` prefixes, shortest first, each a truthful FiniteIterable. |
| FiniteIterable.Intersperse | src/main/java/dev/marksman/enhancediterables/FiniteIterable.java:205-207 | Finite, the separator between neighbours. |
| FiniteIterable.MagnetizeBy | src/main/java/dev/marksman/enhancediterables/FiniteIterable.java:219-223 | Finite; every group's promotion succeeds with a truthful NonEmptyFiniteIterable holding the maximal runs of the receiver. |
| FiniteIterable.Partition | src/main/java/dev/marksman/enhancediterables/FiniteIterable.java:234-240 | Both halves truthfully finite, holding the left and right payloads in order. |
| FiniteIterable.Prepend | src/main/java/dev/marksman/enhancediterables/FiniteIterable.java:249-251 | `[e] + xs`, truthfully NonEmptyFinite. |
| FiniteIterable.PrependAll | src/main/java/dev/marksman/enhancediterables/FiniteIterable.java:263-265 | Finite, the separator before every element. |
| FiniteIterable.Reverse | src/main/java/dev/marksman/enhancediterables/FiniteIterable.java:274-276 | Finite and the same length, element i being element `n-1-i` of the receiver. |
| FiniteIterable.Slide | src/main/java/dev/marksman/enhancediterables/FiniteIterable.java:289-293 | Throws exactly for k < 1; otherwise finite and every window promotion succeeds. |
| FiniteIterable.Span | src/main/java/dev/marksman/enhancediterables/FiniteIterable.java:303-308 | Both halves truthfully finite; they concatenate to the receiver; the prefix satisfies the predicate and the rest does not start with a satisfying element. |
| FiniteIterable.Tails | src/main/java/dev/marksman/enhancediterables/FiniteIterable.java:320-322 | Truthfully ImmutableNonEmpty with `|xs| + 1` suffixes, each a truthful FiniteIterable. |
| FiniteIterable.TakeWhile | src/main/java/dev/marksman/enhancediterables/FiniteIterable.java:334-337 | Finite, the longest satisfying prefix. |
| FiniteIterable.ToFinite | src/main/java/dev/marksman/enhancediterables/FiniteIterable.java:345-347 | Always the receiver itself. |
| FiniteIterable.ToNonEmpty | src/main/java/dev/marksman/enhancediterables/FiniteIterable.java:356-359 | Never throws; present exactly when there is an element, and then a truthful NonEmptyFiniteIterable with the same elements. |
| FiniteIterable.ZipWith | src/main/java/dev/marksman/enhancediterables/FiniteIterable.java:375-379 | Finite, no longer than the receiver; position i exists exactly when both sides have it and holds fn of the two. |
| FiniteIterable.FromCollectionItems | src/main/java/dev/marksman/enhancediterables/FiniteIterable.java:431-434 | finiteIterable(collection) is truthfully finite with the collection's elements. |
| NonEmptyIterable.Head | src/main/java/dev/marksman/enhancediterables/NonEmptyIterable.java:31 | The first element of the iteration. |
| NonEmptyIterable.Tail | src/main/java/dev/marksman/enhancediterables/NonEmptyIterable.java:38 | The head followed by the tail's elements is the whole iteration. |
| NonEmptyIterable.IterationIsHeadThenTail | src/main/java/dev/marksman/enhancediterables/NonEmptyIterable.java:96-98 | Iteration yields head() and then the elements of tail(), position by position. |
| NonEmptyIterable.Concat | src/main/java/dev/marksman/enhancediterables/NonEmptyIterable.java:48-51 | Truthfully non-empty with the same head; the elements are `xs` then the other's. |
| NonEmptyIterable.Fmap | src/main/java/dev/marksman/enhancediterables/NonEmptyIterable.java:63-66 | Truthfully non-empty; the head is f of the head and every element is mapped. |
| NonEmptyIterable.IsEmpty | src/main/java/dev/marksman/enhancediterables/NonEmptyIterable.java:74-76 | Always false, and that is the truth. |
| NonEmptyIterable.Intersperse | src/main/java/dev/marksman/enhancediterables/NonEmptyIterable.java:88-90 | Truthfully non-empty with the same head. |
| NonEmptyIterable.MagnetizeBy | src/main/java/dev/marksman/enhancediterables/NonEmptyIterable.java:110-114 | The outer promotion and every group's promotion succeed; the groups are the maximal runs. |
| NonEmptyIterable.PrependAll | src/main/java/dev/marksman/enhancediterables/NonEmptyIterable.java:124-126 | Truthfully non-empty and starts with the separator. |
| NonEmptyIterable.ToFinite | src/main/java/dev/marksman/enhancediterables/NonEmptyIterable.java:138-140 | Present exactly when the tail is already known finite (a FiniteIterable or a collection), without iterating; then a truthful NonEmptyFiniteIterable. |
| NonEmptyIterable.RepeatIsNotFinite | src/main/java/dev/marksman/enhancediterables/NonEmptyIterable.java:233-235 | For a repetition, whose tail is itself, toFinite is absent. |
| NonEmptyIterable.ToNonEmpty | src/main/java/dev/marksman/enhancediterables/NonEmptyIterable.java:148-150 | Always the receiver itself. |
| NonEmptyIterable.ZipWith | src/main/java/dev/marksman/enhancediterables/NonEmptyIterable.java:166-171 | Truthfully non-empty; the head is fn of the two heads. |
| NonEmptyIterable.ZipWithFinite | src/main/java/dev/marksman/enhancediterables/NonEmptyIterable.java:187-191 | Zipping with a NonEmptyFiniteIterable is truthfully NonEmptyFinite and no longer than it. |
| NonEmptyFiniteIterable.Tail | src/main/java/dev/marksman/enhancediterables/NonEmptyFiniteIterable.java:38 | A truthful FiniteIterable; the head followed by it is the receiver. |
| NonEmptyFiniteIterable.Concat | src/main/java/dev/marksman/enhancediterables/NonEmptyFiniteIterable.java:48-51 | `xs + ys`, truthfully NonEmptyFinite. |
| NonEmptyFiniteIterable.ConcatCollection | src/main/java/dev/marksman/enhancediterables/NonEmptyFiniteIterable.java:61-64 | `xs + items`, truthfully NonEmptyFinite. |
| NonEmptyFiniteIterable.Cross | src/main/java/dev/marksman/enhancediterables/NonEmptyFiniteIterable.java:73-76 | Two non-empty finite sides give a truthful NonEmptyFinite product of `|xs| * |ys|` pairs. |
| NonEmptyFiniteIterable.Cycle | src/main/java/dev/marksman/enhancediterables/NonEmptyFiniteIterable.java:84-86 | Truthfully non-empty, tagged not finite, with elements the receiver repeated forever. |
| NonEmptyFiniteIterable.Distinct | src/main/java/dev/marksman/enhancediterables/NonEmptyFiniteIterable.java:93-95 | Truthfully NonEmptyFinite, no duplicates, the first occurrences in order, every element of the receiver present and nothing else. |
| NonEmptyFiniteIterable.Fmap | src/main/java/dev/marksman/enhancediterables/NonEmptyFiniteIterable.java:107-110 | Truthfully NonEmptyFinite, same length, f at every position. |
| NonEmptyFiniteIterable.Init | src/main/java/dev/marksman/enhancediterables/NonEmptyFiniteIterable.java:117-119 | All but the last element: it followed by last() is the receiver. |
| NonEmptyFiniteIterable.Intersperse | src/main/java/dev/marksman/enhancediterables/NonEmptyFiniteIterable.java:131-133 | Truthfully NonEmptyFinite. |
| NonEmptyFiniteIterable.Last | src/main/java/dev/marksman/enhancediterables/NonEmptyFiniteIterable.java:140-142 | The final element; it always exists. |
| NonEmptyFiniteIterable.MagnetizeBy | src/main/java/dev/marksman/enhancediterables/NonEmptyFiniteIterable.java:154-158 | Truthfully NonEmptyFinite outer value; every group truthfully NonEmptyFinite. |
| NonEmptyFiniteIterable.PrependAll | src/main/java/dev/marksman/enhancediterables/NonEmptyFiniteIterable.java:168-170 | Truthfully NonEmptyFinite. |
| NonEmptyFiniteIterable.ReduceLeft | src/main/java/dev/marksman/enhancediterables/NonEmptyFiniteIterable.java:183-185 | A single element is returned as is; otherwise op combines the reduction of all but the last element with the last. |
| NonEmptyFiniteIterable.ReduceRight | src/main/java/dev/marksman/enhancediterables/NonEmptyFiniteIterable.java:198-200 | Computed as reverse then reduceLeft with the flipped operator, it equals the right-nested reduction. |
| NonEmptyFiniteIterable.Reverse | src/main/java/dev/marksman/enhancediterables/NonEmptyFiniteIterable.java:210-212 | Truthfully NonEmptyFinite, elements in reverse order. |
| NonEmptyFiniteIterable.ToFinite | src/main/java/dev/marksman/enhancediterables/NonEmptyFiniteIterable.java:220-222 | Always the receiver itself. |
| NonEmptyFiniteIterable.ToNonEmpty | src/main/java/dev/marksman/enhancediterables/NonEmptyFiniteIterable.java:230-232 | Always the receiver itself. |
| NonEmptyFiniteIterable.ZipWith | src/main/java/dev/marksman/enhancediterables/NonEmptyFiniteIterable.java:248-252 | With any non-empty value: truthfully NonEmptyFinite, between 1 and `|xs|` elements. |
| NonEmptyFiniteIterable.OfCollectionTail | src/main/java/dev/marksman/enhancediterables/NonEmptyFiniteIterable.java:274-276 | The head followed by a collection's items, truthfully NonEmptyFinite. |
| ImmutableIterable.Append | src/main/java/dev/marksman/enhancediterables/ImmutableIterable.java:36-38 | Truthfully ImmutableNonEmpty, the element after the receiver's; the promotion never throws. |
| ImmutableIterable.Concat | src/main/java/dev/marksman/enhancediterables/ImmutableIterable.java:47-50 | Concatenation of two immutable values is truthfully immutable. |
| ImmutableIterable.ConcatNonEmpty | src/main/java/dev/marksman/enhancediterables/ImmutableIterable.java:59-62 | With an ImmutableNonEmptyIterable: truthfully ImmutableNonEmpty. |
| ImmutableIterable.Drop | src/main/java/dev/marksman/enhancediterables/ImmutableIterable.java:74-77 | Throws exactly for a negative count; otherwise immutable, the elements from position count. |
| ImmutableIterable.DropWhile | src/main/java/dev/marksman/enhancediterables/ImmutableIterable.java:89-92 | Immutable, the elements after the longest satisfying prefix. |
| ImmutableIterable.Filter | src/main/java/dev/marksman/enhancediterables/ImmutableIterable.java:102-105 | Immutable and never tagged non-empty; every satisfying value keeps all its occurrences and no other value appears; at every split point the satisfying elements before it come first. |
| ImmutableIterable.Fmap | src/main/java/dev/marksman/enhancediterables/ImmutableIterable.java:117-120 | Immutable, defined at the receiver's positions, f at each. |
| ImmutableIterable.Intersperse | src/main/java/dev/marksman/enhancediterables/ImmutableIterable.java:132-134 | Immutable, separator between neighbours. |
| ImmutableIterable.MagnetizeBy | src/main/java/dev/marksman/enhancediterables/ImmutableIterable.java:146-150 | Immutable; every group promotion succeeds with a truthful ImmutableNonEmptyIterable. |
| ImmutableIterable.Partition | src/main/java/dev/marksman/enhancediterables/ImmutableIterable.java:164-170 | Both halves truthfully immutable, left and right payloads in order. |
| ImmutableIterable.Prepend | src/main/java/dev/marksman/enhancediterables/ImmutableIterable.java:179-181 | Truthfully ImmutableNonEmpty; head is the element, the rest are the receiver's. |
| ImmutableIterable.PrependAll | src/main/java/dev/marksman/enhancediterables/ImmutableIterable.java:193-195 | Immutable, the separator before every element. |
| ImmutableIterable.Slide | src/main/java/dev/marksman/enhancediterables/ImmutableIterable.java:208-212 | Throws exactly for k < 1; otherwise immutable, finite exactly when the receiver is, every window promotion succeeds. |
| ImmutableIterable.Span | src/main/java/dev/marksman/enhancediterables/ImmutableIterable.java:222-227 | Both halves immutable; they concatenate to the receiver. |
| ImmutableIterable.Tails | src/main/java/dev/marksman/enhancediterables/ImmutableIterable.java:239-241 | Truthfully ImmutableNonEmpty; finite exactly when the receiver is; every suffix truthfully immutable. |
| ImmutableIterable.Take | src/main/java/dev/marksman/enhancediterables/ImmutableIterable.java:253-256 | Throws exactly for a negative count; otherwise a truthful ImmutableFiniteIterable of the first min(count, size) elements. |
| ImmutableIterable.TakeWhile | src/main/java/dev/marksman/enhancediterables/ImmutableIterable.java:268-271 | Immutable, the longest satisfying prefix. |
| ImmutableIterable.ToFinite | src/main/java/dev/marksman/enhancediterables/ImmutableIterable.java:283-285 | Present exactly when the receiver is tagged finite; then the receiver, truthfully ImmutableFinite. |
| ImmutableIterable.ToNonEmpty | src/main/java/dev/marksman/enhancediterables/ImmutableIterable.java:294-297 | Never throws; present exactly when there is an element; then truthfully ImmutableNonEmpty. |
| ImmutableIterable.ZipWith | src/main/java/dev/marksman/enhancediterables/ImmutableIterable.java:313-317 | Zipping two immutable values is truthfully immutable. |
| ImmutableIterable.ZipWithFinite | src/main/java/dev/marksman/enhancediterables/ImmutableIterable.java:333-337 | Zipping with an ImmutableFiniteIterable is truthfully ImmutableFinite and no longer than it. |
| ImmutableIterable.EmptyImmutable | src/main/java/dev/marksman/enhancediterables/ImmutableIterable.java:386-388 | No element; truthfully ImmutableFinite. |
| ImmutableFiniteIterable.Append | src/main/java/dev/marksman/enhancediterables/ImmutableFiniteIterable.java:38-40 | `xs + [e]`, truthfully ImmutableNonEmptyFinite. |
| ImmutableFiniteIterable.Concat | src/main/java/dev/marksman/enhancediterables/ImmutableFiniteIterable.java:49-52 | `xs + ys`, truthfully ImmutableFinite. |
| ImmutableFiniteIterable.ConcatNonEmpty | src/main/java/dev/marksman/enhancediterables/ImmutableFiniteIterable.java:61-64 | With an ImmutableNonEmptyFiniteIterable: truthfully ImmutableNonEmptyFinite. |
| ImmutableFiniteIterable.Cross | src/main/java/dev/marksman/enhancediterables/ImmutableFiniteIterable.java:73-76 | Truthfully ImmutableFinite; all pairs; empty exactly when either side is. |
| ImmutableFiniteIterable.Drop | src/main/java/dev/marksman/enhancediterables/ImmutableFiniteIterable.java:88-91 | Throws exactly for a negative count; otherwise `xs[count..]`, truthfully ImmutableFinite. |
| ImmutableFiniteIterable.DropWhile | src/main/java/dev/marksman/enhancediterables/ImmutableFiniteIterable.java:103-106 | Truthfully ImmutableFinite. |
| ImmutableFiniteIterable.Filter | src/main/java/dev/marksman/enhancediterables/ImmutableFiniteIterable.java:116-119 | Truthfully ImmutableFinite, never tagged non-empty; every satisfying value keeps all its occurrences and no other value appears; at every split point the satisfying elements before it come first. |
| ImmutableFiniteIterable.Fmap | src/main/java/dev/marksman/enhancediterables/ImmutableFiniteIterable.java:131-134 | Truthfully ImmutableFinite, same length, f at every position. |
| ImmutableFiniteIterable.Inits | src/main/java/dev/marksman/enhancediterables/ImmutableFiniteIterable.java:145-147 | Truthfully ImmutableNonEmptyFinite with `|xs| + 1` prefixes, each truthfully ImmutableFinite. |
| ImmutableFiniteIterable.Intersperse | src/main/java/dev/marksman/enhancediterables/ImmutableFiniteIterable.java:159-161 | Truthfully ImmutableFinite. |
| ImmutableFiniteIterable.MagnetizeBy | src/main/java/dev/marksman/enhancediterables/ImmutableFiniteIterable.java:173-177 | Truthfully ImmutableFinite; every group promotion succeeds with a truthful ImmutableNonEmptyFiniteIterable. |
| ImmutableFiniteIterable.Partition | src/main/java/dev/marksman/enhancediterables/ImmutableFiniteIterable.java:188-194 | Both halves truthfully ImmutableFinite. |
| ImmutableFiniteIterable.Prepend | src/main/java/dev/marksman/enhancediterables/ImmutableFiniteIterable.java:203-205 | `[e] + xs`, truthfully ImmutableNonEmptyFinite. |
| ImmutableFiniteIterable.PrependAll | src/main/java/dev/marksman/enhancediterables/ImmutableFiniteIterable.java:217-219 | Truthfully ImmutableFinite. |
| ImmutableFiniteIterable.Reverse | src/main/java/dev/marksman/enhancediterables/ImmutableFiniteIterable.java:229-231 | Truthfully ImmutableFinite, reversed. |
| ImmutableFiniteIterable.Slide | src/main/java/dev/marksman/enhancediterables/ImmutableFiniteIterable.java:244-248 | Throws exactly for k < 1; otherwise truthfully ImmutableFinite with every window promotion succeeding. |
| ImmutableFiniteIterable.Span | src/main/java/dev/marksman/enhancediterables/ImmutableFiniteIterable.java:258-263 | Both halves truthfully ImmutableFinite; they concatenate to the receiver. |
| ImmutableFiniteIterable.Tails | src/main/java/dev/marksman/enhancediterables/ImmutableFiniteIterable.java:275-277 | Truthfully ImmutableNonEmpty with `|xs| + 1` suffixes, each truthfully ImmutableFinite. |
| ImmutableFiniteIterable.TakeWhile | src/main/java/dev/marksman/enhancediterables/ImmutableFiniteIterable.java:289-292 | Truthfully ImmutableFinite. |
| ImmutableFiniteIterable.ToFinite | src/main/java/dev/marksman/enhancediterables/ImmutableFiniteIterable.java:300-302 | Always the receiver itself. |
| ImmutableFiniteIterable.ToNonEmpty | src/main/java/dev/marksman/enhancediterables/ImmutableFiniteIterable.java:311-314 | Never throws; present exactly when there is an element; then truthfully ImmutableNonEmptyFinite with the same elements. |
| ImmutableFiniteIterable.ZipWith | src/main/java/dev/marksman/enhancediterables/ImmutableFiniteIterable.java:330-334 | With any immutable value: truthfully ImmutableFinite, no longer than the receiver. |
| ImmutableNonEmptyIterable.Tail | src/main/java/dev/marksman/enhancediterables/ImmutableNonEmptyIterable.java:33 | Truthfully immutable; head followed by it is the receiver. |
| ImmutableNonEmptyIterable.Concat | src/main/java/dev/marksman/enhancediterables/ImmutableNonEmptyIterable.java:43-46 | Promotion never throws; truthfully ImmutableNonEmpty with the same head. |
| ImmutableNonEmptyIterable.Fmap | src/main/java/dev/marksman/enhancediterables/ImmutableNonEmptyIterable.java:58-61 | Promotion never throws; truthfully ImmutableNonEmpty, head is f of the head. |
| ImmutableNonEmptyIterable.Intersperse | src/main/java/dev/marksman/enhancediterables/ImmutableNonEmptyIterable.java:73-75 | Promotion never throws; same head. |
| ImmutableNonEmptyIterable.MagnetizeBy | src/main/java/dev/marksman/enhancediterables/ImmutableNonEmptyIterable.java:87-91 | Outer and every group promotion succeed, each truthfully ImmutableNonEmpty. |
| ImmutableNonEmptyIterable.PrependAll | src/main/java/dev/marksman/enhancediterables/ImmutableNonEmptyIterable.java:101-103 | Promotion never throws; starts with the separator. |
| ImmutableNonEmptyIterable.ToFinite | src/main/java/dev/marksman/enhancediterables/ImmutableNonEmptyIterable.java:115-117 | Present exactly when the tail is tagged finite; then truthfully ImmutableNonEmptyFinite with the same elements. |
| ImmutableNonEmptyIterable.ToNonEmpty | src/main/java/dev/marksman/enhancediterables/ImmutableNonEmptyIterable.java:125-127 | Always the receiver itself. |
| ImmutableNonEmptyIterable.ZipWith | src/main/java/dev/marksman/enhancediterables/ImmutableNonEmptyIterable.java:143-147 | Promotion never throws; head is fn of the heads. |
| ImmutableNonEmptyIterable.ZipWithFinite | src/main/java/dev/marksman/enhancediterables/ImmutableNonEmptyIterable.java:163-167 | Promotion never throws; truthfully ImmutableNonEmptyFinite, no longer than the finite side. |
| ImmutableNonEmptyIterable.OfTail | src/main/java/dev/marksman/enhancediterables/ImmutableNonEmptyIterable.java:177-179 | Head is the given head and the given tail is its tail. |
| ImmutableNonEmptyFiniteIterable.Tail | src/main/java/dev/marksman/enhancediterables/ImmutableNonEmptyFiniteIterable.java:35 | Truthfully ImmutableFinite; head followed by it is the receiver. |
| ImmutableNonEmptyFiniteIterable.Concat | src/main/java/dev/marksman/enhancediterables/ImmutableNonEmptyFiniteIterable.java:45-48 | Promotion never throws; `xs + ys`. |
| ImmutableNonEmptyFiniteIterable.Cross | src/main/java/dev/marksman/enhancediterables/ImmutableNonEmptyFiniteIterable.java:57-60 | Promotion never throws; `|xs| * |ys|` pairs. |
| ImmutableNonEmptyFiniteIterable.Fmap | src/main/java/dev/marksman/enhancediterables/ImmutableNonEmptyFiniteIterable.java:72-75 | Promotion never throws; same length, f at every position. |
| ImmutableNonEmptyFiniteIterable.Init | src/main/java/dev/marksman/enhancediterables/ImmutableNonEmptyFiniteIterable.java:83-85 | Truthfully ImmutableFinite; followed by the last element it is the receiver. |
| ImmutableNonEmptyFiniteIterable.Intersperse | src/main/java/dev/marksman/enhancediterables/ImmutableNonEmptyFiniteIterable.java:97-99 | Promotion never throws. |
| ImmutableNonEmptyFiniteIterable.Prepend | src/main/java/dev/marksman/enhancediterables/ImmutableNonEmptyFiniteIterable.java:108-110 | `[e] + xs`; the new value's tail holds exactly the receiver's elements. |
| ImmutableNonEmptyFiniteIterable.PrependAll | src/main/java/dev/marksman/enhancediterables/ImmutableNonEmptyFiniteIterable.java:120-122 | Promotion never throws. |
| ImmutableNonEmptyFiniteIterable.Reverse | src/main/java/dev/marksman/enhancediterables/ImmutableNonEmptyFiniteIterable.java:132-134 | Promotion never throws; reversed. |
| ImmutableNonEmptyFiniteIterable.ToFinite | src/main/java/dev/marksman/enhancediterables/ImmutableNonEmptyFiniteIterable.java:142-144 | Always the receiver itself. |
| ImmutableNonEmptyFiniteIterable.ToNonEmpty | src/main/java/dev/marksman/enhancediterables/ImmutableNonEmptyFiniteIterable.java:152-154 | Always the receiver itself. |
| ImmutableNonEmptyFiniteIterable.ZipWith | src/main/java/dev/marksman/enhancediterables/ImmutableNonEmptyFiniteIterable.java:170-174 | Promotion never throws; between 1 and `|xs|` elements. |
| ImmutableNonEmptyFiniteIterable.OfTail | src/main/java/dev/marksman/enhancediterables/ImmutableNonEmptyFiniteIterable.java:184-186 | Head followed by the immutable finite tail, truthfully ImmutableNonEmptyFinite. |
| KesImmutableIterable.Append | src/main/java/software/kes/enhancediterables/ImmutableIterable.java:48-50 | The unchecked ImmutableNonEmpty tag is truthful; elements are the receiver's then the element. |
| KesImmutableIterable.ConcatNonEmpty | src/main/java/software/kes/enhancediterables/ImmutableIterable.java:71-74 | The unchecked tag is truthful because the other side is non-empty. |
| KesImmutableIterable.MagnetizeBy | src/main/java/software/kes/enhancediterables/ImmutableIterable.java:158-162 | Immutable; every group's unchecked ImmutableNonEmpty tag is truthful. |
| KesImmutableIterable.Prepend | src/main/java/software/kes/enhancediterables/ImmutableIterable.java:191-193 | The unchecked tag is truthful; head is the element, the rest the receiver's. |
| KesImmutableIterable.Slide | src/main/java/software/kes/enhancediterables/ImmutableIterable.java:220-224 | Throws exactly for k < 1; otherwise every window's unchecked ImmutableNonEmptyFinite tag is truthful. |
| KesImmutableIterable.TailsAsWritten | src/main/java/software/kes/enhancediterables/ImmutableIterable.java:251-253 | As written: tagged ImmutableNonEmptyFinite without a check, which is truthful exactly when the receiver is finite. |
| KesImmutableIterable.TailsAsWrittenMislabelsRepeat | src/main/java/software/kes/enhancediterables/ImmutableIterable.java:251-253 | For repeat(e) the as-written tails claims to be finite yet never ends. |
| KesImmutableIterable.Tails | src/main/java/software/kes/enhancediterables/ImmutableIterable.java:251-253 | Corrected: truthfully ImmutableNonEmpty, finite exactly when the receiver is, every suffix immutable. |
| KesImmutableIterable.ToNonEmpty | src/main/java/software/kes/enhancediterables/ImmutableIterable.java:306-309 | Present exactly when there is an element; the unchecked immutable tag is truthful. |
| KesImmutableNonEmptyFiniteIterable.Concat | src/main/java/software/kes/enhancediterables/ImmutableNonEmptyFiniteIterable.java:46-49 | The unchecked ImmutableNonEmptyFinite tag is truthful; `xs + ys`. |
| KesImmutableNonEmptyFiniteIterable.Cross | src/main/java/software/kes/enhancediterables/ImmutableNonEmptyFiniteIterable.java:58-61 | The unchecked tag is truthful; `|xs| * |ys|` pairs. |
| KesImmutableNonEmptyFiniteIterable.Cycle | src/main/java/software/kes/enhancediterables/ImmutableNonEmptyFiniteIterable.java:69-71 | Immutable, non-empty, infinite; the receiver's elements repeated, the first round being the receiver. |
| KesImmutableNonEmptyFiniteIterable.CycleRepeatsReceiver | src/main/java/software/kes/enhancediterables/ImmutableNonEmptyFiniteIterable.java:69-71 | Position `q * n + j` of the cycle holds the receiver's element j. |
| KesImmutableNonEmptyFiniteIterable.Distinct | src/main/java/software/kes/enhancediterables/ImmutableNonEmptyFiniteIterable.java:78-80 | Truthfully ImmutableNonEmptyFinite, no duplicates, first occurrences in order, every element kept. |
| KesImmutableNonEmptyFiniteIterable.Fmap | src/main/java/software/kes/enhancediterables/ImmutableNonEmptyFiniteIterable.java:92-95 | Unchecked tag truthful; same length, f at every position. |
| KesImmutableNonEmptyFiniteIterable.Intersperse | src/main/java/software/kes/enhancediterables/ImmutableNonEmptyFiniteIterable.java:117-119 | Unchecked tag truthful. |
| KesImmutableNonEmptyFiniteIterable.MagnetizeBy | src/main/java/software/kes/enhancediterables/ImmutableNonEmptyFiniteIterable.java:131-135 | Outer and every group's unchecked ImmutableNonEmptyFinite tag are truthful. |
| KesImmutableNonEmptyFiniteIterable.PrependAll | src/main/java/software/kes/enhancediterables/ImmutableNonEmptyFiniteIterable.java:156-158 | Unchecked tag truthful. |
| KesImmutableNonEmptyFiniteIterable.Reverse | src/main/java/software/kes/enhancediterables/ImmutableNonEmptyFiniteIterable.java:168-170 | Unchecked tag truthful; reversed. |
| KesImmutableNonEmptyFiniteIterable.ZipWith | src/main/java/software/kes/enhancediterables/ImmutableNonEmptyFiniteIterable.java:206-210 | Unchecked tag truthful; between 1 and `|xs|` elements. |
| Factories.FiniteIterableAtMost | src/main/java/dev/marksman/enhancediterables/FiniteIterable.java:447-449 | Throws exactly for negative maxCount; otherwise a truthful FiniteIterable of the source's first min(maxCount, size) elements, immutable when the source is. |
| Factories.CopyFromAtMost | src/main/java/dev/marksman/enhancediterables/EnhancedIterables.java:209-215 | Throws exactly for negative maxCount; otherwise a truthful ImmutableFiniteIterable of the source's first min(maxCount, size) elements. |
| Factories.Cycle | src/main/java/software/kes/enhancediterables/EnhancedIterables.java:305-310 | Empty input gives the empty value; otherwise infinite, non-empty, the elements repeated. |
| Factories.ImmutableCycle | src/main/java/software/kes/enhancediterables/EnhancedIterables.java:312-317 | As Cycle, and immutable. |
| Factories.Distinct | src/main/java/software/kes/enhancediterables/EnhancedIterables.java:329-334 | Truthfully finite, first occurrences without duplicates, tagged non-empty exactly when the input has an element. |
| Factories.ImmutableDistinct | src/main/java/software/kes/enhancediterables/EnhancedIterables.java:336-341 | As Distinct, and immutable. |
| Seqs.Intersperse | src/main/java/dev/marksman/enhancediterables/EnhancedIterable.java:142-144 | Fewer than two elements are unchanged; otherwise `2n - 1` elements, even positions the input, odd ones the separator. |
| Seqs.PrependAll | src/main/java/dev/marksman/enhancediterables/EnhancedIterable.java:192-194 | `2n` elements, the separator at even positions and the input at odd ones. |
| Seqs.PrependAllIsSepThenIntersperse | src/main/java/dev/marksman/enhancediterables/NonEmptyIterable.java:124-126 | For a non-empty input prependAll is the separator followed by intersperse. |
| Seqs.Slide | src/main/java/dev/marksman/enhancediterables/EnhancedIterable.java:206-210 | Exactly the windows `xs[i..i+k]`; no shorter window at the end. |
| Seqs.MagnetizeBy | src/main/java/dev/marksman/enhancediterables/FiniteIterable.java:219-223 | The groups are the maximal runs: they concatenate back to the input, none is empty, neighbours inside a group satisfy the predicate and the pair across each boundary does not; there are no groups exactly when the input is empty. |
| Seqs.LeftsRightsCount | src/main/java/dev/marksman/enhancediterables/FiniteIterable.java:234-240 | Every choice lands in exactly one half. |
| Seqs.LeftsRightsConcat | src/main/java/dev/marksman/enhancediterables/FiniteIterable.java:234-240 | Both halves distribute over concatenation, so each keeps the order of its entries. |
| Seqs.InitsTailsSplit | src/main/java/dev/marksman/enhancediterables/FiniteIterable.java:191-193 | The i-th prefix followed by the i-th suffix is the input. |
| Seqs.CrossAt | src/main/java/dev/marksman/enhancediterables/FiniteIterable.java:88-91 | Pair (i, j) sits at position `i * |ys| + j`. |
| Seqs.CrossEmpty | src/main/java/dev/marksman/enhancediterables/FiniteIterable.java:100-103 | The product is empty exactly when a side is. |
| Seqs.ReverseInvolution | src/main/java/dev/marksman/enhancediterables/FiniteIterable.java:274-276 | Reversing twice gives back the input. |
| Seqs.Distinct | src/main/java/dev/marksman/enhancediterables/NonEmptyFiniteIterable.java:93-95 | No duplicates, only input elements, every input element kept. |
| Seqs.DistinctIsFirstOccurrences | src/main/java/software/kes/enhancediterables/ImmutableNonEmptyFiniteIterable.java:78-80 | distinct equals the first occurrences in original order. |
| Seqs.DistinctIdempotent | src/main/java/software/kes/enhancediterables/EnhancedIterables.java:329-334 | distinct applied twice equals distinct once. |
| Seqs.FoldLeftSnoc | src/main/java/dev/marksman/enhancediterables/FiniteIterable.java:177-180 | Folding one more element at the back applies op once more. |
| Seqs.ReduceLeftSnoc | src/main/java/dev/marksman/enhancediterables/NonEmptyFiniteIterable.java:183-185 | reduceLeft is the fold of the tail from the head, equal to op of the reduction of the init and the last. |
| Seqs.ReduceRightIsFoldRight1 | src/main/java/dev/marksman/enhancediterables/NonEmptyFiniteIterable.java:198-200 | reverse then reduceLeft with flipped op equals the right-nested reduction. |
| Seqs.InitLast | src/main/java/dev/marksman/enhancediterables/NonEmptyFiniteIterable.java:117-119 | init followed by last is the input. |
| Seqs.Filter | src/main/java/dev/marksman/enhancediterables/FiniteIterable.java:143-146 | Only satisfying input elements, and every satisfying element kept. |
| Seqs.FilterConcat | src/main/java/dev/marksman/enhancediterables/FiniteIterable.java:143-146 | filter of a concatenation is the concatenation of the filters, so the kept elements keep their order. |
| Seqs.FilterSingleton | src/main/java/dev/marksman/enhancediterables/FiniteIterable.java:143-146 | One element is kept exactly when it satisfies the predicate; with FilterConcat this determines filter on every input. |
| Seqs.FilterCount | src/main/java/dev/marksman/enhancediterables/FiniteIterable.java:143-146 | A satisfying value occurs in the result as often as in the input; any other value does not occur. |
| Seqs.FilterCountAll | src/main/java/dev/marksman/enhancediterables/FiniteIterable.java:143-146 | FilterCount at every element of the input. |
| Seqs.FilterSplits | src/main/java/dev/marksman/enhancediterables/FiniteIterable.java:143-146 | At every split point, the filter is the filter of the prefix followed by the filter of the suffix. |
| Seqs.FindIsHeadOfFilter | src/main/java/dev/marksman/enhancediterables/EnhancedIterable.java:114-117 | find is the first element of filter, absent when filter is empty. |
| Seqs.TakeWhile | src/main/java/dev/marksman/enhancediterables/FiniteIterable.java:334-337 | A prefix of satisfying elements, stopped at the first failing one. |
| Seqs.DropWhile | src/main/java/dev/marksman/enhancediterables/FiniteIterable.java:130-133 | A suffix; everything dropped satisfies, and it does not start with a satisfying element. |
| Seqs.SpanSplits | src/main/java/dev/marksman/enhancediterables/FiniteIterable.java:303-308 | span's halves concatenate to the input; the prefix is takeWhile's. |
| Seqs.Tails | src/main/java/dev/marksman/enhancediterables/FiniteIterable.java:320-322 | `|xs| + 1` suffixes, element i being `xs[i..]`. |
| Seqs.Inits | src/main/java/dev/marksman/enhancediterables/FiniteIterable.java:191-193 | `|xs| + 1` prefixes, element i being `xs[..i]`. |
| Seqs.Reverse | src/main/java/dev/marksman/enhancediterables/NonEmptyFiniteIterable.java:210-212 | Same length, element i is element `n-1-i`. |
| Streams.ConsUncons | src/main/java/dev/marksman/enhancediterables/EnhancedIterables.java:231-234 | The head put back before the rest gives the same elements. |
| Streams.ConsDrop | src/main/java/dev/marksman/enhancediterables/ImmutableIterable.java:179-181 | Dropping the head of a prepended stream gives the original stream. |
| Streams.TakeDropSplit | src/main/java/dev/marksman/enhancediterables/EnhancedIterable.java:247-250 | take(n) followed by drop(n) gives back the stream. |
| Streams.TakeEquiv | src/main/java/dev/marksman/enhancediterables/FiniteIterable.java:447-449 | Taking from streams with the same elements gives the same prefix. |
| Streams.Take | src/main/java/dev/marksman/enhancediterables/EnhancedIterable.java:247-250 | Finite, min(n, size) elements, each the stream's element at that position. |
| Streams.Drop | src/main/java/dev/marksman/enhancediterables/EnhancedIterable.java:76-79 | Position i of the result is position n + i of the stream. |
| Streams.MapIdentity | src/main/java/dev/marksman/enhancediterables/EnhancedIterable.java:128-131 | Mapping the identity changes no element. |
| Streams.MapCompose | src/main/java/dev/marksman/enhancediterables/EnhancedIterable.java:128-131 | Mapping f then g equals mapping their composition. |
| Streams.MapCons | src/main/java/dev/marksman/enhancediterables/NonEmptyIterable.java:63-66 | Mapping a non-empty stream is f of the head before the mapped tail. |
| Streams.ZipWithCons | src/main/java/dev/marksman/enhancediterables/NonEmptyIterable.java:166-171 | Zipping two non-empty streams is fn of the heads before the zip of the tails. |
| Streams.ZipWith | src/main/java/dev/marksman/enhancediterables/EnhancedIterable.java:328-332 | Defined exactly where both sides are; finite when either side is; length is the minimum. |
| Streams.Concat | src/main/java/dev/marksman/enhancediterables/EnhancedIterable.java:50-53 | Finite exactly when both are; empty exactly when both are; positions follow the first then the second. |
| Streams.Windows | src/main/java/dev/marksman/enhancediterables/ImmutableIterable.java:208-212 | Window i is the k elements from position i; every window non-empty and finite. |
| Streams.Tails | src/main/java/dev/marksman/enhancediterables/EnhancedIterable.java:234-236 | Never empty; finite with `n + 1` elements when the stream is; element i is the suffix from i. |
| Streams.RepeatTail | src/main/java/software/kes/enhancediterables/EnhancedIterables.java:276-303 | The tail of a repetition is the repetition. |
| Streams.Cycle | src/main/java/dev/marksman/enhancediterables/NonEmptyFiniteIterable.java:84-86 | Infinite; the first round is the input and it repeats with period n. |
| Streams.CycleAt | src/main/java/software/kes/enhancediterables/EnhancedIterables.java:319-322 | Element `q * n + j` is `xs[j]`. |
| Streams.CycleTakeRounds | src/main/java/software/kes/enhancediterables/EnhancedIterables.java:324-327 | The first k rounds are the input repeated k times. |
| Capabilities.AtLeastIsLattice | src/main/java/dev/marksman/enhancediterables/ImmutableNonEmptyFiniteIterable.java:26-27 | The capability order is reflexive, antisymmetric and transitive; its least element is the bare interface and its greatest is the one with all three capabilities. |
| Capabilities.ElementsImplementEquiv | src/main/java/dev/marksman/enhancediterables/ImmutableIterable.java:239-241 | Nested truthful tags survive replacing the outer stream by one with the same elements. |
| Adt.TraverseMaybe | src/main/java/dev/marksman/enhancediterables/FiniteIterable.java:356-359 | Nothing stays Nothing; a present value throws exactly when the function throws on it. |
| TestExamples.FoldLeftSumExample | src/test/java/dev/marksman/enhancediterables/FiniteIterableTest.java:375-378 | foldLeft of 1..5 from 10 with addition is 25. |
| TestExamples.ReduceLeftSumExample | src/test/java/dev/marksman/enhancediterables/NonEmptyFiniteIterableTest.java:565-569 | reduceLeft of 1..5 with addition is 15. |
| TestExamples.SlideExample | src/test/java/dev/marksman/enhancediterables/FiniteIterableTest.java:667-671 | slide(2) of 0..3 is exactly the three windows [0,1], [1,2], [2,3], with no shorter window at the end. |
| TestExamples.SlideDocExample | src/main/java/dev/marksman/enhancediterables/EnhancedIterable.java:195-205 | The documented example: slide(2) of 1..5 is [[1,2],[2,3],[3,4],[4,5]]. |
| TestExamples.MagnetizeByExample | src/test/java/dev/marksman/enhancediterables/FiniteIterableTest.java:468-477 | magnetizeBy(<=) of [1,2,3,2,2,3,2,1] is [[1,2,3],[2,2,3],[2],[1]]. |
| TestExamples.CrossExample | src/test/java/dev/marksman/enhancediterables/FiniteIterableTest.java:169-174 | cross of [1,2,3] and [foo,bar,baz] is the nine pairs, left varying slowest. |

## Left out

- The iterator protocol, laziness, object identity and aliasing are not modelled. An iterable is its stream of elements plus its capability tags.
- `requireNonNull` checks are left out: Dafny values are never null.
- `toArray`, `toCollection`, `unwrap`, and the internal wrapper classes (`NonEmptyWrapper`, `ImmutableNonEmptyFiniteWrapper`, `ProtectedIterator`) are not modelled; only their element behaviour is used.
- Immutability is a capability tag only. Nothing in the model mutates, so the `immutable` flag is truthful whenever the elements come from an immutable or copied value.
- EnhancedIterable.Filter: modelled for receivers whose elements end (`Fin`). On an infinite receiver the Java result is lazy and possibly never yields, which a total function cannot express.
- EnhancedIterable.DropWhile: restricted to `Fin` receivers, for the same reason.
- EnhancedIterable.TakeWhile: restricted to `Fin` receivers, for the same reason.
- EnhancedIterable.Find: restricted to `Fin` receivers; on an infinite one with no match the Java call does not return.
- EnhancedIterable.Span: restricted to `Fin` receivers, for the same reason.
- EnhancedIterable.Partition: restricted to `Fin` receivers, for the same reason.
- ImmutableIterable.Filter: restricted to `Fin` receivers, as for EnhancedIterable.
- ImmutableIterable.DropWhile: restricted to `Fin` receivers.
- ImmutableIterable.TakeWhile: restricted to `Fin` receivers.
- ImmutableIterable.Span: restricted to `Fin` receivers.
- ImmutableIterable.Partition: restricted to `Fin` receivers.
- ImmutableIterable.MagnetizeBy: restricted to `Fin` receivers.
- KesImmutableIterable.MagnetizeBy: restricted to `Fin` receivers.
- NonEmptyIterable.MagnetizeBy: restricted to `Fin` receivers.
- ImmutableNonEmptyIterable.MagnetizeBy: restricted to `Fin` receivers.
- NonEmptyIterable.ToFinite: takes the tail's `Source` as an argument, because whether the tail is a `FiniteIterable` or a `Collection` is a runtime-class fact the elements do not determine.
- ImmutableNonEmptyIterable.ToFinite: takes the tail as an argument, for the same reason: whether the tail is already an ImmutableFiniteIterable is a runtime-class fact the elements do not determine.
- `foldRight` (a lazy right fold returning `Lazy<B>`) is not modelled; `reduceRight` is.
- The earlier `ImmutableNonEmptyFiniteIterable` has no `cycle`, `distinct` or `magnetizeBy` of its own. They are modelled from the later revision in `KesImmutableNonEmptyFiniteIterable`.
- The earlier `enhance` probes a plain iterable for a first element. The later one does not. Both are modelled: `EnhanceProbing` and `Enhance`.
- The earlier `of(first, more...)` always builds a head-and-tail value and has no singleton case. `EnhancedIterables.Of` follows the later code; both give the same elements and tags.
- The static `of`, `copyFrom`, `emptyIterable`, `finiteIterable` and `nonEmptyIterable` delegates on each interface just call the `EnhancedIterables` factories. Only those with their own logic have rows.
- EnhancedIterables.Size: the count of a finite value is taken as its element count. The lambda library's `Size` (which prefers `Collection.size()`) is not modelled separately.
- `Seqs.Slide`: the code only ever yields full windows of `k` elements, never a shorter final window, and that is what is modelled.
- `equals`, `hashCode`, `toString` and the `Collection`-backed fast paths are left out.

## Findings

| source | as written | input that shows it | evidently intended | confidence | as-written member | corrected member |
|---|---|---|---|---|---|---|
| src/main/java/software/kes/enhancediterables/ImmutableIterable.java:251-253 | `tails()` promotes its result with `unsafeImmutableNonEmptyFiniteIterable`, so the object claims `ImmutableNonEmptyFiniteIterable` even for an infinite receiver | `ImmutableIterable.repeat(x).tails()`: the tags say finite, but the tails never end | promote with `unsafeImmutableNonEmptyIterable`, matching the declared return type `ImmutableNonEmptyIterable` | not executed | KesImmutableIterable.TailsAsWritten, KesImmutableIterable.TailsAsWrittenMislabelsRepeat | KesImmutableIterable.Tails |
