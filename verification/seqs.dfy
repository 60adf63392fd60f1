/** Finite-sequence semantics of the list combinators the library delegates to
    (intersperse, prependAll, slide, magnetizeBy, partition, tails, inits,
    cartesian product, reverse, distinct, folds, init/last, filter, find,
    takeWhile/dropWhile/span). Each operation is characterised element by
    element, and each is tied to a partner: an inverse, a reference definition
    or a law relating it to the others. */
module Seqs {
  import opened Adt

  // ---------------------------------------------------------------------
  // Helpers
  // ---------------------------------------------------------------------

  /** No element occurs twice. */
  predicate NoDup<A(==)>(xs: seq<A>) {
    forall i, j :: 0 <= i < j < |xs| ==> xs[i] != xs[j]
  }

  /** Every adjacent pair of `g` satisfies `p(previous, next)`. */
  predicate Linked<A>(p: (A, A) -> bool, g: seq<A>) {
    forall i :: 0 <= i < |g| - 1 ==> p(g[i], g[i + 1])
  }

  /** Concatenation of a sequence of sequences. */
  function Flatten<A>(gs: seq<seq<A>>): seq<A>
    decreases |gs|
  {
    if |gs| == 0 then [] else gs[0] + Flatten(gs[1..])
  }

  /** `f` applied to every element, in order. */
  function MapSeq<A, B>(f: A -> B, xs: seq<A>): (r: seq<B>)
    ensures |r| == |xs|
    ensures forall i :: 0 <= i < |xs| ==> r[i] == f(xs[i])
  {
    seq(|xs|, i requires 0 <= i < |xs| => f(xs[i]))
  }

  /** `k` copies of `xs`, one after another. */
  function Replicate<A>(xs: seq<A>, k: nat): (r: seq<A>)
    decreases k
  {
    if k == 0 then [] else xs + Replicate(xs, k - 1)
  }

  // ---------------------------------------------------------------------
  // intersperse / prependAll
  // ---------------------------------------------------------------------

  /** `sep` between every two adjacent elements; even positions hold the
      original elements and odd positions hold `sep`. */
  function Intersperse<A>(sep: A, xs: seq<A>): (r: seq<A>)
    ensures |xs| <= 1 ==> r == xs
    ensures |r| == if |xs| == 0 then 0 else 2 * |xs| - 1
    ensures forall i :: 0 <= i < |r| ==> r[i] == if i % 2 == 0 then xs[i / 2] else sep
    decreases |xs|
  {
    if |xs| <= 1 then xs else [xs[0], sep] + Intersperse(sep, xs[1..])
  }

  /** `sep` in front of every element; even positions hold `sep`. */
  function PrependAll<A>(sep: A, xs: seq<A>): (r: seq<A>)
    ensures |r| == 2 * |xs|
    ensures forall i :: 0 <= i < |r| ==> r[i] == if i % 2 == 0 then sep else xs[i / 2]
    decreases |xs|
  {
    if |xs| == 0 then [] else [sep, xs[0]] + PrependAll(sep, xs[1..])
  }

  /** On a non-empty sequence, prependAll is intersperse with one more
      separator in front. */
  lemma {:induction false} PrependAllIsSepThenIntersperse<A>(sep: A, xs: seq<A>)
    requires |xs| > 0
    ensures PrependAll(sep, xs) == [sep] + Intersperse(sep, xs)
    decreases |xs|
  {
    if |xs| > 1 {
      var t := Intersperse(sep, xs[1..]);
      PrependAllIsSepThenIntersperse(sep, xs[1..]);
      assert PrependAll(sep, xs) == [sep, xs[0]] + ([sep] + t);
      Regroup(sep, xs[0], t);
    }
  }

  /** Moving one separator across a concatenation. */
  lemma Regroup<A>(sep: A, x: A, t: seq<A>)
    ensures [sep, x] + ([sep] + t) == [sep] + ([x, sep] + t)
  {
  }

  // ---------------------------------------------------------------------
  // slide
  // ---------------------------------------------------------------------

  /** Every window of exactly `k` consecutive elements, in order; a sequence
      shorter than `k` has no window. */
  function Slide<A>(k: nat, xs: seq<A>): (r: seq<seq<A>>)
    requires k >= 1
    ensures |r| == if |xs| < k then 0 else |xs| - k + 1
    ensures forall i :: 0 <= i < |r| ==> r[i] == xs[i..i + k]
    decreases |xs|
  {
    if |xs| < k then [] else [xs[..k]] + Slide(k, xs[1..])
  }

  // ---------------------------------------------------------------------
  // magnetizeBy
  // ---------------------------------------------------------------------

  /** Length of the leading run of `xs` in which every adjacent pair
      satisfies `p`. */
  function RunLength<A>(p: (A, A) -> bool, xs: seq<A>): (n: nat)
    requires |xs| > 0
    ensures 1 <= n <= |xs|
    ensures Linked(p, xs[..n])
    ensures n < |xs| ==> !p(xs[n - 1], xs[n])
    decreases |xs|
  {
    if |xs| == 1 || !p(xs[0], xs[1]) then 1 else 1 + RunLength(p, xs[1..])
  }

  /** `groups` are the maximal runs of `xs`: they concatenate back to `xs`,
      none is empty, inside a group every adjacent pair satisfies
      `p(previous, next)`, and the pair across a group boundary does not. */
  ghost predicate Runs<A>(p: (A, A) -> bool, xs: seq<A>, groups: seq<seq<A>>) {
    && Flatten(groups) == xs
    && (forall j :: 0 <= j < |groups| ==> |groups[j]| > 0 && Linked(p, groups[j]))
    && (forall j :: 0 <= j < |groups| - 1 ==> !p(groups[j][|groups[j]| - 1], groups[j + 1][0]))
  }

  /** Splits `xs` into its maximal runs. */
  function MagnetizeBy<A>(p: (A, A) -> bool, xs: seq<A>): (groups: seq<seq<A>>)
    ensures Runs(p, xs, groups)
    ensures |groups| == 0 <==> |xs| == 0
    decreases |xs|
  {
    if |xs| == 0 then []
    else
      var n := RunLength(p, xs);
      var rest := MagnetizeBy(p, xs[n..]);
      var groups := [xs[..n]] + rest;
      MagnetizeStep(p, xs, n, rest, groups);
      groups
  }

  /** MagnetizeBy of a non-empty sequence is its leading run followed by
      the runs of what is left. */
  lemma MagnetizeByUnfold<A>(p: (A, A) -> bool, xs: seq<A>, n: nat, first: seq<A>, more: seq<seq<A>>)
    requires |xs| > 0 && n == RunLength(p, xs)
    requires first == xs[..n] && more == MagnetizeBy(p, xs[n..])
    ensures MagnetizeBy(p, xs) == [first] + more
  {
  }

  /** One step of MagnetizeBy: a maximal leading run followed by the runs of
      the remainder are the runs of the whole. */
  lemma MagnetizeStep<A>(p: (A, A) -> bool, xs: seq<A>, n: nat, rest: seq<seq<A>>, groups: seq<seq<A>>)
    requires 1 <= n <= |xs| && groups == [xs[..n]] + rest
    requires Linked(p, xs[..n]) && (n < |xs| ==> !p(xs[n - 1], xs[n]))
    requires Runs(p, xs[n..], rest) && (|rest| == 0 <==> n == |xs|)
    ensures Runs(p, xs, groups)
  {
    assert groups[1..] == rest;
    assert xs[..n] + xs[n..] == xs;
    if |rest| > 0 {
      assert Flatten(rest) == rest[0] + Flatten(rest[1..]);
      assert rest[0][0] == xs[n];
    }
    forall j | 0 <= j < |groups| - 1
      ensures !p(groups[j][|groups[j]| - 1], groups[j + 1][0])
    {
      if j > 0 {
        assert groups[j] == rest[j - 1] && groups[j + 1] == rest[j];
      }
    }
  }

  // ---------------------------------------------------------------------
  // partition
  // ---------------------------------------------------------------------

  /** Payloads of the `Left` entries, in order. */
  function Lefts<B, C>(es: seq<Choice<B, C>>): (r: seq<B>)
    ensures forall i :: 0 <= i < |r| ==> Left(r[i]) in es
    ensures forall i :: 0 <= i < |es| && es[i].Left? ==> es[i].left in r
    decreases |es|
  {
    if |es| == 0 then []
    else if es[0].Left? then [es[0].left] + Lefts(es[1..])
    else Lefts(es[1..])
  }

  /** Payloads of the `Right` entries, in order. */
  function Rights<B, C>(es: seq<Choice<B, C>>): (r: seq<C>)
    ensures forall i :: 0 <= i < |r| ==> Right(r[i]) in es
    ensures forall i :: 0 <= i < |es| && es[i].Right? ==> es[i].right in r
    decreases |es|
  {
    if |es| == 0 then []
    else if es[0].Right? then [es[0].right] + Rights(es[1..])
    else Rights(es[1..])
  }

  /** Lefts and Rights distribute over concatenation, so each keeps the
      order of its entries. */
  lemma {:induction false} LeftsRightsConcat<B, C>(a: seq<Choice<B, C>>, b: seq<Choice<B, C>>)
    ensures Lefts(a + b) == Lefts(a) + Lefts(b)
    ensures Rights(a + b) == Rights(a) + Rights(b)
    decreases |a|
  {
    if |a| > 0 {
      assert (a + b)[1..] == a[1..] + b;
      LeftsRightsConcat(a[1..], b);
    } else {
      assert a + b == b;
    }
  }

  /** Every entry is on exactly one side. */
  lemma {:induction false} LeftsRightsCount<B, C>(es: seq<Choice<B, C>>)
    ensures |Lefts(es)| + |Rights(es)| == |es|
    decreases |es|
  {
    if |es| > 0 {
      LeftsRightsCount(es[1..]);
    }
  }

  /** Classifies each element with `f` in one pass; the left side collects
      the `Left` payloads and the right side the `Right` payloads, both in
      the original order. */
  function Partition<A, B, C>(f: A -> Choice<B, C>, xs: seq<A>): (r: (seq<B>, seq<C>))
    ensures r.0 == Lefts(MapSeq(f, xs))
    ensures r.1 == Rights(MapSeq(f, xs))
    decreases |xs|
  {
    if |xs| == 0 then ([], [])
    else
      var rest := Partition(f, xs[1..]);
      assert MapSeq(f, xs) == [f(xs[0])] + MapSeq(f, xs[1..]);
      match f(xs[0])
      case Left(b) => ([b] + rest.0, rest.1)
      case Right(c) => (rest.0, [c] + rest.1)
  }

  // ---------------------------------------------------------------------
  // tails / inits
  // ---------------------------------------------------------------------

  /** Every suffix, longest first, ending with the empty one. */
  function Tails<A>(xs: seq<A>): (r: seq<seq<A>>)
    ensures |r| == |xs| + 1
    ensures forall i :: 0 <= i < |r| ==> r[i] == xs[i..]
    decreases |xs|
  {
    if |xs| == 0 then [[]] else [xs] + Tails(xs[1..])
  }

  /** Every prefix, shortest (empty) first, ending with `xs` itself. */
  function Inits<A>(xs: seq<A>): (r: seq<seq<A>>)
    ensures |r| == |xs| + 1
    ensures forall i :: 0 <= i < |r| ==> r[i] == xs[..i]
    decreases |xs|
  {
    if |xs| == 0 then [[]] else Inits(xs[..|xs| - 1]) + [xs]
  }

  /** The i-th prefix followed by the i-th suffix gives back `xs`. */
  lemma {:induction false} InitsTailsSplit<A>(xs: seq<A>, i: nat)
    requires i <= |xs|
    ensures Inits(xs)[i] + Tails(xs)[i] == xs
  {
    var prefix := Inits(xs)[i];
    var suffix := Tails(xs)[i];
    assert prefix == xs[..i];
    assert suffix == xs[i..];
    assert xs[..i] + xs[i..] == xs;
  }

  // ---------------------------------------------------------------------
  // cartesian product
  // ---------------------------------------------------------------------

  /** `a` paired with every element of `bs`. */
  function PairWith<A, B>(a: A, bs: seq<B>): (r: seq<(A, B)>)
    ensures |r| == |bs|
    ensures forall j :: 0 <= j < |bs| ==> r[j] == (a, bs[j])
  {
    seq(|bs|, j requires 0 <= j < |bs| => (a, bs[j]))
  }

  /** Every pair, the left element varying slowest. */
  function Cross<A, B>(xs: seq<A>, ys: seq<B>): (r: seq<(A, B)>)
    ensures |r| == |xs| * |ys|
    decreases |xs|
  {
    if |xs| == 0 then []
    else
      var rest := Cross(xs[1..], ys);
      assert |xs| * |ys| == |ys| + (|xs| - 1) * |ys|;
      PairWith(xs[0], ys) + rest
  }

  /** Pair (i, j) of the product sits at position i * |ys| + j. */
  lemma {:induction false} CrossAt<A, B>(xs: seq<A>, ys: seq<B>, i: nat, j: nat)
    requires i < |xs| && j < |ys|
    ensures i * |ys| + j < |Cross(xs, ys)|
    ensures Cross(xs, ys)[i * |ys| + j] == (xs[i], ys[j])
    decreases i
  {
    var r := Cross(xs, ys);
    var rest := Cross(xs[1..], ys);
    assert r == PairWith(xs[0], ys) + rest;
    if i == 0 {
      assert r[j] == PairWith(xs[0], ys)[j];
    } else {
      CrossAt(xs[1..], ys, i - 1, j);
      assert (i - 1) * |ys| + |ys| == i * |ys|;
      assert r[i * |ys| + j] == rest[(i - 1) * |ys| + j];
    }
  }

  /** The product is empty exactly when either side is. */
  lemma CrossEmpty<A, B>(xs: seq<A>, ys: seq<B>)
    ensures |Cross(xs, ys)| == 0 <==> |xs| == 0 || |ys| == 0
  {
    if |xs| > 0 && |ys| > 0 {
      assert |xs| * |ys| >= 1 * |ys|;
    }
  }

  // ---------------------------------------------------------------------
  // reverse
  // ---------------------------------------------------------------------

  /** The elements in the opposite order. */
  function Reverse<A>(xs: seq<A>): (r: seq<A>)
    ensures |r| == |xs|
    ensures forall i :: 0 <= i < |xs| ==> r[i] == xs[|xs| - 1 - i]
    decreases |xs|
  {
    if |xs| == 0 then [] else Reverse(xs[1..]) + [xs[0]]
  }

  /** Reversing twice gives back the original. */
  lemma ReverseInvolution<A>(xs: seq<A>)
    ensures Reverse(Reverse(xs)) == xs
  {
  }

  // ---------------------------------------------------------------------
  // distinct
  // ---------------------------------------------------------------------

  /** First occurrences of the elements of `xs` not in `seen`, in order. */
  function DistinctFrom<A(==)>(xs: seq<A>, seen: set<A>): (r: seq<A>)
    ensures NoDup(r)
    ensures forall i :: 0 <= i < |r| ==> r[i] in xs && r[i] !in seen
    ensures forall i :: 0 <= i < |xs| && xs[i] !in seen ==> xs[i] in r
    decreases |xs|
  {
    if |xs| == 0 then []
    else if xs[0] in seen then DistinctFrom(xs[1..], seen)
    else [xs[0]] + DistinctFrom(xs[1..], seen + {xs[0]})
  }

  /** The first occurrence of every element, in order of first occurrence. */
  function Distinct<A(==)>(xs: seq<A>): (r: seq<A>)
    ensures NoDup(r)
    ensures forall i :: 0 <= i < |r| ==> r[i] in xs
    ensures forall i :: 0 <= i < |xs| ==> xs[i] in r
    ensures |xs| > 0 ==> |r| > 0
  {
    var r := DistinctFrom(xs, {});
    assert |xs| > 0 ==> xs[0] in r;
    r
  }

  /** Reference definition built from the back: keep the last element only
      when it did not occur before. */
  function FirstOccurrences<A(==)>(xs: seq<A>): seq<A>
    decreases |xs|
  {
    if |xs| == 0 then []
    else
      var init := xs[..|xs| - 1];
      if xs[|xs| - 1] in init then FirstOccurrences(init)
      else FirstOccurrences(init) + [xs[|xs| - 1]]
  }

  /** Processing one more element at the back of the input. */
  lemma {:induction false} DistinctFromSnoc<A>(xs: seq<A>, x: A, seen: set<A>)
    ensures DistinctFrom(xs + [x], seen)
         == DistinctFrom(xs, seen) + (if x in seen || x in xs then [] else [x])
    decreases |xs|
  {
    if |xs| == 0 {
      assert xs + [x] == [x];
      assert [x][1..] == [];
    } else {
      assert (xs + [x])[1..] == xs[1..] + [x];
      if xs[0] in seen {
        DistinctFromSnoc(xs[1..], x, seen);
      } else {
        DistinctFromSnoc(xs[1..], x, seen + {xs[0]});
        assert x in xs <==> x == xs[0] || x in xs[1..] by {
          assert xs == [xs[0]] + xs[1..];
        }
      }
    }
  }

  /** distinct agrees with the back-recursive reference definition. */
  lemma {:induction false} DistinctIsFirstOccurrences<A>(xs: seq<A>)
    ensures Distinct(xs) == FirstOccurrences(xs)
    decreases |xs|
  {
    if |xs| > 0 {
      var init := xs[..|xs| - 1];
      var x := xs[|xs| - 1];
      assert xs == init + [x];
      DistinctIsFirstOccurrences(init);
      DistinctFromSnoc(init, x, {});
    }
  }

  /** On a sequence without duplicates that avoids `seen`, nothing is dropped. */
  lemma {:induction false} DistinctFromNoDup<A>(xs: seq<A>, seen: set<A>)
    requires NoDup(xs)
    requires forall i :: 0 <= i < |xs| ==> xs[i] !in seen
    ensures DistinctFrom(xs, seen) == xs
    decreases |xs|
  {
    if |xs| > 0 {
      assert forall k :: 0 <= k < |xs[1..]| ==> xs[1..][k] !in seen + {xs[0]} by {
        forall k | 0 <= k < |xs[1..]|
          ensures xs[1..][k] !in seen + {xs[0]}
        {
          assert xs[1..][k] == xs[k + 1];
        }
      }
      DistinctFromNoDup(xs[1..], seen + {xs[0]});
      assert xs == [xs[0]] + xs[1..];
    }
  }

  /** distinct is idempotent. */
  lemma DistinctIdempotent<A>(xs: seq<A>)
    ensures Distinct(Distinct(xs)) == Distinct(xs)
  {
    DistinctFromNoDup(Distinct(xs), {});
  }

  // ---------------------------------------------------------------------
  // folds
  // ---------------------------------------------------------------------

  /** Left fold: `op(...op(op(z, x0), x1)..., xn)`. */
  function FoldLeft<A, B>(op: (B, A) -> B, z: B, xs: seq<A>): B
    decreases |xs|
  {
    if |xs| == 0 then z else FoldLeft(op, op(z, xs[0]), xs[1..])
  }

  /** Folding one more element at the back applies `op` once more. */
  lemma {:induction false} FoldLeftSnoc<A, B>(op: (B, A) -> B, z: B, xs: seq<A>, x: A)
    ensures FoldLeft(op, z, xs + [x]) == op(FoldLeft(op, z, xs), x)
    decreases |xs|
  {
    if |xs| == 0 {
      assert (xs + [x])[1..] == [];
    } else {
      assert (xs + [x])[1..] == xs[1..] + [x];
      FoldLeftSnoc(op, op(z, xs[0]), xs[1..], x);
    }
  }

  /** Left fold seeded with the first element. */
  function ReduceLeft<A>(op: (A, A) -> A, xs: seq<A>): A
    requires |xs| > 0
  {
    FoldLeft(op, xs[0], xs[1..])
  }

  /** Reducing one more element at the back applies `op` once more. */
  lemma {:induction false} ReduceLeftSnoc<A>(op: (A, A) -> A, xs: seq<A>)
    requires |xs| > 0
    ensures |xs| == 1 ==> ReduceLeft(op, xs) == xs[0]
    ensures |xs| > 1 ==> ReduceLeft(op, xs) == op(ReduceLeft(op, xs[..|xs| - 1]), xs[|xs| - 1])
  {
    if |xs| > 1 {
      var ys := xs[..|xs| - 1];
      FoldLeftSnoc(op, xs[0], ys[1..], xs[|xs| - 1]);
      assert ys[1..] + [xs[|xs| - 1]] == xs[1..];
    }
  }

  /** `op` with its arguments swapped. */
  function Flip<A>(op: (A, A) -> A): (A, A) -> A
  {
    (a, b) => op(b, a)
  }

  /** Right reduction the way the library computes it: reverse, then a left
      reduction with the flipped operator. */
  function ReduceRight<A>(op: (A, A) -> A, xs: seq<A>): A
    requires |xs| > 0
  {
    ReduceLeft(Flip(op), Reverse(xs))
  }

  /** Reference right reduction: `op(x0, op(x1, ... op(x(n-2), x(n-1))))`. */
  function FoldRight1<A>(op: (A, A) -> A, xs: seq<A>): A
    requires |xs| > 0
    decreases |xs|
  {
    if |xs| == 1 then xs[0] else op(xs[0], FoldRight1(op, xs[1..]))
  }

  /** Reversing and reducing from the left with the flipped operator is the
      right reduction. */
  lemma {:induction false} ReduceRightIsFoldRight1<A>(op: (A, A) -> A, xs: seq<A>)
    requires |xs| > 0
    ensures ReduceRight(op, xs) == FoldRight1(op, xs)
    decreases |xs|
  {
    if |xs| > 1 {
      var rest := Reverse(xs[1..]);
      assert Reverse(xs) == rest + [xs[0]];
      assert (rest + [xs[0]])[1..] == rest[1..] + [xs[0]];
      FoldLeftSnoc(Flip(op), rest[0], rest[1..], xs[0]);
      ReduceRightIsFoldRight1(op, xs[1..]);
    }
  }

  // ---------------------------------------------------------------------
  // init / last
  // ---------------------------------------------------------------------

  /** The last element, if any. */
  function MaybeLast<A>(xs: seq<A>): (r: Maybe<A>)
    ensures r.Just? <==> |xs| > 0
  {
    if |xs| == 0 then Nothing else Just(xs[|xs| - 1])
  }

  /** Every element but the last; empty for an empty input. */
  function Init<A>(xs: seq<A>): (r: seq<A>)
    ensures |xs| > 0 ==> |r| == |xs| - 1
    ensures |xs| == 0 ==> r == []
  {
    if |xs| == 0 then [] else xs[..|xs| - 1]
  }

  /** init followed by last gives back a non-empty sequence. */
  lemma InitLast<A>(xs: seq<A>)
    requires |xs| > 0
    ensures Init(xs) + [MaybeLast(xs).value] == xs
  {
  }

  // ---------------------------------------------------------------------
  // filter / find
  // ---------------------------------------------------------------------

  /** The elements satisfying `p`, in order. */
  function Filter<A>(p: A -> bool, xs: seq<A>): (r: seq<A>)
    ensures |r| <= |xs|
    ensures forall i :: 0 <= i < |r| ==> p(r[i])
    ensures forall i :: 0 <= i < |xs| && p(xs[i]) ==> xs[i] in r
    ensures forall x :: x in r ==> x in xs
    decreases |xs|
  {
    if |xs| == 0 then []
    else
      var rest := Filter(p, xs[1..]);
      assert forall i :: 1 <= i < |xs| ==> xs[i] == xs[1..][i - 1];
      (if p(xs[0]) then [xs[0]] else []) + rest
  }

  /** Filtering distributes over concatenation, so the kept elements keep
      their relative order. */
  lemma {:induction false} FilterConcat<A>(p: A -> bool, a: seq<A>, b: seq<A>)
    ensures Filter(p, a + b) == Filter(p, a) + Filter(p, b)
    decreases |a|
  {
    if |a| > 0 {
      assert (a + b)[1..] == a[1..] + b;
      FilterConcat(p, a[1..], b);
    } else {
      assert a + b == b;
    }
  }

  /** filter keeps every occurrence of a satisfying value and none of any
      other value. */
  lemma {:induction false} FilterCount<A>(p: A -> bool, xs: seq<A>, v: A)
    ensures multiset(Filter(p, xs))[v] == if p(v) then multiset(xs)[v] else 0
    decreases |xs|
  {
    if |xs| > 0 {
      FilterCount(p, xs[1..], v);
      assert xs == [xs[0]] + xs[1..];
    }
  }

  /** FilterConcat at every split point: the satisfying elements before a
      position all come before those after it. */
  lemma FilterSplits<A>(p: A -> bool, xs: seq<A>)
    ensures forall k :: 0 <= k <= |xs| ==> Filter(p, xs) == Filter(p, xs[..k]) + Filter(p, xs[k..])
  {
    forall k | 0 <= k <= |xs|
      ensures Filter(p, xs) == Filter(p, xs[..k]) + Filter(p, xs[k..])
    {
      assert xs[..k] + xs[k..] == xs;
      FilterConcat(p, xs[..k], xs[k..]);
    }
  }

  /** FilterCount at every element of the input: each satisfying element
      keeps all of its occurrences, and nothing else is kept. */
  lemma FilterCountAll<A>(p: A -> bool, xs: seq<A>)
    ensures forall i :: 0 <= i < |xs| ==>
              multiset(Filter(p, xs))[xs[i]] == if p(xs[i]) then multiset(xs)[xs[i]] else 0
  {
    forall i | 0 <= i < |xs|
      ensures multiset(Filter(p, xs))[xs[i]] == if p(xs[i]) then multiset(xs)[xs[i]] else 0
    {
      FilterCount(p, xs, xs[i]);
    }
  }

  /** A single element is kept exactly when it satisfies `p`. */
  lemma FilterSingleton<A>(p: A -> bool, x: A)
    ensures Filter(p, [x]) == if p(x) then [x] else []
  {
    assert [x][1..] == [];
  }

  /** The first element satisfying `p`, if any. */
  function Find<A>(p: A -> bool, xs: seq<A>): (r: Maybe<A>)
    ensures r.Nothing? <==> forall i :: 0 <= i < |xs| ==> !p(xs[i])
    ensures r.Just? ==> r.value in xs && p(r.value)
    decreases |xs|
  {
    if |xs| == 0 then Nothing
    else if p(xs[0]) then Just(xs[0])
    else
      assert forall i :: 1 <= i < |xs| ==> xs[i] == xs[1..][i - 1];
      Find(p, xs[1..])
  }

  /** find is the head of filter. */
  lemma {:induction false} FindIsHeadOfFilter<A>(p: A -> bool, xs: seq<A>)
    ensures Find(p, xs) == if |Filter(p, xs)| == 0 then Nothing else Just(Filter(p, xs)[0])
    decreases |xs|
  {
    if |xs| > 0 && !p(xs[0]) {
      FindIsHeadOfFilter(p, xs[1..]);
      assert Filter(p, xs) == Filter(p, xs[1..]);
    }
  }

  // ---------------------------------------------------------------------
  // takeWhile / dropWhile / span
  // ---------------------------------------------------------------------

  /** The longest prefix whose elements all satisfy `p`. */
  function TakeWhile<A>(p: A -> bool, xs: seq<A>): (r: seq<A>)
    ensures |r| <= |xs| && r == xs[..|r|]
    ensures forall i :: 0 <= i < |r| ==> p(r[i])
    ensures |r| < |xs| ==> !p(xs[|r|])
    decreases |xs|
  {
    if |xs| == 0 || !p(xs[0]) then [] else [xs[0]] + TakeWhile(p, xs[1..])
  }

  /** What is left after removing the longest prefix satisfying `p`. */
  function DropWhile<A>(p: A -> bool, xs: seq<A>): (r: seq<A>)
    ensures |r| <= |xs| && r == xs[|xs| - |r|..]
    ensures forall i :: 0 <= i < |xs| - |r| ==> p(xs[i])
    ensures |r| > 0 ==> !p(r[0])
    decreases |xs|
  {
    if |xs| == 0 || !p(xs[0]) then xs
    else
      var r := DropWhile(p, xs[1..]);
      assert xs[1..][|xs[1..]| - |r|..] == xs[|xs| - |r|..];
      assert forall i :: 1 <= i < |xs| - |r| ==> xs[i] == xs[1..][i - 1];
      r
  }

  /** takeWhile and dropWhile together, as span computes them. */
  function Span<A>(p: A -> bool, xs: seq<A>): (r: (seq<A>, seq<A>))
  {
    (TakeWhile(p, xs), DropWhile(p, xs))
  }

  /** The two halves of span concatenate back to the input, the first holds
      only elements satisfying `p`, and the second starts with one that does
      not. */
  lemma SpanSplits<A>(p: A -> bool, xs: seq<A>)
    ensures Span(p, xs).0 + Span(p, xs).1 == xs
    ensures forall i :: 0 <= i < |Span(p, xs).0| ==> p(Span(p, xs).0[i])
    ensures |Span(p, xs).1| > 0 ==> !p(Span(p, xs).1[0])
  {
    var t := TakeWhile(p, xs);
    var d := DropWhile(p, xs);
    assert |t| < |xs| ==> !p(xs[|t|]);
    assert |d| > 0 ==> d[0] == xs[|xs| - |d|] && !p(xs[|xs| - |d|]);
    assert |t| + |d| == |xs|;
    assert t + d == xs[..|t|] + xs[|t|..];
  }
}
