/** Element streams: what iterating an Iterable yields. A stream either ends
    after finitely many elements or goes on forever; the infinite case is a
    function from position to element. Laziness and side effects of
    iteration are not modelled, only the sequence of elements produced. */
module Streams {
  import Seqs

  datatype Stream<A> = Fin(elems: seq<A>) | Inf(at: nat -> A)

  /** The stream yields no element at all. */
  predicate IsEmpty<A>(s: Stream<A>) {
    s.Fin? && |s.elems| == 0
  }

  /** The stream yields an element at position `i`. */
  predicate Defined<A>(s: Stream<A>, i: nat) {
    s.Inf? || i < |s.elems|
  }

  /** The element at position `i`. */
  function At<A>(s: Stream<A>, i: nat): A
    requires Defined(s, i)
  {
    if s.Fin? then s.elems[i] else s.at(i)
  }

  /** Two streams yield the same elements. Infinite streams are compared
      position by position, since functions are not compared by value. */
  ghost predicate Equiv<A>(s: Stream<A>, t: Stream<A>) {
    && s.Fin? == t.Fin?
    && (s.Fin? ==> s.elems == t.elems)
    && (s.Inf? ==> forall i: nat :: s.at(i) == t.at(i))
  }

  /** Equiv is an equivalence: reflexive, symmetric and transitive. */
  lemma {:induction false} EquivIsEquivalence<A>(s: Stream<A>, t: Stream<A>, u: Stream<A>)
    ensures Equiv(s, s)
    ensures Equiv(s, t) ==> Equiv(t, s)
    ensures Equiv(s, t) && Equiv(t, u) ==> Equiv(s, u)
  {
  }

  /** Equivalent streams are defined at, and yield, the same positions. */
  lemma {:induction false} EquivPointwise<A>(s: Stream<A>, t: Stream<A>)
    ensures Equiv(s, t) <==>
              forall i: nat :: Defined(s, i) == Defined(t, i) && (Defined(s, i) ==> At(s, i) == At(t, i))
  {
    if forall i: nat :: Defined(s, i) == Defined(t, i) && (Defined(s, i) ==> At(s, i) == At(t, i)) {
      assert s.Fin? == t.Fin? by {
        var n := if s.Fin? then |s.elems| else if t.Fin? then |t.elems| else 0;
        assert Defined(s, n) == Defined(t, n);
      }
      if s.Fin? {
        assert Defined(s, |t.elems|) == Defined(t, |t.elems|);
        assert Defined(s, |s.elems|) == Defined(t, |s.elems|);
        assert forall i :: 0 <= i < |s.elems| ==> s.elems[i] == At(s, i) == At(t, i) == t.elems[i];
      } else {
        assert forall i: nat :: s.at(i) == At(s, i) == At(t, i) == t.at(i);
      }
    }
  }

  /** The first element and the rest, when there is a first element. */
  function Uncons<A>(s: Stream<A>): (r: (A, Stream<A>))
    requires !IsEmpty(s)
    ensures r.0 == At(s, 0)
    ensures r.1 == Drop(1, s)
  {
    (At(s, 0), Drop(1, s))
  }

  /** A finite stream of finite streams. */
  function FinEach<A>(gs: seq<seq<A>>): (r: Stream<Stream<A>>)
    ensures r.Fin? && |r.elems| == |gs|
    ensures forall i :: 0 <= i < |gs| ==> r.elems[i] == Fin(gs[i])
  {
    Fin(Seqs.MapSeq((g: seq<A>) => Fin(g), gs))
  }

  // ---------------------------------------------------------------------
  // Building streams
  // ---------------------------------------------------------------------

  /** `s` followed by `e`. An infinite stream never reaches `e`. */
  function Snoc<A>(s: Stream<A>, e: A): (r: Stream<A>)
    ensures r.Fin? == s.Fin? && !IsEmpty(r)
    ensures s.Fin? ==> |r.elems| == |s.elems| + 1 && r.elems[|s.elems|] == e
    ensures forall i: nat | Defined(s, i) :: Defined(r, i) && At(r, i) == At(s, i)
  {
    match s
    case Fin(xs) => Fin(xs + [e])
    case Inf(_) => s
  }

  /** `e` followed by `s`. */
  function Cons<A>(e: A, s: Stream<A>): (r: Stream<A>)
    ensures r.Fin? == s.Fin? && !IsEmpty(r)
    ensures At(r, 0) == e
    ensures s.Fin? ==> |r.elems| == |s.elems| + 1
    ensures forall i: nat | Defined(s, i) :: Defined(r, i + 1) && At(r, i + 1) == At(s, i)
  {
    match s
    case Fin(xs) => Fin([e] + xs)
    case Inf(f) => Inf((i: nat) => if i == 0 then e else f(i - 1))
  }

  /** The tail of `e` consed onto `s` is `s`. */
  lemma {:induction false} ConsDrop<A>(e: A, s: Stream<A>)
    ensures Equiv(Drop(1, Cons(e, s)), s)
  {
    var d := Drop(1, Cons(e, s));
    if s.Fin? {
      assert d.elems == ([e] + s.elems)[1..] == s.elems;
    } else {
      forall i: nat
        ensures d.at(i) == s.at(i)
      {
        assert At(d, i) == At(Cons(e, s), 1 + i) == At(s, i);
      }
    }
  }

  /** Splitting a non-empty stream into head and tail and consing them back
      gives an equivalent stream. */
  lemma {:induction false} ConsUncons<A>(s: Stream<A>)
    requires !IsEmpty(s)
    ensures Equiv(Cons(Uncons(s).0, Uncons(s).1), s)
  {
    var r := Cons(Uncons(s).0, Uncons(s).1);
    if s.Fin? {
      assert r.elems == [s.elems[0]] + s.elems[1..];
      assert s.elems == [s.elems[0]] + s.elems[1..];
    } else {
      forall i: nat
        ensures r.at(i) == s.at(i)
      {
        if i > 0 {
          assert At(r, (i - 1) + 1) == At(Drop(1, s), i - 1);
        }
      }
    }
  }

  /** `s` followed by `t`; an infinite `s` hides `t`. */
  function Concat<A>(s: Stream<A>, t: Stream<A>): (r: Stream<A>)
    ensures r.Fin? <==> s.Fin? && t.Fin?
    ensures IsEmpty(r) <==> IsEmpty(s) && IsEmpty(t)
    ensures s.Fin? && t.Fin? ==> r.elems == s.elems + t.elems
    ensures forall i: nat | Defined(s, i) :: Defined(r, i) && At(r, i) == At(s, i)
    ensures s.Fin? ==> forall i: nat | Defined(t, i) ::
              Defined(r, |s.elems| + i) && At(r, |s.elems| + i) == At(t, i)
  {
    match s
    case Inf(_) => s
    case Fin(xs) =>
      match t
      case Fin(ys) => Fin(xs + ys)
      case Inf(g) => Inf((i: nat) => if i < |xs| then xs[i] else g(i - |xs|))
  }

  /** The first `n` elements, or all of them if there are fewer. The result
      is always finite. */
  function Take<A>(n: nat, s: Stream<A>): (r: Stream<A>)
    ensures r.Fin?
    ensures |r.elems| == if s.Fin? && |s.elems| < n then |s.elems| else n
    ensures forall i :: 0 <= i < |r.elems| ==> Defined(s, i) && r.elems[i] == At(s, i)
  {
    match s
    case Fin(xs) => Fin(if |xs| < n then xs else xs[..n])
    case Inf(f) => Fin(seq(n, i requires 0 <= i < n => f(i)))
  }

  /** Equivalent streams have the same prefixes. */
  lemma {:induction false} TakeEquiv<A>(n: nat, s: Stream<A>, t: Stream<A>)
    requires Equiv(s, t)
    ensures Take(n, s) == Take(n, t)
  {
    EquivPointwise(s, t);
    var l := Take(n, s).elems;
    var r := Take(n, t).elems;
    assert |l| == |r|;
    assert forall i :: 0 <= i < |l| ==> l[i] == r[i];
  }

  /** Everything after the first `n` elements. */
  function Drop<A>(n: nat, s: Stream<A>): (r: Stream<A>)
    ensures r.Fin? == s.Fin?
    ensures s.Fin? ==> |r.elems| == if |s.elems| < n then 0 else |s.elems| - n
    ensures forall i: nat :: Defined(r, i) <==> Defined(s, n + i)
    ensures forall i: nat | Defined(r, i) :: At(r, i) == At(s, n + i)
  {
    match s
    case Fin(xs) => Fin(if |xs| < n then [] else xs[n..])
    case Inf(f) => Inf((i: nat) => f(n + i))
  }

  /** take and drop at the same count split a stream in two. */
  lemma {:induction false} TakeDropSplit<A>(n: nat, s: Stream<A>)
    ensures Equiv(Concat(Take(n, s), Drop(n, s)), s)
  {
    var r := Concat(Take(n, s), Drop(n, s));
    if s.Fin? {
      if n <= |s.elems| {
        assert s.elems[..n] + s.elems[n..] == s.elems;
      }
    } else {
      forall i: nat
        ensures r.at(i) == s.at(i)
      {
        if i >= n {
          assert At(r, n + (i - n)) == At(Drop(n, s), i - n);
        }
      }
    }
  }

  /** `f` applied to every element. */
  function Map<A, B>(f: A -> B, s: Stream<A>): (r: Stream<B>)
    ensures r.Fin? == s.Fin?
    ensures s.Fin? ==> |r.elems| == |s.elems|
    ensures forall i: nat :: Defined(r, i) <==> Defined(s, i)
    ensures forall i: nat | Defined(s, i) :: At(r, i) == f(At(s, i))
  {
    match s
    case Fin(xs) => Fin(Seqs.MapSeq(f, xs))
    case Inf(g) => Inf((i: nat) => f(g(i)))
  }

  /** Mapping the identity changes nothing. */
  lemma {:induction false} MapIdentity<A>(s: Stream<A>)
    ensures Equiv(Map(x => x, s), s)
  {
    var r := Map(x => x, s);
    if s.Fin? {
      assert forall i :: 0 <= i < |s.elems| ==> At(r, i) == At(s, i);
    }
  }

  /** Mapping twice is mapping the composition once. */
  lemma {:induction false} MapCompose<A, B, C>(f: A -> B, g: B -> C, s: Stream<A>)
    ensures Equiv(Map(g, Map(f, s)), Map(x => g(f(x)), s))
  {
    var l := Map(g, Map(f, s));
    var r := Map(x => g(f(x)), s);
    if s.Fin? {
      assert forall i :: 0 <= i < |s.elems| ==> At(l, i) == At(r, i);
    }
  }

  /** Mapping equivalent streams gives equivalent streams. */
  lemma {:induction false} MapEquiv<A, B>(f: A -> B, s: Stream<A>, t: Stream<A>)
    requires Equiv(s, t)
    ensures Equiv(Map(f, s), Map(f, t))
  {
    EquivPointwise(s, t);
    EquivPointwise(Map(f, s), Map(f, t));
  }

  /** Mapping a non-empty stream is mapping its head, followed by mapping
      its tail. */
  lemma {:induction false} MapCons<A, B>(f: A -> B, s: Stream<A>)
    requires !IsEmpty(s)
    ensures Equiv(Cons(f(At(s, 0)), Map(f, Drop(1, s))), Map(f, s))
  {
    var l := Cons(f(At(s, 0)), Map(f, Drop(1, s)));
    var r := Map(f, s);
    forall i: nat
      ensures Defined(l, i) == Defined(r, i) && (Defined(l, i) ==> At(l, i) == At(r, i))
    {
      if i > 0 {
        assert Defined(Map(f, Drop(1, s)), i - 1) <==> Defined(s, i);
      }
    }
    EquivPointwise(l, r);
  }

  function Min(a: nat, b: nat): nat {
    if a < b then a else b
  }

  /** Pairs up the two streams position by position; the result ends with
      the shorter one. */
  function ZipWith<A, B, C>(fn: (A, B) -> C, s: Stream<A>, t: Stream<B>): (r: Stream<C>)
    ensures r.Fin? <==> s.Fin? || t.Fin?
    ensures s.Fin? && t.Fin? ==> |r.elems| == Min(|s.elems|, |t.elems|)
    ensures forall i: nat :: Defined(r, i) <==> Defined(s, i) && Defined(t, i)
    ensures forall i: nat | Defined(r, i) :: At(r, i) == fn(At(s, i), At(t, i))
    ensures IsEmpty(r) <==> IsEmpty(s) || IsEmpty(t)
  {
    match s
    case Fin(xs) =>
      (match t
       case Fin(ys) =>
         var n := Min(|xs|, |ys|);
         Fin(seq(n, i requires 0 <= i < n => fn(xs[i], ys[i])))
       case Inf(g) => Fin(seq(|xs|, i requires 0 <= i < |xs| => fn(xs[i], g(i)))))
    case Inf(f) =>
      match t
      case Fin(ys) => Fin(seq(|ys|, i requires 0 <= i < |ys| => fn(f(i), ys[i])))
      case Inf(g) => Inf((i: nat) => fn(f(i), g(i)))
  }

  /** Zipping two non-empty streams pairs their heads, followed by the zip
      of their tails. */
  lemma {:induction false} ZipWithCons<A, B, C>(fn: (A, B) -> C, s: Stream<A>, t: Stream<B>)
    requires !IsEmpty(s) && !IsEmpty(t)
    ensures Equiv(Cons(fn(At(s, 0), At(t, 0)), ZipWith(fn, Drop(1, s), Drop(1, t))), ZipWith(fn, s, t))
  {
    var l := Cons(fn(At(s, 0), At(t, 0)), ZipWith(fn, Drop(1, s), Drop(1, t)));
    var r := ZipWith(fn, s, t);
    forall i: nat
      ensures Defined(l, i) == Defined(r, i) && (Defined(l, i) ==> At(l, i) == At(r, i))
    {
      if i > 0 {
        assert Defined(ZipWith(fn, Drop(1, s), Drop(1, t)), i - 1) <==> Defined(s, i) && Defined(t, i);
      }
    }
    EquivPointwise(l, r);
  }

  /** `sep` between every two adjacent elements. */
  function Intersperse<A>(sep: A, s: Stream<A>): (r: Stream<A>)
    ensures r.Fin? == s.Fin? && (IsEmpty(r) <==> IsEmpty(s))
    ensures s.Fin? ==> |r.elems| == if |s.elems| == 0 then 0 else 2 * |s.elems| - 1
    ensures forall i: nat | Defined(r, i) ::
              if i % 2 == 0 then Defined(s, i / 2) && At(r, i) == At(s, i / 2) else At(r, i) == sep
  {
    match s
    case Fin(xs) => Fin(Seqs.Intersperse(sep, xs))
    case Inf(f) => Inf((i: nat) => if i % 2 == 0 then f(i / 2) else sep)
  }

  /** `sep` in front of every element. */
  function PrependAll<A>(sep: A, s: Stream<A>): (r: Stream<A>)
    ensures r.Fin? == s.Fin? && (IsEmpty(r) <==> IsEmpty(s))
    ensures s.Fin? ==> |r.elems| == 2 * |s.elems|
    ensures forall i: nat | Defined(r, i) ::
              if i % 2 == 0 then At(r, i) == sep else Defined(s, i / 2) && At(r, i) == At(s, i / 2)
  {
    match s
    case Fin(xs) => Fin(Seqs.PrependAll(sep, xs))
    case Inf(f) => Inf((i: nat) => if i % 2 == 0 then sep else f(i / 2))
  }

  /** Every window of exactly `k` consecutive elements: window `i` is
      take(k, drop(i, s)). An infinite stream has infinitely many windows. */
  function Slide<A>(k: nat, s: Stream<A>): (r: Stream<seq<A>>)
    requires k >= 1
    ensures r.Fin? == s.Fin?
    ensures forall i: nat :: Defined(r, i) <==> Defined(s, i + k - 1)
    ensures forall i: nat | Defined(r, i) :: |At(r, i)| == k && At(r, i) == Take(k, Drop(i, s)).elems
  {
    match s
    case Fin(xs) =>
      var r := Seqs.Slide(k, xs);
      assert forall i :: 0 <= i < |r| ==> r[i] == Take(k, Drop(i, s)).elems by {
        forall i | 0 <= i < |r|
          ensures r[i] == Take(k, Drop(i, s)).elems
        {
          assert xs[i..][..k] == xs[i..i + k];
        }
      }
      Fin(r)
    case Inf(f) =>
      var r := Inf((i: nat) => seq(k, j requires 0 <= j < k => f(i + j)));
      assert forall i: nat :: At(r, i) == Take(k, Drop(i, s)).elems by {
        forall i: nat
          ensures At(r, i) == Take(k, Drop(i, s)).elems
        {
          var w := Take(k, Drop(i, s)).elems;
          assert forall j :: 0 <= j < k ==> w[j] == f(i + j);
        }
      }
      r
  }

  /** The windows of slide as nested streams. Each is finite and holds
      exactly `k` elements. */
  function Windows<A>(k: nat, s: Stream<A>): (r: Stream<Stream<A>>)
    requires k >= 1
    ensures r.Fin? == s.Fin?
    ensures forall i: nat :: Defined(r, i) <==> Defined(s, i + k - 1)
    ensures forall i: nat | Defined(r, i) :: At(r, i) == Take(k, Drop(i, s))
    ensures AllFinNonEmpty(r)
  {
    Map((w: seq<A>) => Fin(w), Slide(k, s))
  }

  /** Every element of a stream of streams is finite and non-empty. */
  ghost predicate AllFinNonEmpty<A>(ss: Stream<Stream<A>>) {
    forall i: nat | Defined(ss, i) :: At(ss, i).Fin? && !IsEmpty(At(ss, i))
  }

  /** Every element of a stream of streams is finite. */
  ghost predicate AllFin<A>(ss: Stream<Stream<A>>) {
    forall i: nat | Defined(ss, i) :: At(ss, i).Fin?
  }

  /** Every suffix, longest first: suffix `i` is drop(i, s). A finite
      stream also yields the empty suffix; an infinite one has only
      infinite suffixes. */
  function Tails<A>(s: Stream<A>): (r: Stream<Stream<A>>)
    ensures r.Fin? == s.Fin? && !IsEmpty(r)
    ensures s.Fin? ==> |r.elems| == |s.elems| + 1
    ensures forall i: nat | Defined(r, i) :: Equiv(At(r, i), Drop(i, s))
  {
    match s
    case Fin(xs) =>
      var ts := Seqs.Tails(xs);
      Fin(seq(|ts|, i requires 0 <= i < |ts| => Fin(ts[i])))
    case Inf(f) => Inf((i: nat) => Inf((j: nat) => f(i + j)))
  }

  /** The same element forever. */
  function Repeat<A>(e: A): (r: Stream<A>)
    ensures r.Inf? && forall i: nat :: At(r, i) == e
  {
    Inf((i: nat) => e)
  }

  /** Dropping the head of a repetition gives the same repetition. */
  lemma {:induction false} RepeatTail<A>(e: A)
    ensures Equiv(Drop(1, Repeat(e)), Repeat(e))
  {
    var d := Drop(1, Repeat(e));
    assert forall i: nat :: d.at(i) == At(d, i) == e;
  }

  /** Position within the current round when going round a sequence of
      length `n` again and again. */
  function RoundPos(i: nat, n: nat): (r: nat)
    requires n > 0
    ensures r < n
    ensures i < n ==> r == i
    decreases i
  {
    if i < n then i else RoundPos(i - n, n)
  }

  /** The elements of a non-empty `xs`, over and over. */
  function Cycle<A>(xs: seq<A>): (r: Stream<A>)
    requires |xs| > 0
    ensures r.Inf?
    ensures forall i :: 0 <= i < |xs| ==> At(r, i) == xs[i]
    ensures forall i: nat :: At(r, i + |xs|) == At(r, i)
  {
    Inf((i: nat) => xs[RoundPos(i, |xs|)])
  }

  /** Position `q * |xs| + j` of the cycle, in round `q`, holds `xs[j]`:
      element `i` is `xs[i mod |xs|]`. */
  lemma {:induction false} CycleAt<A>(xs: seq<A>, q: nat, j: nat)
    requires j < |xs|
    ensures At(Cycle(xs), q * |xs| + j) == xs[j]
    decreases q
  {
    if q > 0 {
      CycleAt(xs, q - 1, j);
      assert q * |xs| + j == ((q - 1) * |xs| + j) + |xs|;
    }
  }

  /** Taking `k` full rounds of a cycle gives `k` copies of `xs`. */
  lemma {:induction false} CycleTakeRounds<A>(xs: seq<A>, k: nat)
    requires |xs| > 0
    ensures Take(k * |xs|, Cycle(xs)).elems == Seqs.Replicate(xs, k)
    decreases k
  {
    if k > 0 {
      var n := |xs|;
      var c := Cycle(xs);
      CycleTakeRounds(xs, k - 1);
      var whole := Take(k * n, c).elems;
      var rest := Take((k - 1) * n, c).elems;
      assert k * n == n + (k - 1) * n;
      assert whole[..n] == xs;
      assert whole[n..] == rest by {
        forall i | 0 <= i < |rest|
          ensures whole[n + i] == rest[i]
        {
          assert At(c, i + n) == At(c, i);
        }
      }
      assert whole == xs + rest by {
        assert whole == whole[..n] + whole[n..];
      }
    }
  }
}
