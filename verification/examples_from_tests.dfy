/** Concrete instances the library's own tests and doc comments state,
    proved about the model. */
module TestExamples {
  import opened Adt
  import Streams
  import Seqs
  import opened Capabilities
  import opened EnhancedIterables
  import FiniteIterable
  import NonEmptyFiniteIterable

  /** foldLeft of 1..5 from 10 with addition is 25. */
  lemma FoldLeftSumExample()
    ensures FiniteIterable.FoldLeft(Of(1, [2, 3, 4, 5]), (acc: int, a: int) => acc + a, 10) == 25
  {
    var add := (acc: int, a: int) => acc + a;
    var xs := [1, 2, 3, 4, 5];
    assert Of(1, [2, 3, 4, 5]).elems.elems == xs;
    assert xs[..4] == [1, 2, 3, 4];
    assert Seqs.FoldLeft(add, 10, [1, 2, 3, 4]) == 20 by {
      assert [1, 2, 3, 4][1..] == [2, 3, 4];
      assert [2, 3, 4][1..] == [3, 4];
      assert [3, 4][1..] == [4];
      assert [4][1..] == [];
    }
  }

  /** reduceLeft of 1..5 with addition is 15. */
  lemma ReduceLeftSumExample()
    ensures NonEmptyFiniteIterable.ReduceLeft(Of(1, [2, 3, 4, 5]), (a: int, b: int) => a + b) == 15
  {
    var add := (a: int, b: int) => a + b;
    var xs := [1, 2, 3, 4, 5];
    assert Of(1, [2, 3, 4, 5]).elems.elems == xs;
    assert xs[..4] == [1, 2, 3, 4];
    assert Seqs.ReduceLeft(add, [1, 2, 3, 4]) == 10 by {
      assert [1, 2, 3, 4][1..] == [2, 3, 4];
      assert [2, 3, 4][1..] == [3, 4];
      assert [3, 4][1..] == [4];
      assert [4][1..] == [];
    }
  }

  /** slide(2) of 0..3 gives three windows, with no shorter window at the
      end. */
  lemma SlideExample()
    ensures Seqs.Slide(2, [0, 1, 2, 3]) == [[0, 1], [1, 2], [2, 3]]
  {
    var xs := [0, 1, 2, 3];
    assert xs[..2] == [0, 1] && xs[1..] == [1, 2, 3];
    assert [1, 2, 3][..2] == [1, 2] && [1, 2, 3][1..] == [2, 3];
    assert [2, 3][..2] == [2, 3] && [2, 3][1..] == [3];
    assert Seqs.Slide(2, [3]) == [];
    assert Seqs.Slide(2, [2, 3]) == [[2, 3]];
    assert Seqs.Slide(2, [1, 2, 3]) == [[1, 2], [2, 3]];
  }

  /** The documented example: slide(2) of 1..5 gives the four windows of
      two. */
  lemma SlideDocExample()
    ensures Seqs.Slide(2, [1, 2, 3, 4, 5]) == [[1, 2], [2, 3], [3, 4], [4, 5]]
  {
    var xs := [1, 2, 3, 4, 5];
    assert xs[..2] == [1, 2] && xs[1..] == [2, 3, 4, 5];
    assert [2, 3, 4, 5][..2] == [2, 3] && [2, 3, 4, 5][1..] == [3, 4, 5];
    assert [3, 4, 5][..2] == [3, 4] && [3, 4, 5][1..] == [4, 5];
    assert [4, 5][..2] == [4, 5] && [4, 5][1..] == [5];
    assert Seqs.Slide(2, [5]) == [];
    assert Seqs.Slide(2, [4, 5]) == [[4, 5]];
    assert Seqs.Slide(2, [3, 4, 5]) == [[3, 4], [4, 5]];
    assert Seqs.Slide(2, [2, 3, 4, 5]) == [[2, 3], [3, 4], [4, 5]];
  }

  /** magnetizeBy(<=) of [1, 2, 3, 2, 2, 3, 2, 1] gives
      [[1, 2, 3], [2, 2, 3], [2], [1]]. */
  lemma MagnetizeByExample()
    ensures Seqs.MagnetizeBy(Le, [1, 2, 3, 2, 2, 3, 2, 1]) == [[1, 2, 3], [2, 2, 3], [2], [1]]
  {
    MagnetizeBySuffix();
    LeadingRunOfExample();
    Seqs.MagnetizeByUnfold(Le, [1, 2, 3, 2, 2, 3, 2, 1], 3, [1, 2, 3], [[2, 2, 3], [2], [1]]);
  }

  /** The first run of the magnetizeBy example is three elements long. */
  lemma LeadingRunOfExample()
    ensures Seqs.RunLength(Le, [1, 2, 3, 2, 2, 3, 2, 1]) == 3
    ensures [1, 2, 3, 2, 2, 3, 2, 1][..3] == [1, 2, 3]
    ensures [1, 2, 3, 2, 2, 3, 2, 1][3..] == [2, 2, 3, 2, 1]
  {
    var xs := [1, 2, 3, 2, 2, 3, 2, 1];
    var ys := [2, 3, 2, 2, 3, 2, 1];
    var zs := [3, 2, 2, 3, 2, 1];
    assert xs[1..] == ys && ys[1..] == zs;
    assert Seqs.RunLength(Le, zs) == 1;
    assert Seqs.RunLength(Le, ys) == 2;
  }

  /** The `<=` predicate of the test. */
  function Le(a: int, b: int): bool { a <= b }

  /** The runs of the last five elements of the magnetizeBy example. */
  lemma MagnetizeBySuffix()
    ensures Seqs.MagnetizeBy(Le, [2, 2, 3, 2, 1]) == [[2, 2, 3], [2], [1]]
  {
    var ys := [2, 2, 3, 2, 1];
    MagnetizeByLastTwo();
    assert Seqs.RunLength(Le, ys) == 3 by {
      var us := [2, 3, 2, 1];
      var vs := [3, 2, 1];
      assert ys[1..] == us && us[1..] == vs;
      assert Seqs.RunLength(Le, vs) == 1;
      assert Seqs.RunLength(Le, us) == 2;
    }
    assert ys[3..] == [2, 1] && ys[..3] == [2, 2, 3];
    Seqs.MagnetizeByUnfold(Le, ys, 3, [2, 2, 3], [[2], [1]]);
  }

  /** The runs of the last two elements of the magnetizeBy example. */
  lemma MagnetizeByLastTwo()
    ensures Seqs.MagnetizeBy(Le, [2, 1]) == [[2], [1]]
  {
    assert Seqs.RunLength(Le, [1]) == 1;
    assert Seqs.RunLength(Le, [2, 1]) == 1;
    assert [1][1..] == [] && [1][..1] == [1];
    assert Seqs.MagnetizeBy(Le, []) == [];
    Seqs.MagnetizeByUnfold(Le, [1], 1, [1], []);
    assert [2, 1][1..] == [1] && [2, 1][..1] == [2];
    Seqs.MagnetizeByUnfold(Le, [2, 1], 1, [2], [[1]]);
  }

  /** cross of [1, 2, 3] with ["foo", "bar", "baz"]: the nine pairs, the
      left element varying slowest. */
  lemma CrossExample()
    ensures Seqs.Cross([1, 2, 3], ["foo", "bar", "baz"])
         == [(1, "foo"), (1, "bar"), (1, "baz"),
             (2, "foo"), (2, "bar"), (2, "baz"),
             (3, "foo"), (3, "bar"), (3, "baz")]
  {
    var xs := [1, 2, 3];
    var ys := ["foo", "bar", "baz"];
    Seqs.CrossAt(xs, ys, 0, 0);
    Seqs.CrossAt(xs, ys, 0, 1);
    Seqs.CrossAt(xs, ys, 0, 2);
    Seqs.CrossAt(xs, ys, 1, 0);
    Seqs.CrossAt(xs, ys, 1, 1);
    Seqs.CrossAt(xs, ys, 1, 2);
    Seqs.CrossAt(xs, ys, 2, 0);
    Seqs.CrossAt(xs, ys, 2, 1);
    Seqs.CrossAt(xs, ys, 2, 2);
  }
}
