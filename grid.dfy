/** The order in which a nested `for (i ...) for (j ...)` loop visits a
    rectangle: row by row (i-major), j ascending inside each row. Both
    createTileBoundsAtLevel (src/TileData.ts) and the tile loops of
    src/app.ts produce their results in this order. */
module Grid {
  import opened Common

  /** f(i, j0), ..., f(i, j - 1). */
  function Row<T>(f: (int, int) -> T, i: int, j0: int, j: int): (r: seq<T>)
    ensures |r| == if j <= j0 then 0 else j - j0
    decreases j - j0
  {
    if j <= j0 then [] else Row(f, i, j0, j - 1) + [f(i, j - 1)]
  }

  /** Rows i0 .. i - 1, each over columns j0 .. j1 - 1. */
  function Rows<T>(f: (int, int) -> T, i0: int, i: int, j0: int, j1: int): seq<T>
    decreases i - i0
  {
    if i <= i0 then [] else Rows(f, i0, i - 1, j0, j1) + Row(f, i - 1, j0, j1)
  }

  lemma {:induction false} RowMembers<T>(f: (int, int) -> T, i: int, j0: int, j: int, x: T)
    ensures x in Row(f, i, j0, j) <==> exists b :: j0 <= b < j && x == f(i, b)
    decreases j - j0
  {
    if j > j0 {
      RowMembers(f, i, j0, j - 1, x);
    }
  }

  /** A nested loop visits exactly the cells of its rectangle. */
  lemma {:induction false} RowsMembers<T>(f: (int, int) -> T, i0: int, i: int, j0: int, j1: int, x: T)
    ensures x in Rows(f, i0, i, j0, j1) <==> exists a, b :: i0 <= a < i && j0 <= b < j1 && x == f(a, b)
    decreases i - i0
  {
    if i > i0 {
      RowsMembers(f, i0, i - 1, j0, j1, x);
      RowMembers(f, i - 1, j0, j1, x);
    }
  }

  lemma {:induction false} RowsLength<T>(f: (int, int) -> T, i0: int, i: int, j0: int, j1: int)
    requires i0 <= i && j0 <= j1
    ensures |Rows(f, i0, i, j0, j1)| == (i - i0) * (j1 - j0)
    decreases i - i0
  {
    if i > i0 {
      RowsLength(f, i0, i - 1, j0, j1);
      assert (i - i0) * (j1 - j0) == (i - 1 - i0) * (j1 - j0) + (j1 - j0);
    }
  }

  /** A nested loop's visit is its first row, then the remaining rows. */
  lemma {:induction false} RowsFront<T>(f: (int, int) -> T, i0: int, i: int, j0: int, j1: int)
    requires i0 < i
    ensures Rows(f, i0, i, j0, j1) == Row(f, i0, j0, j1) + Rows(f, i0 + 1, i, j0, j1)
    decreases i - i0
  {
    if i0 + 1 == i {
      assert Rows(f, i0, i, j0, j1) == [] + Row(f, i0, j0, j1);
      assert Row(f, i0, j0, j1) + [] == Row(f, i0, j0, j1);
    } else {
      RowsFront(f, i0, i - 1, j0, j1);
      AppendAssoc(Row(f, i0, j0, j1), Rows(f, i0 + 1, i - 1, j0, j1), Row(f, i - 1, j0, j1));
    }
  }

  ghost predicate Injective<T>(f: (int, int) -> T)
  {
    forall a, b, c, d :: f(a, b) == f(c, d) ==> a == c && b == d
  }

  lemma {:induction false} RowNoDup<T>(f: (int, int) -> T, i: int, j0: int, j: int)
    requires Injective(f)
    ensures NoDup(Row(f, i, j0, j))
    decreases j - j0
  {
    if j > j0 {
      RowNoDup(f, i, j0, j - 1);
      RowMembers(f, i, j0, j - 1, f(i, j - 1));
    }
  }

  /** With an injective cell function no cell is visited twice. */
  lemma {:induction false} RowsNoDup<T>(f: (int, int) -> T, i0: int, i: int, j0: int, j1: int)
    requires Injective(f)
    ensures NoDup(Rows(f, i0, i, j0, j1))
    decreases i - i0
  {
    if i > i0 {
      RowsNoDup(f, i0, i - 1, j0, j1);
      RowNoDup(f, i - 1, j0, j1);
      var a := Rows(f, i0, i - 1, j0, j1);
      var b := Row(f, i - 1, j0, j1);
      forall p, q | 0 <= p < |a| && 0 <= q < |b|
        ensures a[p] != b[q]
      {
        RowsMembers(f, i0, i - 1, j0, j1, a[p]);
        RowMembers(f, i - 1, j0, j1, b[q]);
      }
      ConcatNoDup(a, b);
    }
  }

  lemma ConcatNoDup<T>(a: seq<T>, b: seq<T>)
    requires NoDup(a) && NoDup(b)
    requires forall p, q :: 0 <= p < |a| && 0 <= q < |b| ==> a[p] != b[q]
    ensures NoDup(a + b)
  {
    var c := a + b;
    forall p, q | 0 <= p < q < |c|
      ensures c[p] != c[q]
    {
      if q < |a| {
        assert c[p] == a[p] && c[q] == a[q];
      } else if p >= |a| {
        assert c[p] == b[p - |a|] && c[q] == b[q - |a|];
      } else {
        assert c[p] == a[p] && c[q] == b[q - |a|];
      }
    }
  }

  /** The first and the last cell a nested loop visits. */
  lemma {:induction false} RowsEnds<T>(f: (int, int) -> T, i0: int, i1: int, j0: int, j1: int)
    requires i0 < i1 && j0 < j1
    ensures Rows(f, i0, i1, j0, j1)[0] == f(i0, j0)
    ensures var r := Rows(f, i0, i1, j0, j1); r[|r| - 1] == f(i1 - 1, j1 - 1)
    decreases i1 - i0
  {
    if i1 - 1 > i0 {
      RowsEnds(f, i0, i1 - 1, j0, j1);
      RowsLength(f, i0, i1 - 1, j0, j1);
      assert 0 < (i1 - 1 - i0) * (j1 - j0) by {
        PositiveProduct(i1 - 1 - i0, j1 - j0);
      }
    }
    RowFirst(f, i0, j0, j1);
  }

  lemma PositiveProduct(a: int, b: int)
    requires a > 0 && b > 0
    ensures a * b > 0
  {
  }

  lemma {:induction false} RowFirst<T>(f: (int, int) -> T, i: int, j0: int, j: int)
    requires j0 < j
    ensures Row(f, i, j0, j)[0] == f(i, j0)
    decreases j - j0
  {
    if j - 1 > j0 {
      RowFirst(f, i, j0, j - 1);
    }
  }
}
