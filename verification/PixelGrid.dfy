/**
  Pixels of an image kept in a flat row-major buffer (the IDX macro of
  blob_detect.cpp), the 8-neighbourhood, and connectivity through active
  interior pixels.
 */
module PixelGrid {
  import CInt

  /** A greyscale image of `w` columns and `h` rows, stored row by row. */
  datatype Image = Image(w: int, h: int, px: seq<int>)

  /** IDX(R, C) */
  function Idx(w: int, row: int, col: int): int {
    row * w + col
  }

  /** The row of a flat index; `p / w`, see QuotientAndRemainder. */
  function Row(w: int, p: int): int
    requires w >= 1
    decreases p
  {
    if p < w then 0 else 1 + Row(w, p - w)
  }

  /** The column of a flat index; `p % w`, see QuotientAndRemainder. */
  function Col(w: int, p: int): int
    requires w >= 1
    decreases p
  {
    if p < w then p else Col(w, p - w)
  }

  /** A pixel that is not on the one-pixel border of the image. */
  predicate Interior(w: int, h: int, p: int)
    requires w >= 1
  {
    1 <= Row(w, p) < h - 1 && 1 <= Col(w, p) < w - 1
  }

  ghost predicate Active(I: Image, p: int)
    requires I.w >= 1
  {
    0 <= p < |I.px| && Interior(I.w, I.h, p) && I.px[p] > 0
  }

  lemma InteriorOf(I: Image, p: int)
    requires I.w >= 1 && Active(I, p)
    ensures 0 <= p < |I.px| && Interior(I.w, I.h, p) && I.px[p] > 0
  {
  }

  /** `p` and `q` are distinct and at most one row and one column apart. */
  predicate Adjacent(w: int, p: int, q: int)
    requires w >= 1
  {
    p != q && CInt.Abs(Row(w, p) - Row(w, q)) <= 1 && CInt.Abs(Col(w, p) - Col(w, q)) <= 1
  }

  /** The coordinates of a flat index are the row and column it was made from. */
  lemma {:induction false} Coordinates(w: int, row: int, col: int)
    requires 0 <= col < w && 0 <= row
    ensures Idx(w, row, col) >= 0
    ensures Row(w, Idx(w, row, col)) == row && Col(w, Idx(w, row, col)) == col
  {
    if row > 0 {
      assert Idx(w, row, col) == Idx(w, row - 1, col) + w;
      Coordinates(w, row - 1, col);
    }
  }

  /** Every flat index is the index of its coordinates. */
  lemma {:induction false} FromCoordinates(w: int, p: int)
    requires w >= 1 && p >= 0
    ensures p == Idx(w, Row(w, p), Col(w, p)) && 0 <= Col(w, p) < w && 0 <= Row(w, p)
    decreases p
  {
    if p >= w {
      FromCoordinates(w, p - w);
      var r := Row(w, p - w);
      assert (r + 1) * w == r * w + w;
    }
  }

  lemma QuotientAndRemainder(w: int, p: int)
    requires w >= 1 && p >= 0
    ensures Row(w, p) == p / w && Col(w, p) == p % w
  {
    FromCoordinates(w, p);
    var d := Row(w, p) - p / w;
    assert d * w == p % w - Col(w, p);
    assert -w < d * w < w;
    assert d == 0 by {
      if d >= 1 { MulAtLeast(w, d); }
      if d <= -1 { MulAtLeast(w, -d); }
    }
  }

  lemma MulAtLeast(w: int, d: int)
    requires w >= 0 && d >= 1
    ensures w * d >= w
  {
    assert w * d == w * (d - 1) + w;
  }

  /** An in-range pixel coordinate is an in-range flat index. */
  lemma IdxInRange(w: int, h: int, row: int, col: int)
    requires 0 <= row < h && 0 <= col < w
    ensures 0 <= Idx(w, row, col) < w * h
  {
    CInt.Grows(row + 1, h, w);
    assert (row + 1) * w == row * w + w;
    CInt.Grows(0, row, w);
  }

  /** The interior in coordinates: all rows and columns but the first and the last. */
  lemma InteriorMeaning(w: int, h: int, row: int, col: int)
    requires 0 <= col < w && 0 <= row
    ensures Interior(w, h, row * w + col) <==> 0 < row < h - 1 && 0 < col < w - 1
  {
    Coordinates(w, row, col);
  }

  /** Moving one row up. */
  lemma RowAbove(w: int, p: int)
    requires w >= 1 && p >= w
    ensures Row(w, p - w) == Row(w, p) - 1 && Col(w, p - w) == Col(w, p)
  {
  }

  /** Moving `d` columns sideways within a row. */
  lemma {:induction false} Sideways(w: int, p: int, d: int)
    requires w >= 1 && p >= 0 && 0 <= Col(w, p) + d < w
    ensures p + d >= 0 && Row(w, p + d) == Row(w, p) && Col(w, p + d) == Col(w, p) + d
    decreases p
  {
    if p >= w {
      Sideways(w, p - w, d);
    }
  }

  /** The four neighbours of an interior pixel that the raster scan visits before it:
      above left, above, above right, left. */
  lemma EarlierNeighbours(w: int, h: int, p: int)
    requires w >= 1 && p >= 0 && Interior(w, h, p)
    ensures w >= 3 && 0 <= p - w - 1
    ensures Adjacent(w, p - w - 1, p) && Adjacent(w, p - w, p)
    ensures Adjacent(w, p - w + 1, p) && Adjacent(w, p - 1, p)
  {
    RowAbove(w, p);
    Sideways(w, p - w, -1);
    Sideways(w, p - w, 1);
    Sideways(w, p, -1);
  }

  lemma ThirdRow(w: int, q: int)
    requires w >= 1 && q >= 2 * w
    ensures Row(w, q) >= 2
  {
    FromCoordinates(w, q - 2 * w);
    assert Row(w, q) == 1 + Row(w, q - w);
  }

  /** Conversely, an earlier adjacent pixel is one of those four. */
  lemma {:induction false} EarlierAdjacentIsNeighbour(w: int, p: int, q: int)
    requires w >= 1 && 0 <= p < q && Adjacent(w, p, q)
    ensures p == q - w - 1 || p == q - w || p == q - w + 1 || p == q - 1
    decreases p
  {
    if p >= w {
      EarlierAdjacentIsNeighbour(w, p - w, q - w);
    } else if q >= 2 * w {
      ThirdRow(w, q);
    } else if q >= w {
      assert Row(w, q - w) == 0 && Col(w, q - w) == q - w;
    }
  }

  // ----- connectivity -----

  /** A nonempty path of active pixels, each adjacent to the one before it. */
  ghost predicate IsPath(I: Image, path: seq<int>)
    requires I.w >= 1
  {
    && |path| > 0
    && (forall i :: 0 <= i < |path| ==> Active(I, path[i]))
    && (forall i :: 0 <= i < |path| - 1 ==> Adjacent(I.w, path[i], path[i + 1]))
  }

  ghost predicate Joins(I: Image, path: seq<int>, p: int, q: int)
    requires I.w >= 1
  {
    IsPath(I, path) && path[0] == p && path[|path| - 1] == q
  }

  /** `p` and `q` are joined by an 8-connected path of active interior pixels. */
  ghost predicate Connected(I: Image, p: int, q: int)
    requires I.w >= 1
  {
    exists path :: Joins(I, path, p, q)
  }

  lemma ConnectedSelf(I: Image, p: int)
    requires I.w >= 1 && Active(I, p)
    ensures Connected(I, p, p)
  {
    assert Joins(I, [p], p, p);
  }

  lemma ConnectedAdjacent(I: Image, p: int, q: int)
    requires I.w >= 1 && Active(I, p) && Active(I, q) && Adjacent(I.w, p, q)
    ensures Connected(I, p, q) && Connected(I, q, p)
  {
    assert Joins(I, [p, q], p, q);
    assert Joins(I, [q, p], q, p);
  }

  lemma ConnectedSymmetric(I: Image, p: int, q: int)
    requires I.w >= 1 && Connected(I, p, q)
    ensures Connected(I, q, p)
  {
    var path :| Joins(I, path, p, q);
    var back := seq(|path|, i requires 0 <= i < |path| => path[|path| - 1 - i]);
    assert Joins(I, back, q, p);
  }

  lemma ConnectedTransitive(I: Image, p: int, q: int, r: int)
    requires I.w >= 1 && Connected(I, p, q) && Connected(I, q, r)
    ensures Connected(I, p, r)
  {
    var a :| Joins(I, a, p, q);
    var b :| Joins(I, b, q, r);
    var ab := a + b[1..];
    forall i | 0 <= i < |ab| - 1
      ensures Adjacent(I.w, ab[i], ab[i + 1])
    {
      if i >= |a| - 1 {
        assert ab[i] == b[i - (|a| - 1)] && ab[i + 1] == b[i + 1 - (|a| - 1)];
      }
    }
    assert Joins(I, ab, p, r);
  }
}
