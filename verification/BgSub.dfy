/**
  Background subtraction (bg_sub.cpp:10-28) and its parallel form (bg_sub_par.cpp:16-34, 53-86), in
  which four workers each handle a range of rows of the same result array.
 */
module BgSub {
  import CInt
  import Workers

  const THRESHOLD := 30
  const WORKERS := 4

  /** `(int) sqrt(n)`: the square root rounded down. */
  function ISqrt(n: nat): (r: nat)
    ensures r * r <= n < (r + 1) * (r + 1)
  {
    if n == 0 then 0
    else
      var r := ISqrt(n - 1);
      if (r + 1) * (r + 1) <= n then r + 1 else r
  }

  function Square(a: int): nat {
    CInt.Abs(a) * CInt.Abs(a)
  }

  /** The squared distance of two colour pixels. */
  function SquaredDistance(bg: seq<int>, fr: seq<int>, p: nat): nat
    requires 3 * p + 3 <= |bg| && 3 * p + 3 <= |fr|
  {
    Square(bg[3 * p] - fr[3 * p]) + Square(bg[3 * p + 1] - fr[3 * p + 1]) + Square(bg[3 * p + 2] - fr[3 * p + 2])
  }

  /** The mask that both forms compute: a pixel is foreground when its squared distance is at least 961. */
  function Masked(bg: seq<int>, fr: seq<int>, p: nat): int
    requires 3 * p + 3 <= |bg| && 3 * p + 3 <= |fr|
  {
    if SquaredDistance(bg, fr, p) >= 961 then 255 else 0
  }

  /** Comparing the truncated root with the threshold is comparing the squares: 961 is 31 * 31. */
  lemma ThresholdOnSquares(n: nat)
    ensures ISqrt(n) > THRESHOLD <==> n >= 961
  {
    var r := ISqrt(n);
    if r >= 31 {
      CInt.Scale(31, r, r);
      CInt.Scale(31, r, 31);
    } else {
      if r + 1 >= 1 {
        CInt.Scale(r + 1, 31, r + 1);
        CInt.Scale(r + 1, 31, 31);
      }
    }
  }

  /** How far two pixels are apart in channel `c`. */
  function Difference(bg: seq<int>, fr: seq<int>, p: nat, c: nat): nat
    requires c < 3 && 3 * p + 3 <= |bg| && 3 * p + 3 <= |fr|
  {
    CInt.Abs(bg[3 * p + c] - fr[3 * p + c])
  }

  /** What makes a pixel foreground: being 31 or more apart in any one channel is enough, and so is being 18
      or more apart in all three; 17 or less in all three, or less than 31 in only one, is not. */
  lemma ForegroundMeans(bg: seq<int>, fr: seq<int>, p: nat)
    requires 3 * p + 3 <= |bg| && 3 * p + 3 <= |fr|
    ensures (exists c: nat :: c < 3 && Difference(bg, fr, p, c) >= 31) ==> Masked(bg, fr, p) == 255
    ensures (forall c: nat :: c < 3 ==> Difference(bg, fr, p, c) >= 18) ==> Masked(bg, fr, p) == 255
    ensures (forall c: nat :: c < 3 ==> Difference(bg, fr, p, c) <= 17) ==> Masked(bg, fr, p) == 0
    ensures forall c: nat ::
      (c < 3 && Difference(bg, fr, p, c) < 31
       && forall d: nat :: d < 3 && d != c ==> Difference(bg, fr, p, d) == 0) ==> Masked(bg, fr, p) == 0
  {
    var a, b, c := Difference(bg, fr, p, 0), Difference(bg, fr, p, 1), Difference(bg, fr, p, 2);
    assert SquaredDistance(bg, fr, p) == a * a + b * b + c * c;
    forall n: nat ensures n >= 31 ==> n * n >= 961 { SquareBounds(n); }
    SquareBounds(a);
    SquareBounds(b);
    SquareBounds(c);
  }

  lemma SquareBounds(n: nat)
    ensures n * n >= 0 && (n >= 31 ==> n * n >= 961) && (n < 31 ==> n * n < 961)
    ensures (n >= 18 ==> n * n >= 324) && (n <= 17 ==> n * n <= 289)
  {
    if n >= 31 { CInt.Grows(31, n, n); } else { CInt.Grows(n, 30, n); }
    if n >= 18 { CInt.Grows(18, n, n); } else { CInt.Grows(n, 17, n); }
  }

  /** What one pixel of the two nested inner loops computes. */
  method PixelMask(bg: array<int>, fr: array<int>, p: nat) returns (grey: int)
    requires 3 * p + 3 <= bg.Length && 3 * p + 3 <= fr.Length
    ensures grey == Masked(bg[..], fr[..], p)
  {
    var totalDiff: nat := 0;
    for i := 0 to 3
      invariant totalDiff ==
        (if i > 0 then Square(bg[3 * p] - fr[3 * p]) else 0)
        + (if i > 1 then Square(bg[3 * p + 1] - fr[3 * p + 1]) else 0)
        + (if i > 2 then Square(bg[3 * p + 2] - fr[3 * p + 2]) else 0)
    {
      var diff := bg[3 * p + i] - fr[3 * p + i];
      SquareOf(diff);
      totalDiff := totalDiff + diff * diff;
    }
    ThresholdOnSquares(totalDiff);
    var root := ISqrt(totalDiff);
    grey := if root > THRESHOLD then 255 else 0;
  }

  lemma SquareOf(a: int)
    ensures Square(a) == a * a
  {
    if a < 0 {
      assert (-a) * (-a) == a * a;
    }
  }

  /** The array after the rows from `start` up to `end` have been masked. */
  ghost predicate MaskedRows(bg: seq<int>, fr: seq<int>, was: seq<int>, res: seq<int>, from: int, to: int)
    requires 3 * |was| <= |bg| && 3 * |was| <= |fr|
  {
    && |res| == |was|
    && forall q: nat :: q < |was| ==> res[q] == if from <= q < to then Masked(bg, fr, q) else was[q]
  }

  /** bg_sub_helper: the rows from startRow up to endRow. */
  method BgSubHelper(bg: array<int>, fr: array<int>, res: array<int>, width: nat, height: nat, startRow: nat,
      endRow: int)
    requires res != bg && res != fr && res.Length == width * height
    requires 3 * res.Length <= bg.Length && 3 * res.Length <= fr.Length
    requires endRow <= height
    modifies res
    ensures MaskedRows(bg[..], fr[..], old(res[..]), res[..], startRow * width, endRow * width)
  {
    hide Masked;
    var row: int := startRow;
    RowOrder(startRow, endRow, width);
    while row < endRow
      invariant startRow <= row && (row <= endRow || row == startRow)
      invariant MaskedRows(bg[..], fr[..], old(res[..]), res[..], startRow * width, row * width)
    {
      RowOrder(row + 1, height, width);
      RowOrder(startRow, row, width);
      assert (row + 1) * width == row * width + width && startRow * width >= 0;
      var col := 0;
      while col < width
        invariant 0 <= col <= width
        invariant MaskedRows(bg[..], fr[..], old(res[..]), res[..], startRow * width, row * width + col)
      {
        var p := row * width + col;
        var grey := PixelMask(bg, fr, p);
        res[p] := grey;
        col := col + 1;
      }
      row := row + 1;
    }
    RowOrder(endRow, startRow, width);
  }

  lemma RowOrder(a: int, b: int, width: nat)
    ensures a <= b ==> a * width <= b * width
  {
    assert b * width - a * width == (b - a) * width;
  }

  /** bg_sub: every pixel is masked. */
  method BgSub(bg: array<int>, fr: array<int>, res: array<int>, width: nat, height: nat)
    requires res != bg && res != fr && res.Length == width * height
    requires 3 * res.Length <= bg.Length && 3 * res.Length <= fr.Length
    modifies res
    ensures forall p: nat :: p < res.Length ==> res[p] == Masked(bg[..], fr[..], p)
  {
    hide Masked;
    var row := 0;
    while row < height
      invariant 0 <= row <= height
      invariant MaskedRows(bg[..], fr[..], old(res[..]), res[..], 0, row * width)
    {
      RowOrder(row + 1, height, width);
      assert (row + 1) * width == row * width + width;
      var col := 0;
      while col < width
        invariant 0 <= col <= width
        invariant MaskedRows(bg[..], fr[..], old(res[..]), res[..], 0, row * width + col)
      {
        var p := row * width + col;
        var grey := PixelMask(bg, fr, p);
        res[p] := grey;
        col := col + 1;
      }
      row := row + 1;
    }
  }

  /** The rows of worker k, out of four: the workers' start and end rows as bg_sub_parallel sets them. */
  function StartRow(height: nat, k: nat): nat {
    if k == 0 then 0 else if k == 1 then height / 4 else if k == 2 then height / 2 else height / 4 * 3
  }

  function EndRow(height: nat, k: nat): nat {
    if k == 0 then height / 4 else if k == 1 then height / 2 else if k == 2 then height / 4 * 3 else height
  }

  predicate HasRow(height: nat, k: nat, row: int) {
    StartRow(height, k) <= row < EndRow(height, k)
  }

  /** The four ranges cover all rows and no others, for every height. */
  lemma RangesCover(height: nat, row: int)
    ensures (exists k: nat :: k < WORKERS && HasRow(height, k, row)) <==> 0 <= row < height
  {
    if 0 <= row < height {
      var k: nat :=
        if row < height / 4 then 0
        else if row < height / 2 then 1
        else if row < height / 4 * 3 then 2 else 3;
      assert HasRow(height, k, row);
    }
  }

  ghost predicate RangesDisjoint(height: nat) {
    forall j: nat, k: nat, row: int :: j < k < WORKERS && HasRow(height, j, row) ==> !HasRow(height, k, row)
  }

  /** No two ranges share a row exactly when the height is neither 2 nor 3. */
  lemma DisjointUnlessTiny(height: nat)
    ensures RangesDisjoint(height) <==> height != 2 && height != 3
  {
    if height == 2 || height == 3 {
      assert StartRow(height, 1) == 0 && EndRow(height, 1) == 1 && StartRow(height, 3) == 0;
      assert HasRow(height, 1, 0) && HasRow(height, 3, 0);
    } else {
      var q := height / 4;
      assert height / 2 <= q * 3;
      assert q <= height / 2 && q * 3 <= height;
    }
  }

  predicate InRows(width: nat, height: nat, k: nat, q: nat) {
    StartRow(height, k) * width <= q < EndRow(height, k) * width
  }

  function OnRows(width: nat, height: nat, k: nat): nat -> bool {
    (q: nat) => InRows(width, height, k, q)
  }

  /** The indices worker k writes, in order: its rows are consecutive in the flat array. */
  function WorkerList(width: nat, height: nat, k: nat): seq<nat> {
    Workers.Ascending(width * height, OnRows(width, height, k))
  }

  function Lists(width: nat, height: nat): seq<seq<nat>> {
    [WorkerList(width, height, 0), WorkerList(width, height, 1),
     WorkerList(width, height, 2), WorkerList(width, height, 3)]
  }

  lemma ListMembers(width: nat, height: nat, k: nat, q: nat)
    requires k < WORKERS
    ensures q in Lists(width, height)[k] <==> q < width * height && InRows(width, height, k, q)
  {
    Workers.AscendingMembers(width * height, OnRows(width, height, k));
    assert Lists(width, height)[k] == WorkerList(width, height, k);
  }

  lemma EveryPixelAssigned(width: nat, height: nat, q: nat)
    ensures Workers.Assigned(Lists(width, height), q) <==> q < width * height
  {
    assert |Lists(width, height)| == WORKERS;
    hide Lists;
    forall k | 0 <= k < WORKERS
      ensures q in Lists(width, height)[k] <==> q < width * height && InRows(width, height, k, q)
    {
      ListMembers(width, height, k, q);
    }
    if q < width * height {
      assert StartRow(height, 0) * width == 0;
      var k: nat :=
        if q < EndRow(height, 0) * width then 0
        else if q < EndRow(height, 1) * width then 1
        else if q < EndRow(height, 2) * width then 2 else 3;
      assert InRows(width, height, k, q);
    }
  }

  /** The value every worker writes at an index. */
  function MaskOf(bg: seq<int>, fr: seq<int>): nat -> int {
    (q: nat) => if 3 * q + 3 <= |bg| && 3 * q + 3 <= |fr| then Masked(bg, fr, q) else 0
  }

  /** Parallel background subtraction is deterministic: for every width and height, and every schedule in
      which the workers finish, the result is what the sequential form computes. */
  lemma ParallelIsSequential(bg: seq<int>, fr: seq<int>, was: seq<int>, width: nat, height: nat, schedule: seq<nat>)
    requires |was| == width * height && 3 * |was| <= |bg| && 3 * |was| <= |fr|
    requires forall k :: 0 <= k < WORKERS ==> multiset(schedule)[k] >= |Lists(width, height)[k]|
    ensures
      var start := Workers.State(was, Lists(width, height));
      && Workers.InBounds(start)
      && |Workers.Run(start, schedule, MaskOf(bg, fr)).res| == |was|
      && forall q: nat :: q < |was| ==> Workers.Run(start, schedule, MaskOf(bg, fr)).res[q] == Masked(bg, fr, q)
  {
    hide Masked;
    hide Workers.Run;
    var start := Workers.State(was, Lists(width, height));
    ListsInBounds(was, width, height);
    hide WorkerList;
    Workers.AllSchedulesAgree(start, schedule, MaskOf(bg, fr));
    hide Workers.Assigned;
    hide Lists;
    forall q: nat | q < |was|
      ensures Workers.Run(start, schedule, MaskOf(bg, fr)).res[q] == Masked(bg, fr, q)
    {
      EveryPixelAssigned(width, height, q);
    }
  }

  /** At every moment of every schedule each pixel is either still the old one or already right. */
  lemma ParallelInBetween(bg: seq<int>, fr: seq<int>, was: seq<int>, width: nat, height: nat, schedule: seq<nat>,
      q: nat)
    requires |was| == width * height && 3 * |was| <= |bg| && 3 * |was| <= |fr| && q < |was|
    ensures
      var start := Workers.State(was, Lists(width, height));
      && Workers.InBounds(start)
      && |Workers.Run(start, schedule, MaskOf(bg, fr)).res| == |was|
      && Workers.Run(start, schedule, MaskOf(bg, fr)).res[q] in {was[q], Masked(bg, fr, q)}
  {
    hide Masked;
    hide Workers.Run;
    hide Workers.Assigned;
    var start := Workers.State(was, Lists(width, height));
    ListsInBounds(was, width, height);
    hide Lists;
    Workers.AnySchedule(start, start, schedule, MaskOf(bg, fr));
  }

  lemma ListsInBounds(was: seq<int>, width: nat, height: nat)
    requires |was| == width * height
    ensures Workers.InBounds(Workers.State(was, Lists(width, height)))
  {
    hide OnRows;
    forall k: nat | k < WORKERS
      ensures forall i :: 0 <= i < |Lists(width, height)[k]| ==> Lists(width, height)[k][i] < |was|
    {
      Workers.AscendingMembers(width * height, OnRows(width, height, k));
    }
  }

  /** One worker left to run alone does exactly what the helper does on its rows. */
  lemma WorkerAloneIsHelper(bg: seq<int>, fr: seq<int>, was: seq<int>, width: nat, height: nat, k: nat,
      schedule: seq<nat>)
    requires |was| == width * height && 3 * |was| <= |bg| && 3 * |was| <= |fr| && k < WORKERS
    requires multiset(schedule)[0] >= |WorkerList(width, height, k)|
    ensures
      var start := Workers.State(was, [WorkerList(width, height, k)]);
      && Workers.InBounds(start)
      && MaskedRows(bg, fr, was, Workers.Run(start, schedule, MaskOf(bg, fr)).res,
                    StartRow(height, k) * width, EndRow(height, k) * width)
  {
    hide Masked;
    hide InRows;
    var start := Workers.State(was, [WorkerList(width, height, k)]);
    Workers.AscendingMembers(width * height, OnRows(width, height, k));
    hide WorkerList;
    Workers.AllSchedulesAgree(start, schedule, MaskOf(bg, fr));
    hide Workers.Run;
    forall q: nat | q < |was|
      ensures Workers.Assigned(start.todo, q) <==> InRows(width, height, k, q)
    {
      assert start.todo[0] == WorkerList(width, height, k);
    }
    hide Workers.Assigned;
    AsRows(bg, fr, was, width, height, k, Workers.Run(start, schedule, MaskOf(bg, fr)).res);
  }

  lemma AsRows(bg: seq<int>, fr: seq<int>, was: seq<int>, width: nat, height: nat, k: nat, res: seq<int>)
    requires |was| == width * height && 3 * |was| <= |bg| && 3 * |was| <= |fr| && |res| == |was|
    requires forall q: nat :: q < |was| ==> res[q] == if InRows(width, height, k, q) then MaskOf(bg, fr)(q) else was[q]
    ensures MaskedRows(bg, fr, was, res, StartRow(height, k) * width, EndRow(height, k) * width)
  {
    hide Masked;
    hide StartRow;
    hide EndRow;
  }
}
