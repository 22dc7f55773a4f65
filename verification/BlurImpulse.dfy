/**
  What the blur does to a single bright byte (blur.cpp:20-43): it spreads the window's own weights around
  it, mirrored, over their sum.
 */
module BlurImpulse {
  import CInt
  import PixelGrid
  import opened Blur

  /** The frame is black but for channel `c` of the pixel (row0, col0), which has the value `v`. */
  ghost predicate Impulse(job: Job, row0: int, col0: int, c: nat, v: byte) {
    && 0 <= row0 < job.frameHeight && 0 <= col0 < job.frameWidth && c < 3
    && |job.frame| == job.frameWidth * job.frameHeight * 3
    && forall q :: 0 <= q < |job.frame| ==>
         job.frame[q] == if q == (row0 * job.frameWidth + col0) * 3 + c then v else 0
  }

  /** The window centred on (row, col) lies in the frame. */
  predicate WindowInFrame(job: Job, row: int, col: int) {
    && 0 <= row - job.blurHeight / 2 && row - job.blurHeight / 2 + job.blurHeight <= job.frameHeight
    && 0 <= col - job.blurWidth / 2 && col - job.blurWidth / 2 + job.blurWidth <= job.frameWidth
  }

  /** The sum of the first `n` weights. */
  function WeightSum(weights: seq<byte>, n: nat): nat
    requires n <= |weights|
  {
    if n == 0 then 0 else WeightSum(weights, n - 1) + weights[n - 1]
  }

  /** Two pixels of a row-major frame are the same exactly when their coordinates are. */
  lemma SameIndex(w: int, r: int, c: int, row: int, col: int)
    requires 0 <= c < w && 0 <= col < w && 0 <= r && 0 <= row
    ensures r * w + c == row * w + col <==> r == row && c == col
  {
    PixelGrid.Coordinates(w, r, c);
    PixelGrid.Coordinates(w, row, col);
  }

  lemma TapOfImpulse(job: Job, row: int, col: int, i: nat, j: nat, row0: int, col0: int, c: nat, v: byte)
    requires Impulse(job, row0, col0, c, v) && i < job.blurHeight && j < job.blurWidth
    requires |job.weights| == job.blurWidth * job.blurHeight
    ensures i * job.blurWidth + j < |job.weights|
    ensures Tap(job, row, col, i, j, c)
      == if i == row0 - row + job.blurHeight / 2 && j == col0 - col + job.blurWidth / 2
         then job.weights[i * job.blurWidth + j] * v else 0
  {
    InBounds(job.blurHeight, job.blurWidth, i, j);
    var r, k := TapRow(job, row, i), TapCol(job, col, j);
    if InFrame(job, row, col, i, j) {
      InBounds(job.frameHeight, job.frameWidth, r, k);
      SameIndex(job.frameWidth, r, k, row0, col0);
      assert TapValue(job, row, col, i, j, c) == if r == row0 && k == col0 then v else 0;
    }
  }

  lemma {:induction false} RowOfImpulse(
      job: Job, row: int, col: int, i: nat, n: nat, row0: int, col0: int, c: nat, v: byte)
    requires Impulse(job, row0, col0, c, v) && i < job.blurHeight && n <= job.blurWidth
    requires |job.weights| == job.blurWidth * job.blurHeight
    ensures
      var j0 := col0 - col + job.blurWidth / 2;
      if i == row0 - row + job.blurHeight / 2 && 0 <= j0 < n then
        0 <= i * job.blurWidth + j0 < |job.weights|
        && RowSum(job, row, col, i, n, c) == job.weights[i * job.blurWidth + j0] * v
      else RowSum(job, row, col, i, n, c) == 0
  {
    hide Impulse, Tap;
    if n > 0 {
      RowOfImpulse(job, row, col, i, n - 1, row0, col0, c, v);
      TapOfImpulse(job, row, col, i, n - 1, row0, col0, c, v);
    }
  }

  lemma {:induction false} SumOfImpulse(
      job: Job, row: int, col: int, n: nat, row0: int, col0: int, c: nat, v: byte)
    requires Impulse(job, row0, col0, c, v) && n <= job.blurHeight
    requires |job.weights| == job.blurWidth * job.blurHeight
    ensures
      var i0, j0 := row0 - row + job.blurHeight / 2, col0 - col + job.blurWidth / 2;
      if 0 <= i0 < n && 0 <= j0 < job.blurWidth then
        0 <= i0 * job.blurWidth + j0 < |job.weights|
        && Sum(job, row, col, n, c) == job.weights[i0 * job.blurWidth + j0] * v
      else Sum(job, row, col, n, c) == 0
  {
    hide Impulse, RowSum;
    if n > 0 {
      SumOfImpulse(job, row, col, n - 1, row0, col0, c, v);
      RowOfImpulse(job, row, col, n - 1, job.blurWidth, row0, col0, c, v);
    }
  }

  // ----- the divisor -----

  lemma {:induction false} RowOfWeights(job: Job, row: int, col: int, i: nat, n: nat)
    requires WindowInFrame(job, row, col) && i < job.blurHeight && n <= job.blurWidth
    requires |job.weights| == job.blurWidth * job.blurHeight
    ensures i * job.blurWidth + n <= |job.weights|
    ensures RowSum(job, row, col, i, n, 3)
      == WeightSum(job.weights, i * job.blurWidth + n) - WeightSum(job.weights, i * job.blurWidth)
  {
    CInt.Grows(i + 1, job.blurHeight, job.blurWidth);
    assert (i + 1) * job.blurWidth == i * job.blurWidth + job.blurWidth;
    if n > 0 {
      RowOfWeights(job, row, col, i, n - 1);
      assert InFrame(job, row, col, i, n - 1);
      assert Tap(job, row, col, i, n - 1, 3) == TapWeight(job, i, n - 1);
    }
  }

  lemma {:induction false} SumOfWeights(job: Job, row: int, col: int, n: nat)
    requires WindowInFrame(job, row, col) && n <= job.blurHeight
    requires |job.weights| == job.blurWidth * job.blurHeight
    ensures n * job.blurWidth <= |job.weights|
    ensures Sum(job, row, col, n, 3) == WeightSum(job.weights, n * job.blurWidth)
  {
    hide RowSum, WindowInFrame;
    CInt.Grows(n, job.blurHeight, job.blurWidth);
    if n > 0 {
      SumOfWeights(job, row, col, n - 1);
      RowOfWeights(job, row, col, n - 1, job.blurWidth);
      assert (n - 1) * job.blurWidth + job.blurWidth == n * job.blurWidth;
    } else {
      assert 0 * job.blurWidth == 0;
    }
  }

  /** Where the window lies in the frame, the divisor is the sum of all its weights. */
  lemma InsideDivisor(job: Job, row: int, col: int)
    requires WindowInFrame(job, row, col) && |job.weights| == job.blurWidth * job.blurHeight
    ensures TotalWeight(job, row, col) == WeightSum(job.weights, |job.weights|)
  {
    SumOfWeights(job, row, col, job.blurHeight);
    assert job.blurHeight * job.blurWidth == |job.weights|;
  }

  // ----- the response -----

  /** The index of channel `c` of the pixel (row, col) in a frame `w` pixels wide. */
  function ByteAt(w: nat, row: nat, col: nat, c: nat): nat { (row * w + col) * 3 + c }

  lemma ByteIndex(w: nat, row: nat, col: nat, c: nat)
    requires col < w && c < 3
    ensures
      var q := ByteAt(w, row, col, c);
      PixelGrid.Row(w, q / 3) == row && PixelGrid.Col(w, q / 3) == col && q % 3 == c
  {
    CInt.Grows(0, row, w);
    var p := row * w + col;
    assert ((p * 3) + c) / 3 == p;
    PixelGrid.Coordinates(w, row, col);
  }

  /** The response to a single byte of value `v` at (row0, col0): at (row, col), as far as the window there lies
      in the frame, `v` times the weight of the entry that covers (row0, col0), over the sum of the weights,
      and nothing outside of the window. So every weight counts, at its place. */
  lemma Response(job: Job, row: nat, col: nat, row0: int, col0: int, c: nat, v: byte)
    requires Impulse(job, row0, col0, c, v) && WindowInFrame(job, row, col)
    requires row < job.frameHeight && col < job.frameWidth
    requires |job.weights| == job.blurWidth * job.blurHeight && WeightSum(job.weights, |job.weights|) > 0
    ensures
      var i, j := row0 - row + job.blurHeight / 2, col0 - col + job.blurWidth / 2;
      var blurred := BlurAt(job, ByteAt(job.frameWidth, row, col, c));
      if 0 <= i < job.blurHeight && 0 <= j < job.blurWidth then
        0 <= i * job.blurWidth + j < |job.weights|
        && blurred == v * job.weights[i * job.blurWidth + j] / WeightSum(job.weights, |job.weights|)
      else blurred == 0
  {
    ByteIndex(job.frameWidth, row, col, c);
    hide Sum, WeightSum, Impulse, ByteAt;
    InsideDivisor(job, row, col);
    SumOfImpulse(job, row, col, job.blurHeight, row0, col0, c, v);
  }

  /** The other two channels stay black, also at the border. */
  lemma ChannelsApart(job: Job, row: nat, col: nat, row0: int, col0: int, c: nat, v: byte, d: nat)
    requires Impulse(job, row0, col0, c, v) && d < 3 && d != c
    requires row < job.frameHeight && col < job.frameWidth
    ensures BlurAt(job, ByteAt(job.frameWidth, row, col, d)) == 0
  {
    ByteIndex(job.frameWidth, row, col, d);
    forall i, j | Counts(job, row, col, i, j)
      ensures 0 <= TapValue(job, row, col, i, j, d) <= 0
    {
      InBounds(job.frameHeight, job.frameWidth, TapRow(job, row, i), TapCol(job, col, j));
    }
    if TotalWeight(job, row, col) > 0 {
      BlurredBetween(job, row, col, d, 0, 0);
    }
  }
}
