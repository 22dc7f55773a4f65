/**
  The blur filter (blur.cpp:3-46) and the helper that a parallel worker runs on its part of the frame
  (blur_par.cpp:18-68): every pixel becomes the weighted average of the pixels under a rectangular
  window centred on it, as far as the window lies in the frame.
 */
module Blur {
  import CInt
  import PixelGrid

  type byte = b: int | 0 <= b < 256

  /** A frame of three bytes a pixel, and the weights of the window. */
  datatype Job = Job(frame: seq<byte>, weights: seq<byte>, frameWidth: nat, frameHeight: nat, blurWidth: nat,
      blurHeight: nat)

  function At(s: seq<byte>, i: int): byte { if 0 <= i < |s| then s[i] else 0 }

  /** The pixel under entry (i, j) of the window centred on (row, col), and whether there is one. */
  function TapRow(job: Job, row: int, i: int): int { row + (i - job.blurHeight / 2) }

  function TapCol(job: Job, col: int, j: int): int { col + (j - job.blurWidth / 2) }

  predicate InFrame(job: Job, row: int, col: int, i: int, j: int) {
    0 <= TapRow(job, row, i) < job.frameHeight && 0 <= TapCol(job, col, j) < job.frameWidth
  }

  function TapWeight(job: Job, i: int, j: int): byte { At(job.weights, i * job.blurWidth + j) }

  /** The byte of channel `c`, from 0 to 2, under entry (i, j); channel 3 is constantly one. */
  function TapValue(job: Job, row: int, col: int, i: int, j: int, c: nat): byte {
    if c == 3 then 1 else At(job.frame, (TapRow(job, row, i) * job.frameWidth + TapCol(job, col, j)) * 3 + c)
  }

  function Tap(job: Job, row: int, col: int, i: int, j: int, c: nat): nat {
    if InFrame(job, row, col, i, j) then TapWeight(job, i, j) * TapValue(job, row, col, i, j, c) else 0
  }

  /** The sum over the first `n` entries of window row `i`, and over the first `n` rows. */
  function RowSum(job: Job, row: int, col: int, i: int, n: nat, c: nat): nat {
    if n == 0 then 0 else RowSum(job, row, col, i, n - 1, c) + Tap(job, row, col, i, n - 1, c)
  }

  function Sum(job: Job, row: int, col: int, n: nat, c: nat): nat {
    if n == 0 then 0 else Sum(job, row, col, n - 1, c) + RowSum(job, row, col, n - 1, job.blurWidth, c)
  }

  function TotalWeight(job: Job, row: int, col: int): nat { Sum(job, row, col, job.blurHeight, 3) }

  /** The blurred value of a channel at a pixel: the weighted average, rounded down. */
  function Blurred(job: Job, row: int, col: int, c: nat): int {
    if TotalWeight(job, row, col) == 0 then 0
    else CInt.Div(Sum(job, row, col, job.blurHeight, c), TotalWeight(job, row, col))
  }

  /** Entries of the window that count. */
  predicate Counts(job: Job, row: int, col: int, i: int, j: int) {
    0 <= i < job.blurHeight && 0 <= j < job.blurWidth && InFrame(job, row, col, i, j) && TapWeight(job, i, j) > 0
  }

  ghost predicate Bounded(job: Job, row: int, col: int, c: nat, lo: int, hi: int) {
    forall i, j :: Counts(job, row, col, i, j) ==> lo <= TapValue(job, row, col, i, j, c) <= hi
  }

  lemma TapBetween(job: Job, row: int, col: int, i: nat, j: nat, c: nat, lo: int, hi: int)
    requires Bounded(job, row, col, c, lo, hi) && i < job.blurHeight && j < job.blurWidth
    ensures lo * Tap(job, row, col, i, j, 3) <= Tap(job, row, col, i, j, c) <= hi * Tap(job, row, col, i, j, 3)
  {
    var w, v := TapWeight(job, i, j), TapValue(job, row, col, i, j, c);
    if Counts(job, row, col, i, j) {
      hide TapWeight;
      hide TapValue;
      hide InFrame;
      assert lo <= v <= hi;
      assert w * 1 == w;
      CInt.Scale(lo, v, w);
      CInt.Scale(v, hi, w);
    }
  }

  lemma AddBounds(lo: int, hi: int, a: int, wa: int, b: int, wb: int)
    requires lo * wa <= a <= hi * wa && lo * wb <= b <= hi * wb
    ensures lo * (wa + wb) <= a + b <= hi * (wa + wb)
  {
  }

  lemma {:induction false} RowBetween(job: Job, row: int, col: int, i: nat, n: nat, c: nat, lo: int, hi: int)
    requires Bounded(job, row, col, c, lo, hi) && i < job.blurHeight && n <= job.blurWidth
    ensures lo * RowSum(job, row, col, i, n, 3) <= RowSum(job, row, col, i, n, c) <= hi * RowSum(job, row, col, i, n, 3)
  {
    hide Bounded;
    hide Tap;
    if n > 0 {
      RowBetween(job, row, col, i, n - 1, c, lo, hi);
      TapBetween(job, row, col, i, n - 1, c, lo, hi);
      AddBounds(lo, hi, RowSum(job, row, col, i, n - 1, c), RowSum(job, row, col, i, n - 1, 3),
                Tap(job, row, col, i, n - 1, c), Tap(job, row, col, i, n - 1, 3));
    }
  }

  lemma {:induction false} SumBetween(job: Job, row: int, col: int, n: nat, c: nat, lo: int, hi: int)
    requires Bounded(job, row, col, c, lo, hi) && n <= job.blurHeight
    ensures lo * Sum(job, row, col, n, 3) <= Sum(job, row, col, n, c) <= hi * Sum(job, row, col, n, 3)
  {
    hide Bounded;
    hide RowSum;
    if n > 0 {
      var w := job.blurWidth;
      SumBetween(job, row, col, n - 1, c, lo, hi);
      RowBetween(job, row, col, n - 1, w, c, lo, hi);
      AddBounds(lo, hi, Sum(job, row, col, n - 1, c), Sum(job, row, col, n - 1, 3),
                RowSum(job, row, col, n - 1, w, c), RowSum(job, row, col, n - 1, w, 3));
    }
  }

  /** A blurred value lies between any bounds on the values under the entries that count; with the
      least and the greatest of them as the bounds, it lies between the window's minimum and maximum. */
  lemma BlurredBetween(job: Job, row: int, col: int, c: nat, lo: int, hi: int)
    requires TotalWeight(job, row, col) > 0 && Bounded(job, row, col, c, lo, hi)
    ensures lo <= Blurred(job, row, col, c) <= hi
  {
    SumBetween(job, row, col, job.blurHeight, c, lo, hi);
    CInt.DivBetween(lo, hi, TotalWeight(job, row, col), Sum(job, row, col, job.blurHeight, c));
  }

  /** So it always fits a byte, and where the window sees a single value it is that value. */
  lemma BlurredIsByte(job: Job, row: int, col: int, c: nat)
    ensures 0 <= Blurred(job, row, col, c) < 256
  {
    if TotalWeight(job, row, col) > 0 {
      BlurredBetween(job, row, col, c, 0, 255);
    }
  }

  /** The average is defined exactly where some entry of the window counts. */
  lemma WeightIffCounts(job: Job, row: int, col: int)
    ensures TotalWeight(job, row, col) > 0 <==> exists i, j :: Counts(job, row, col, i, j)
  {
    if exists i, j :: Counts(job, row, col, i, j) {
      var i, j :| Counts(job, row, col, i, j);
      EntryInSum(job, row, col, i, j, job.blurHeight);
    } else {
      SumBetween(job, row, col, job.blurHeight, 3, 0, 0);
    }
  }

  lemma {:induction false} EntryInRow(job: Job, row: int, col: int, i: nat, j: nat, n: nat)
    requires Counts(job, row, col, i, j) && j < n
    ensures RowSum(job, row, col, i, n, 3) > 0
  {
    if j < n - 1 {
      EntryInRow(job, row, col, i, j, n - 1);
    } else {
      assert Tap(job, row, col, i, j, 3) == TapWeight(job, i, j) * 1;
    }
  }

  lemma {:induction false} EntryInSum(job: Job, row: int, col: int, i: nat, j: nat, n: nat)
    requires Counts(job, row, col, i, j) && i < n
    ensures Sum(job, row, col, n, 3) > 0
  {
    if i < n - 1 {
      EntryInSum(job, row, col, i, j, n - 1);
    } else {
      EntryInRow(job, row, col, i, j, job.blurWidth);
    }
  }

  /** A window whose centre has a weight is defined at every pixel of the frame. */
  lemma CentreCounts(job: Job, row: int, col: int)
    requires 0 <= row < job.frameHeight && 0 <= col < job.frameWidth && job.blurWidth >= 1 && job.blurHeight >= 1
    requires TapWeight(job, job.blurHeight / 2, job.blurWidth / 2) > 0
    ensures TotalWeight(job, row, col) > 0
  {
    assert Counts(job, row, col, job.blurHeight / 2, job.blurWidth / 2);
    WeightIffCounts(job, row, col);
  }

  /** The blurred byte at a flat index. */
  function BlurAt(job: Job, q: nat): int {
    if job.frameWidth == 0 then 0
    else Blurred(job, PixelGrid.Row(job.frameWidth, q / 3), PixelGrid.Col(job.frameWidth, q / 3), q % 3)
  }

  ghost predicate Describes(job: Job, frame: array<byte>, weights: array<byte>)
    reads frame, weights
  {
    && job.frame == frame[..] && job.weights == weights[..]
    && frame.Length == job.frameWidth * job.frameHeight * 3 && weights.Length == job.blurWidth * job.blurHeight
  }

  lemma InBounds(rows: nat, cols: nat, row: nat, col: nat)
    requires row < rows && col < cols
    ensures 0 <= row * cols + col < cols * rows
  {
    PixelGrid.IdxInRange(cols, rows, row, col);
  }

  /** The two inner loops: the sums of the weighted channels and of the weights. */
  method SumTaps(frame: array<byte>, weights: array<byte>, ghost job: Job, frameWidth: nat, frameHeight: nat,
                 blurWidth: nat, blurHeight: nat, row: nat, col: nat)
    returns (r: nat, g: nat, b: nat, total: nat)
    requires Describes(job, frame, weights)
    requires job.frameWidth == frameWidth && job.frameHeight == frameHeight
    requires job.blurWidth == blurWidth && job.blurHeight == blurHeight
    ensures r == Sum(job, row, col, blurHeight, 0) && g == Sum(job, row, col, blurHeight, 1)
    ensures b == Sum(job, row, col, blurHeight, 2) && total == TotalWeight(job, row, col)
  {
    r, g, b, total := 0, 0, 0, 0;
    hide Tap;
    for i := 0 to blurHeight
      invariant r == Sum(job, row, col, i, 0) && g == Sum(job, row, col, i, 1)
      invariant b == Sum(job, row, col, i, 2) && total == Sum(job, row, col, i, 3)
    {
      for j := 0 to blurWidth
        invariant r == Sum(job, row, col, i, 0) + RowSum(job, row, col, i, j, 0)
        invariant g == Sum(job, row, col, i, 1) + RowSum(job, row, col, i, j, 1)
        invariant b == Sum(job, row, col, i, 2) + RowSum(job, row, col, i, j, 2)
        invariant total == Sum(job, row, col, i, 3) + RowSum(job, row, col, i, j, 3)
      {
        var dr, dg, db, dw :=
          OneTap(frame, weights, job, frameWidth, frameHeight, blurWidth, blurHeight, row, col, i, j);
        r, g, b, total := r + dr, g + dg, b + db, total + dw;
      }
    }
  }

  method OneTap(frame: array<byte>, weights: array<byte>, ghost job: Job, frameWidth: nat, frameHeight: nat,
                blurWidth: nat, blurHeight: nat, row: nat, col: nat, i: nat, j: nat)
    returns (r: nat, g: nat, b: nat, weight: nat)
    requires Describes(job, frame, weights) && i < blurHeight && j < blurWidth
    requires job.frameWidth == frameWidth && job.frameHeight == frameHeight
    requires job.blurWidth == blurWidth && job.blurHeight == blurHeight
    ensures r == Tap(job, row, col, i, j, 0) && g == Tap(job, row, col, i, j, 1)
    ensures b == Tap(job, row, col, i, j, 2) && weight == Tap(job, row, col, i, j, 3)
  {
    var blurRow := row + (i - blurHeight / 2);
    var blurCol := col + (j - blurWidth / 2);
    if blurRow >= 0 && blurRow < frameHeight && blurCol >= 0 && blurCol < frameWidth {
      InBounds(blurHeight, blurWidth, i, j);
      InBounds(frameHeight, frameWidth, blurRow, blurCol);
      weight := weights[i * blurWidth + j];
      var blurPixelIndex := (blurRow * frameWidth + blurCol) * 3;
      r := weight * frame[blurPixelIndex + 0];
      g := weight * frame[blurPixelIndex + 1];
      b := weight * frame[blurPixelIndex + 2];
      assert weight * 1 == weight;
    } else {
      r, g, b, weight := 0, 0, 0, 0;
    }
  }

  /** The part of the frame that a loop over rows and columns writes; `radius` is the width of the
      border that it leaves alone. */
  datatype Part = Part(startRow: int, endRow: int, startCol: int, endCol: int, radius: int)

  predicate Holds(job: Job, part: Part, row: int, col: int) {
    && part.startRow <= row < part.endRow && part.startCol <= col < part.endCol
    && part.radius <= row <= job.frameHeight - 1 - part.radius
    && part.radius <= col <= job.frameWidth - 1 - part.radius
  }

  /** The average is defined at every pixel of the part: nothing is divided by zero. */
  ghost predicate Defined(job: Job, part: Part) {
    forall row, col :: Holds(job, part, row, col) ==> TotalWeight(job, row, col) > 0
  }

  predicate InPart(job: Job, part: Part, q: nat) {
    job.frameWidth >= 1 && Holds(job, part, PixelGrid.Row(job.frameWidth, q / 3), PixelGrid.Col(job.frameWidth, q / 3))
  }

  /** Whether a flat index comes before pixel (row, col) in the order of the loops. */
  predicate Before(job: Job, row: int, col: int, q: nat) {
    job.frameWidth >= 1 &&
    var r, c := PixelGrid.Row(job.frameWidth, q / 3), PixelGrid.Col(job.frameWidth, q / 3);
    r < row || (r == row && c < col)
  }

  /** The array when the loops have reached pixel (row, col). */
  ghost predicate Reached(job: Job, part: Part, was: seq<int>, res: seq<int>, row: int, col: int) {
    && |res| == |was|
    && forall q: nat :: q < |was| ==>
      res[q] == if InPart(job, part, q) && Before(job, row, col, q) then BlurAt(job, q) else was[q]
  }

  /** The array when a part has been blurred. */
  ghost predicate PartBlurred(job: Job, part: Part, was: seq<int>, res: seq<int>) {
    && |res| == |was|
    && forall q: nat :: q < |was| ==> res[q] == if InPart(job, part, q) then BlurAt(job, q) else was[q]
  }

  /** The array with the three blurred bytes of a pixel written at `p`. */
  function Painted(job: Job, res: seq<int>, p: nat, row: int, col: int): seq<int>
    requires p + 3 <= |res|
  {
    res[p := Blurred(job, row, col, 0)][p + 1 := Blurred(job, row, col, 1)][p + 2 := Blurred(job, row, col, 2)]
  }

  /** Writing the blurred bytes of one pixel. */
  lemma WritePixel(job: Job, part: Part, was: seq<int>, res: seq<int>, row: int, col: int)
    requires Reached(job, part, was, res, row, col) && Holds(job, part, row, col) && part.radius >= 0
    requires |was| == job.frameWidth * job.frameHeight * 3
    ensures var p := (row * job.frameWidth + col) * 3;
      && 0 <= p && p + 3 <= |res|
      && (forall c: nat :: c < 3 ==> 0 <= Blurred(job, row, col, c) < 256)
      && Reached(job, part, was,
                 Painted(job, res, p, row, col),
                 row, col + 1)
  {
    var w := job.frameWidth;
    var p := (row * w + col) * 3;
    InBounds(job.frameHeight, w, row, col);
    PixelGrid.Coordinates(w, row, col);
    forall c: nat | c < 3
      ensures 0 <= Blurred(job, row, col, c) < 256
      ensures BlurAt(job, p + c) == Blurred(job, row, col, c)
    {
      BlurredIsByte(job, row, col, c);
      assert (p + c) / 3 == row * w + col && (p + c) % 3 == c;
    }
    hide Blurred;
    hide BlurAt;
    hide PixelGrid.Row;
    hide PixelGrid.Col;
    var after := Painted(job, res, p, row, col);
    forall q: nat | q < |was|
      ensures after[q] == if InPart(job, part, q) && Before(job, row, col + 1, q) then BlurAt(job, q) else was[q]
    {
      SamePixel(job, row, col, q);
      if p <= q < p + 3 {
        assert q == p + q % 3;
      }
    }
  }

  lemma SamePixel(job: Job, row: int, col: int, q: nat)
    requires job.frameWidth >= 1 && 0 <= row && 0 <= col < job.frameWidth
    ensures
      var r, c := PixelGrid.Row(job.frameWidth, q / 3), PixelGrid.Col(job.frameWidth, q / 3);
      r == row && c == col <==> q / 3 == row * job.frameWidth + col
  {
    PixelGrid.FromCoordinates(job.frameWidth, q / 3);
    PixelGrid.Coordinates(job.frameWidth, row, col);
  }

  /** One pixel of the outer loops. */
  method BlurPixel(res: array<byte>, frame: array<byte>, weights: array<byte>, ghost job: Job, ghost part: Part,
                   ghost was: seq<int>, frameWidth: nat, frameHeight: nat, blurWidth: nat, blurHeight: nat, row: nat,
                     col: nat)
    requires res != frame && res != weights && Describes(job, frame, weights)
    requires job.frameWidth == frameWidth && job.frameHeight == frameHeight
    requires job.blurWidth == blurWidth && job.blurHeight == blurHeight
    requires Defined(job, part) && |was| == frameWidth * frameHeight * 3
    requires Reached(job, part, was, res[..], row, col) && Holds(job, part, row, col) && part.radius >= 0
    modifies res
    ensures Reached(job, part, was, res[..], row, col + 1)
  {
    hide Reached;
    hide Sum;
    hide Describes;
    var centerPixelIndex := (row * frameWidth + col) * 3;
    var newR, newG, newB, blurValueTotal :=
      SumTaps(frame, weights, job, frameWidth, frameHeight, blurWidth, blurHeight, row, col);
    assert |res[..]| == |was| by { SameLength(job, part, was, res[..], row, col); }
    WritePixel(job, part, was, res[..], row, col);
    Quotients(job, row, col);
    hide Blurred;
    hide Holds;
    newR, newG, newB := newR / blurValueTotal, newG / blurValueTotal, newB / blurValueTotal;
    StorePixel(res, centerPixelIndex, newR % 256, newG % 256, newB % 256);
  }

  method StorePixel(res: array<byte>, index: nat, r: byte, g: byte, b: byte)
    requires index + 3 <= res.Length
    modifies res
    ensures res[..] == old(res[..])[index := r][index + 1 := g][index + 2 := b]
  {
    res[index + 0] := r;
    res[index + 1] := g;
    res[index + 2] := b;
  }

  lemma Quotients(job: Job, row: int, col: int)
    requires TotalWeight(job, row, col) > 0
    ensures forall c: nat {:trigger Blurred(job, row, col, c)} ::
      Blurred(job, row, col, c) == Sum(job, row, col, job.blurHeight, c) / TotalWeight(job, row, col)
  {
  }

  lemma SameLength(job: Job, part: Part, was: seq<int>, res: seq<int>, row: int, col: int)
    requires Reached(job, part, was, res, row, col)
    ensures |res| == |was|
  {
  }

  function WholeFrame(job: Job): Part { Part(0, job.frameHeight, 0, job.frameWidth, 0) }

  /** blur: every byte of the result is the blurred byte. */
  method Blur(res: array<byte>, frame: array<byte>, weights: array<byte>,
              frameWidth: nat, frameHeight: nat, blurWidth: nat, blurHeight: nat)
    requires res != frame && res != weights && res.Length == frame.Length
    requires frame.Length == frameWidth * frameHeight * 3 && weights.Length == blurWidth * blurHeight
    requires Defined(Job(frame[..], weights[..], frameWidth, frameHeight, blurWidth, blurHeight),
                     Part(0, frameHeight, 0, frameWidth, 0))
    modifies res
    ensures forall q: nat :: q < res.Length ==>
      res[q] == BlurAt(Job(frame[..], weights[..], frameWidth, frameHeight, blurWidth, blurHeight), q)
  {
    ghost var job := Job(frame[..], weights[..], frameWidth, frameHeight, blurWidth, blurHeight);
    hide Reached;
    ghost var was, part := res[..], WholeFrame(job);
    ReachedStart(job, part, was);
    var row := 0;
    while row < frameHeight
      invariant 0 <= row <= frameHeight && Reached(job, part, was, res[..], row, 0)
    {
      var col := 0;
      while col < frameWidth
        invariant 0 <= col <= frameWidth && Reached(job, part, was, res[..], row, col)
      {
        BlurPixel(res, frame, weights, job, part, was, frameWidth, frameHeight, blurWidth, blurHeight, row, col);
        col := col + 1;
      }
      NextRow(job, part, was, res[..], row, frameWidth);
      row := row + 1;
    }
    ReachedEnd(job, part, was, res[..], row);
    WholeFrameIsAll(job, was, res[..]);
  }

  /** blur_helper: the pixels of a range of rows and columns, without the border. */
  method BlurHelper(res: array<byte>, frame: array<byte>, weights: array<byte>,
                    frameWidth: nat, frameHeight: nat, blurWidth: nat, blurHeight: nat,
                    startRow: int, endRow: int, startCol: int, endCol: int)
    requires res != frame && res != weights && res.Length == frame.Length
    requires frame.Length == frameWidth * frameHeight * 3 && weights.Length == blurWidth * blurHeight
    requires Defined(Job(frame[..], weights[..], frameWidth, frameHeight, blurWidth, blurHeight),
                     Part(startRow, endRow, startCol, endCol, Radius(blurWidth)))
    modifies res
    ensures PartBlurred(Job(frame[..], weights[..], frameWidth, frameHeight, blurWidth, blurHeight),
                        Part(startRow, endRow, startCol, endCol, Radius(blurWidth)), old(res[..]), res[..])
  {
    ghost var job := Job(frame[..], weights[..], frameWidth, frameHeight, blurWidth, blurHeight);
    assert Describes(job, frame, weights);
    hide Reached;
    hide PartBlurred;
    hide Describes;
    hide Defined;
    var blurRadius := Radius(blurWidth);
    ghost var was, part := res[..], Part(startRow, endRow, startCol, endCol, blurRadius);
    var row := startRow;
    ReachedFirst(job, part, was);
    while row < endRow
      invariant startRow <= row && Reached(job, part, was, res[..], row, startCol)
      invariant row <= endRow || row == startRow
    {
      var col := startCol;
      if !(row < blurRadius || row > frameHeight - 1 - blurRadius) {
        while col < endCol
          invariant startCol <= col && Reached(job, part, was, res[..], row, col)
          invariant col <= endCol || col == startCol
        {
          if col < blurRadius || col > frameWidth - 1 - blurRadius {
            SkipPixel(job, part, was, res[..], row, col);
          } else {
            BlurPixel(res, frame, weights, job, part, was, frameWidth, frameHeight, blurWidth, blurHeight, row, col);
          }
          col := col + 1;
        }
      }
      NextRow(job, part, was, res[..], row, col);
      row := row + 1;
    }
    ReachedEnd(job, part, was, res[..], row);
  }

  /** `(blur_width - 1) / 2` in C. */
  function Radius(blurWidth: nat): (r: nat)
    ensures 2 * r <= blurWidth && (blurWidth >= 1 ==> 2 * r + 1 <= blurWidth <= 2 * r + 2)
  {
    CInt.Div(blurWidth - 1, 2)
  }

  lemma ReachedStart(job: Job, part: Part, was: seq<int>)
    requires part.startRow == 0
    ensures Reached(job, part, was, was, 0, 0)
  {
    forall q: nat | q < |was| && job.frameWidth >= 1
      ensures PixelGrid.Row(job.frameWidth, q / 3) >= 0 && PixelGrid.Col(job.frameWidth, q / 3) >= 0
    {
      PixelGrid.FromCoordinates(job.frameWidth, q / 3);
    }
  }

  lemma ReachedFirst(job: Job, part: Part, was: seq<int>)
    ensures Reached(job, part, was, was, part.startRow, part.startCol)
  {
  }

  /** Nothing of the part lies between the point where a row is done and the start of the next one. */
  lemma NextRow(job: Job, part: Part, was: seq<int>, res: seq<int>, row: int, col: int)
    requires Reached(job, part, was, res, row, col)
    requires col >= part.endCol || row < part.radius || row > job.frameHeight - 1 - part.radius
    ensures Reached(job, part, was, res, row + 1, part.startCol)
  {
  }

  lemma SkipPixel(job: Job, part: Part, was: seq<int>, res: seq<int>, row: int, col: int)
    requires Reached(job, part, was, res, row, col)
    requires col < part.radius || col > job.frameWidth - 1 - part.radius
    ensures Reached(job, part, was, res, row, col + 1)
  {
  }

  lemma ReachedEnd(job: Job, part: Part, was: seq<int>, res: seq<int>, row: int)
    requires Reached(job, part, was, res, row, part.startCol) && row >= part.endRow
    ensures PartBlurred(job, part, was, res)
  {
  }

  lemma WholeFrameIsAll(job: Job, was: seq<int>, res: seq<int>)
    requires PartBlurred(job, WholeFrame(job), was, res) && |was| == job.frameWidth * job.frameHeight * 3
    ensures forall q: nat :: q < |was| ==> res[q] == BlurAt(job, q)
  {
    hide BlurAt;
    forall q: nat | q < |was|
      ensures InPart(job, WholeFrame(job), q)
    {
      PixelOfIndex(job, q);
    }
  }

  /** A window with a weight at its centre only leaves the frame as it is. */
  lemma CentreOnlyIsIdentity(job: Job, q: nat)
    requires |job.frame| == job.frameWidth * job.frameHeight * 3 && q < |job.frame|
    requires forall i, j :: 0 <= i < job.blurHeight && 0 <= j < job.blurWidth ==>
      (TapWeight(job, i, j) > 0 <==> i == job.blurHeight / 2 && j == job.blurWidth / 2)
    requires job.blurWidth >= 1 && job.blurHeight >= 1
    ensures BlurAt(job, q) == job.frame[q]
  {
    PixelOfIndex(job, q);
    var row, col, c := PixelGrid.Row(job.frameWidth, q / 3), PixelGrid.Col(job.frameWidth, q / 3), q % 3;
    PixelGrid.FromCoordinates(job.frameWidth, q / 3);
    assert TapWeight(job, job.blurHeight / 2, job.blurWidth / 2) > 0;
    CentreCounts(job, row, col);
    assert (row * job.frameWidth + col) * 3 + c == q;
    assert Bounded(job, row, col, c, job.frame[q], job.frame[q]);
    BlurredBetween(job, row, col, c, job.frame[q], job.frame[q]);
  }

  lemma PositiveFactor(a: nat, b: nat)
    requires a * b > 0
    ensures a > 0
  {
  }

  lemma PixelOfIndex(job: Job, q: nat)
    requires q < job.frameWidth * job.frameHeight * 3
    ensures job.frameWidth >= 1
    ensures 0 <= PixelGrid.Row(job.frameWidth, q / 3) < job.frameHeight
    ensures 0 <= PixelGrid.Col(job.frameWidth, q / 3) < job.frameWidth
  {
    var w, h, p := job.frameWidth, job.frameHeight, q / 3;
    assert p < w * h;
    PositiveFactor(w, h);
    PixelGrid.FromCoordinates(w, p);
    var r := PixelGrid.Row(w, p);
    assert r * w < h * w;
    CInt.Scale(r, h, w);
  }
}
