/**
  How many labels the pass can issue. While every issued label is visible to the
  minimum, the pixels that open labels are pairwise not 8-adjacent, so there is
  at most one in each 2x2 block of the interior, and the label table of
  width * height / 4 entries is large enough.
 */
module BlobBound {
  import opened PixelGrid
  import opened BlobScan

  /** None of the four earlier neighbours of `p` is active. */
  ghost predicate Lonely(I: Image, p: int)
    requires I.w >= 1
  {
    && 0 <= p < |I.px| && Interior(I.w, I.h, p)
    && !Active(I, p - I.w - 1) && !Active(I, p - I.w) && !Active(I, p - I.w + 1) && !Active(I, p - 1)
  }

  /** A step asks for a new label at `p`: it opens one or overruns. */
  ghost predicate Asks(before: Scan, after: Scan) {
    !before.overrun && (after.overrun || after.next > before.next)
  }

  lemma MinLabelHides(labels: seq<int>)
    requires forall i :: 0 <= i < |labels| ==> labels[i] >= 0
    requires MinLabel(labels) == SENTINEL
    ensures forall i :: 0 <= i < |labels| ==> Hidden(labels[i])
  {
    MinLabelMeaning(labels);
  }

  /** A pixel that asks for a label while all labels are visible has no active earlier neighbour. */
  lemma AskerIsLonely(I: Image, s: Scan, p: int, rep: seq<int>)
    requires I.w >= 1 && ScanInv(I, s, p, rep) && p < |s.out| && s.next <= SENTINEL
    requires Asks(s, Step(I, s, p))
    ensures Lonely(I, p) && Step(I, s, p).next <= s.next + 1
  {
    EarlierNeighbours(I.w, I.h, p);
    var labels := EarlierLabels(I.w, s.out, p);
    assert MinLabel(labels) == SENTINEL;
    MinLabelHides(labels);
    assert Hidden(labels[0]) && Hidden(labels[1]) && Hidden(labels[2]) && Hidden(labels[3]);
  }

  /** The pixels that opened labels: lonely, and in increasing order below `k`. */
  ghost predicate LonelyOpeners(I: Image, open: seq<int>, k: int)
    requires I.w >= 1
  {
    && (forall l :: 1 <= l < |open| ==> open[l] < k && Lonely(I, open[l]))
    && (forall l, m :: 1 <= l < m < |open| ==> open[l] < open[m])
  }

  lemma ExtendOpeners(I: Image, open: seq<int>, k: int)
    requires I.w >= 1 && LonelyOpeners(I, open, k)
    ensures LonelyOpeners(I, open, k + 1)
    ensures Lonely(I, k) ==> LonelyOpeners(I, open + [k], k + 1)
  {
  }

  /** While at most 255 labels are issued, each was opened by a lonely pixel. */
  lemma {:induction false} OpenersLonely(I: Image, s: Scan, k: nat)
    requires Fresh(I, s) && k <= |I.px| && !ScanTo(I, s, k).overrun
    requires ScanTo(I, s, k).next <= SENTINEL + 1
    ensures LonelyOpeners(I, Openers(I, s, k), k)
  {
    hide Visit, ScanInv, Lonely;
    if k > 0 {
      var t, before := ScanTo(I, s, k - 1), Openers(I, s, k - 1);
      NextGrows(I, s, k - 1);
      OpenersLonely(I, s, k - 1);
      ScanKeeps(I, s, k - 1);
      ExtendOpeners(I, before, k - 1);
      if Step(I, t, k - 1).next > t.next {
        AskerIsLonely(I, t, k - 1, before);
      }
    }
  }

  lemma NextGrows(I: Image, s: Scan, k: nat)
    requires Fresh(I, s) && k < |I.px| && !ScanTo(I, s, k + 1).overrun
    ensures !ScanTo(I, s, k).overrun && ScanTo(I, s, k).next <= ScanTo(I, s, k + 1).next
  {
  }

  // ----- packing -----

  function Half(x: int): int { (x - 1) / 2 }

  /** The 2x2 block of the interior that a pixel lies in. */
  function Block(w: int, p: int): (int, int)
    requires w >= 1
  {
    (Half(Row(w, p)), Half(Col(w, p)))
  }

  ghost function Grid(rows: nat, cols: nat): set<(int, int)> {
    set a, b | 0 <= a < rows && 0 <= b < cols :: (a, b)
  }

  ghost function GridRow(a: int, cols: nat): set<(int, int)> {
    set b | 0 <= b < cols :: (a, b)
  }

  lemma GridSplit(rows: nat, cols: nat)
    requires rows > 0
    ensures |Grid(rows, cols)| == |Grid(rows - 1, cols)| + |GridRow(rows - 1, cols)|
  {
    var above, row := Grid(rows - 1, cols), GridRow(rows - 1, cols);
    assert Grid(rows, cols) == above + row;
    assert above !! row;
  }

  lemma {:induction false} GridSize(rows: nat, cols: nat)
    ensures |Grid(rows, cols)| == rows * cols
  {
    hide Grid, GridRow;
    if rows == 0 {
      NoGrid(cols);
    } else {
      GridSize(rows - 1, cols);
      GridRowSize(rows - 1, cols);
      GridSplit(rows, cols);
    }
  }

  lemma NoGrid(cols: nat)
    ensures Grid(0, cols) == {}
  {
  }

  lemma {:induction false} GridRowSize(a: int, cols: nat)
    ensures |GridRow(a, cols)| == cols
  {
    if cols > 0 {
      GridRowSize(a, cols - 1);
      assert GridRow(a, cols) == GridRow(a, cols - 1) + {(a, cols - 1)};
    }
  }

  /** Distinct members of a set are no more than the set. */
  lemma {:induction false} Pigeonhole<T>(xs: seq<T>, room: set<T>)
    requires forall i :: 0 <= i < |xs| ==> xs[i] in room
    requires forall i, j :: 0 <= i < j < |xs| ==> xs[i] != xs[j]
    ensures |xs| <= |room|
  {
    if xs != [] {
      var n := |xs| - 1;
      Pigeonhole(xs[..n], room - {xs[n]});
    }
  }

  /** Pixels that are lonely and in increasing order. */
  ghost predicate Sparse(I: Image, ps: seq<int>)
    requires I.w >= 1
  {
    && (forall i :: 0 <= i < |ps| ==> Lonely(I, ps[i]) && I.px[ps[i]] > 0)
    && (forall i, j :: 0 <= i < j < |ps| ==> ps[i] < ps[j])
  }

  /** Such pixels are pairwise not 8-adjacent. */
  lemma SparseApart(I: Image, ps: seq<int>, i: int, j: int)
    requires I.w >= 1 && Sparse(I, ps) && 0 <= i < j < |ps|
    ensures !Adjacent(I.w, ps[i], ps[j]) && Block(I.w, ps[i]) != Block(I.w, ps[j])
  {
    var p, q := ps[i], ps[j];
    if Adjacent(I.w, p, q) {
      EarlierAdjacentIsNeighbour(I.w, p, q);
      assert Active(I, p);
    }
    assert p < q;
  }

  lemma {:induction false} SparseBound(I: Image, ps: seq<int>)
    requires I.w >= 3 && I.h >= 3 && Sparse(I, ps)
    ensures |ps| <= Half(I.h) * Half(I.w)
  {
    var grid := Grid(Half(I.h), Half(I.w));
    var blocks := seq(|ps|, i requires 0 <= i < |ps| => Block(I.w, ps[i]));
    forall i, j | 0 <= i < j < |blocks|
      ensures blocks[i] != blocks[j]
    {
      SparseApart(I, ps, i, j);
    }
    Pigeonhole(blocks, grid);
    GridSize(Half(I.h), Half(I.w));
  }

  /** One label for each 2x2 block, and one unused entry, fit in a quarter of the pixels. */
  lemma QuarterIsEnough(w: int, h: int)
    requires w >= 3 && h >= 3
    ensures Half(h) * Half(w) + 1 <= w * h / 4
  {
    var a, b := Half(h), Half(w);
    var dh, dw := h - (2 * a + 1), w - (2 * b + 1);
    assert w * h == (2 * b + 1 + dw) * (2 * a + 1 + dh);
    assert w * h == 4 * (a * b) + 2 * a + 2 * b + 1 + dw * h + dh * (2 * b + 1);
    assert dw * h >= 0 && dh * (2 * b + 1) >= 0;
  }

  lemma InteriorNeedsRoom(w: int, h: int, p: int)
    requires w >= 1 && Interior(w, h, p)
    ensures w >= 3 && h >= 3
  {
  }

  /** The pixels that opened the labels issued so far. */
  lemma SparseOpeners(I: Image, s: Scan, k: nat) returns (ps: seq<int>)
    requires Fresh(I, s) && k <= |I.px| && !ScanTo(I, s, k).overrun
    requires ScanTo(I, s, k).next <= SENTINEL + 1
    ensures |ps| == ScanTo(I, s, k).next - 1 && Sparse(I, ps) && (forall i :: 0 <= i < |ps| ==> ps[i] < k)
  {
    ScanKeeps(I, s, k);
    OpenersLonely(I, s, k);
    var open := Openers(I, s, k);
    ps := open[1..];
    forall i | 0 <= i < |ps|
      ensures I.px[ps[i]] > 0
    {
      assert ScanTo(I, s, k).out[open[i + 1]] == i + 1;
    }
  }

  /** At most ceil((w-2)/2) * ceil((h-2)/2) labels are issued while none passes the sentinel, and
      every one of them is an index of the label table. */
  lemma LabelBound(I: Image, s: Scan, k: nat)
    requires Fresh(I, s) && k <= |I.px| && I.w >= 3 && I.h >= 3 && !ScanTo(I, s, k).overrun
    requires ScanTo(I, s, k).next <= SENTINEL + 1
    ensures ScanTo(I, s, k).next - 1 <= Half(I.h) * Half(I.w)
    ensures ScanTo(I, s, k).next <= I.w * I.h / 4
  {
    var ps := SparseOpeners(I, s, k);
    SparseBound(I, ps);
    QuarterIsEnough(I.w, I.h);
  }

  /** There is room for one more label while 254 or fewer are issued. */
  lemma RoomToOpen(I: Image, s: Scan, p: nat)
    requires Fresh(I, s) && p < |I.px| && !ScanTo(I, s, p).overrun
    requires ScanTo(I, s, p).next <= SENTINEL
    requires Asks(ScanTo(I, s, p), Step(I, ScanTo(I, s, p), p))
    ensures ScanTo(I, s, p).next < I.w * I.h / 4
  {
    ScanKeeps(I, s, p);
    AskerIsLonely(I, ScanTo(I, s, p), p, Openers(I, s, p));
    InteriorNeedsRoom(I.w, I.h, p);
    var ps := SparseOpeners(I, s, p);
    assert I.px[p] > 0;
    SparseBound(I, ps + [p]);
    QuarterIsEnough(I.w, I.h);
  }

  lemma NextPositive(I: Image, s: Scan, k: nat)
    requires Fresh(I, s) && k <= |I.px| && !ScanTo(I, s, k).overrun
    ensures ScanTo(I, s, k).next >= 1
  {
    ScanKeeps(I, s, k);
  }

  lemma OverrunMeaning(I: Image, s: Scan, p: nat)
    requires I.w >= 1 && p < |I.px| == |s.out| && !s.overrun && Step(I, s, p).overrun
    ensures Step(I, s, p).next == s.next
    ensures !(0 <= s.next < |s.table|) || s.next >= LABEL_LIMIT
  {
  }

  /** With a table of w*h/4 entries, the pass overruns only after label 255 has been issued. */
  lemma {:induction false} OverrunNeedsSentinel(I: Image, s: Scan, k: nat)
    requires Fresh(I, s) && k <= |I.px| && |s.table| == I.w * I.h / 4
    requires ScanTo(I, s, k).overrun
    ensures ScanTo(I, s, k).next > SENTINEL
  {
    hide Visit, ScanInv;
    var t := ScanTo(I, s, k - 1);
    if t.overrun {
      OverrunNeedsSentinel(I, s, k - 1);
    } else {
      OverrunMeaning(I, t, k - 1);
      if t.next <= SENTINEL {
        RoomToOpen(I, s, k - 1);
        NextPositive(I, s, k - 1);
      }
    }
  }
}
