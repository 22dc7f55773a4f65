/**
  The label table is sized so that it suffices while all labels are visible (BlobBound), but labels from
  255 on are invisible to the minimum: next to one of them every pixel opens a label. On the images below
  the scan needs more labels than the table of width * height / 4 entries has (blob_detect.cpp:41-42, 77-80).
 */
module BlobOverrun {
  import opened PixelGrid
  import opened BlobScan

  /** Five rows of 512 to 1000 pixels: row 1 holds 255 single pixels, at the odd columns up to 509, and row 3
      is full. */
  ghost predicate Example(I: Image, s: Scan) {
    && 512 <= I.w <= 1000 && I.h == 5 && |I.px| == 5 * I.w
    && (forall p :: 0 <= p < |I.px| ==> (I.px[p] > 0 <==>
          Row(I.w, p) == 3 || (Row(I.w, p) == 1 && Col(I.w, p) % 2 == 1 && Col(I.w, p) <= 509)))
    && |s.out| == |I.px| && (forall p :: 0 <= p < |s.out| ==> s.out[p] == 0)
    && |s.table| == I.w * I.h / 4 && s.next == 1 && !s.overrun
  }

  lemma ExampleIsFresh(I: Image, s: Scan)
    requires Example(I, s)
    ensures Fresh(I, s)
  {
  }

  /** Which pixels are active, by row and column. */
  lemma ActiveAt(I: Image, s: Scan, row: int, col: int)
    requires Example(I, s) && 0 <= row < 5 && 0 <= col < I.w
    ensures 0 <= Idx(I.w, row, col) < |I.px|
    ensures Active(I, Idx(I.w, row, col)) <==>
      1 <= col < I.w - 1 && (row == 3 || (row == 1 && col % 2 == 1 && col <= 509))
  {
    Coordinates(I.w, row, col);
  }

  /** An inactive pixel takes no label. */
  lemma InactiveStep(I: Image, s: Scan, k: nat)
    requires I.w >= 1 && k < |I.px| == |s.out| && !Active(I, k)
    ensures ScanTo(I, s, k + 1).next == ScanTo(I, s, k).next && ScanTo(I, s, k + 1).overrun == ScanTo(I, s, k).overrun
  {
  }

  ghost predicate AllHidden(labels: seq<int>) {
    forall i :: 0 <= i < |labels| ==> 0 <= labels[i] && Hidden(labels[i])
  }

  /** An active pixel with only hidden labels around it takes the next label, if there is one. */
  lemma HiddenStep(I: Image, s: Scan, k: nat)
    requires Fresh(I, s) && k < |I.px| && Active(I, k) && !ScanTo(I, s, k).overrun
    requires AllHidden(EarlierLabels(I.w, ScanTo(I, s, k).out, k))
    ensures
      var t, r := ScanTo(I, s, k), ScanTo(I, s, k + 1);
      && (r.overrun <==> !(0 <= t.next < |t.table| && t.next < LABEL_LIMIT))
      && (!r.overrun ==> r.next == t.next + 1 && r.out[k] == t.next)
  {
    hide Active;
    MinLabelMeaning(EarlierLabels(I.w, ScanTo(I, s, k).out, k));
    InteriorOf(I, k);
  }

  /** A scanned pixel has a label exactly when it is active. */
  lemma ScannedLabel(I: Image, s: Scan, k: nat, q: int)
    requires Fresh(I, s) && 0 <= q < k <= |I.px| && !ScanTo(I, s, k).overrun
    ensures At(ScanTo(I, s, k).out, q) >= 0 && (At(ScanTo(I, s, k).out, q) != 0 <==> Active(I, q))
  {
    ScanKeeps(I, s, k);
    hide ScanTo, Active, TableInv, StatsInv, Openers, Connected;
  }

  /** A pixel below inactive ones, with a hidden label or none to its left. */
  lemma HiddenAround(I: Image, s: Scan, row: int, col: int)
    requires Example(I, s) && (row == 1 || row == 3) && 1 <= col < I.w - 1
    requires !ScanTo(I, s, Idx(I.w, row, col)).overrun && Active(I, Idx(I.w, row, col))
    requires Active(I, Idx(I.w, row, col) - 1) ==>
      ScanTo(I, s, Idx(I.w, row, col)).out[Idx(I.w, row, col) - 1] >= SENTINEL
    ensures AllHidden(EarlierLabels(I.w, ScanTo(I, s, Idx(I.w, row, col)).out, Idx(I.w, row, col)))
  {
    hide ScanTo, Active, Example, Fresh, Idx, Hidden;
    var p := Idx(I.w, row, col);
    ExampleIsFresh(I, s);
    ActiveAt(I, s, row, col);
    InactiveAbove(I, s, row, col);
    ScannedLabel(I, s, p, p - I.w - 1);
    ScannedLabel(I, s, p, p - I.w);
    ScannedLabel(I, s, p, p - I.w + 1);
    ScannedLabel(I, s, p, p - 1);
    HiddenLabels(ScanTo(I, s, p).out, I.w, p);
  }

  lemma HiddenLabels(out: seq<int>, w: int, p: int)
    requires At(out, p - w - 1) == 0 && At(out, p - w) == 0 && At(out, p - w + 1) == 0
    requires At(out, p - 1) == 0 || At(out, p - 1) >= SENTINEL
    ensures AllHidden(EarlierLabels(w, out, p))
  {
  }

  /** The rows above rows 1 and 3 are inactive. */
  lemma InactiveAbove(I: Image, s: Scan, row: int, col: int)
    requires Example(I, s) && (row == 1 || row == 3) && 1 <= col < I.w - 1
    ensures
      var p := Idx(I.w, row, col);
      0 <= p - I.w - 1 && !Active(I, p - I.w - 1) && !Active(I, p - I.w) && !Active(I, p - I.w + 1) && I.w >= 512
  {
    AboveIndices(I.w, row, col);
    ActiveAt(I, s, row - 1, col - 1);
    ActiveAt(I, s, row - 1, col);
    ActiveAt(I, s, row - 1, col + 1);
    hide Active, Idx;
  }

  lemma AboveIndices(w: int, row: int, col: int)
    ensures Idx(w, row - 1, col - 1) == Idx(w, row, col) - w - 1 && Idx(w, row - 1, col) == Idx(w, row, col) - w
    ensures Idx(w, row - 1, col + 1) == Idx(w, row, col) - w + 1 && Idx(w, row, col - 1) == Idx(w, row, col) - 1
  {
    assert (row - 1) * w == row * w - w;
  }

  /** A stretch of inactive pixels. */
  lemma {:induction false} InactiveStretch(I: Image, s: Scan, k: nat, m: nat)
    requires I.w >= 1 && k <= m <= |I.px| == |s.out| && forall p :: k <= p < m ==> !Active(I, p)
    ensures ScanTo(I, s, m).next == ScanTo(I, s, k).next && ScanTo(I, s, m).overrun == ScanTo(I, s, k).overrun
    decreases m
  {
    hide ScanTo, Active;
    if k < m {
      InactiveStretch(I, s, k, m - 1);
      InactiveStep(I, s, m - 1);
    }
  }

  /** What the scan does at an interior pixel of row 1 or 3. */
  lemma RowStep(I: Image, s: Scan, row: int, col: int)
    requires Example(I, s) && (row == 1 || row == 3) && 1 <= col < I.w - 1
    ensures 0 <= Idx(I.w, row, col) && Idx(I.w, row, col + 1) == Idx(I.w, row, col) + 1 < |I.px|
    ensures
      var k := Idx(I.w, row, col);
      var t, r := ScanTo(I, s, k), ScanTo(I, s, k + 1);
      && (t.overrun ==> r.overrun)
      && (row == 1 && (col % 2 == 0 || col > 509) ==> r.next == t.next && r.overrun == t.overrun)
      && (!t.overrun && (row == 3 || (col % 2 == 1 && col <= 509))
          && (row == 3 && col > 1 ==> t.out[k - 1] >= SENTINEL) ==>
          && (r.overrun <==> !(0 <= t.next < |s.table| && t.next < LABEL_LIMIT))
          && (!r.overrun ==> r.next == t.next + 1 && r.out[k] == t.next))
  {
    hide ScanTo, Active, Fresh, AllHidden, Idx;
    var k := Idx(I.w, row, col);
    ExampleIsFresh(I, s);
    TableHolds(I, s);
    hide Example;
    ActiveAt(I, s, row, col);
    ActiveAt(I, s, row, col - 1);
    ActiveAt(I, s, row, col + 1);
    AboveIndices(I.w, row, col);
    AboveIndices(I.w, row, col + 1);
    if ScanTo(I, s, k).overrun {
      OverrunSticks(I, s, k, k + 1);
    }
    if !Active(I, k) {
      InactiveStep(I, s, k);
    } else if !ScanTo(I, s, k).overrun && (row == 3 && col > 1 ==> ScanTo(I, s, k).out[k - 1] >= SENTINEL) {
      HiddenAround(I, s, row, col);
      HiddenStep(I, s, k);
    }
  }

  /** Row 1: every single pixel opens a label. */
  lemma {:induction false} FirstRow(I: Image, s: Scan, col: nat)
    requires Example(I, s) && 1 <= col <= 510
    ensures 0 <= Idx(I.w, 1, col) < |I.px| && !ScanTo(I, s, Idx(I.w, 1, col)).overrun
    ensures ScanTo(I, s, Idx(I.w, 1, col)).next == 1 + col / 2
  {
    hide ScanTo, Active, Example, Idx;
    TableHolds(I, s);
    ActiveAt(I, s, 1, col);
    if col == 1 {
      RowZero(I, s);
    } else {
      FirstRow(I, s, col - 1);
      RowStep(I, s, 1, col - 1);
    }
  }

  lemma TableHolds(I: Image, s: Scan)
    requires Example(I, s)
    ensures 512 <= I.w <= 1000 && 600 <= |s.table| == 5 * I.w / 4 && |s.out| == |I.px|
  {
  }

  lemma RowZero(I: Image, s: Scan)
    requires Example(I, s)
    ensures ScanTo(I, s, Idx(I.w, 1, 1)).next == 1 && !ScanTo(I, s, Idx(I.w, 1, 1)).overrun
  {
    forall p | 0 <= p < Idx(I.w, 1, 1)
      ensures !Active(I, p)
    {
      FromCoordinates(I.w, p);
    }
    InactiveStretch(I, s, 0, Idx(I.w, 1, 1));
  }

  /** The rest of row 1, row 2 and the border before row 3 change nothing. */
  lemma UpToRowThree(I: Image, s: Scan)
    requires Example(I, s)
    ensures ScanTo(I, s, Idx(I.w, 3, 1)).next == 256 && !ScanTo(I, s, Idx(I.w, 3, 1)).overrun
  {
    FirstRow(I, s, 510);
    forall p | Idx(I.w, 1, 510) <= p < Idx(I.w, 3, 1)
      ensures !Active(I, p)
    {
      FromCoordinates(I.w, p);
    }
    hide ScanTo, Active;
    InactiveStretch(I, s, Idx(I.w, 1, 510), Idx(I.w, 3, 1));
  }

  /** Row 3: every pixel opens a label, for as long as there are any. */
  lemma {:induction false} FullRow(I: Image, s: Scan, col: nat)
    requires Example(I, s) && 1 <= col <= I.w - 1
    ensures 0 <= Idx(I.w, 3, col) < |I.px|
    ensures
      var t := ScanTo(I, s, Idx(I.w, 3, col));
      !t.overrun ==> t.next == 255 + col && (col > 1 ==> t.out[Idx(I.w, 3, col) - 1] == t.next - 1)
  {
    hide ScanTo, Active, Example, Idx;
    TableHolds(I, s);
    ActiveAt(I, s, 3, col);
    if col == 1 {
      UpToRowThree(I, s);
    } else {
      FullRow(I, s, col - 1);
      RowStep(I, s, 3, col - 1);
    }
  }

  /** On every such image the scan asks for a label that the table does not hold. */
  lemma FullRowOverruns(I: Image, s: Scan)
    requires Example(I, s)
    ensures I.w >= 1 && |I.px| == |s.out| && ScanTo(I, s, |I.px|).overrun
  {
    var k := Idx(I.w, 3, I.w - 1);
    ExampleIsFresh(I, s);
    TableHolds(I, s);
    FullRow(I, s, I.w - 1);
    hide ScanTo, Example, Idx, Fresh;
    if !ScanTo(I, s, k).overrun {
      NextInTable(I, s, k);
    }
    OverrunSticks(I, s, k, |I.px|);
  }

  /** There is such an image for each of those widths, scanned from a blank output and an empty table. */
  lemma ExampleExists(w: nat) returns (I: Image, s: Scan)
    requires 512 <= w <= 1000
    ensures Example(I, s) && I.w == w
    ensures s == Scan(seq(5 * w, _ => 0), seq(w * 5 / 4, _ => UNUSED), 1, false)
  {
    var active := (p: int) => p >= 0 && (Row(w, p) == 3 || (Row(w, p) == 1 && Col(w, p) % 2 == 1 && Col(w, p) <= 509));
    I := Image(w, 5, seq(5 * w, p requires 0 <= p < 5 * w => if active(p) then 1 else 0));
    s := Scan(seq(5 * w, _ => 0), seq(w * 5 / 4, _ => UNUSED), 1, false);
  }

  lemma NextInTable(I: Image, s: Scan, k: nat)
    requires Fresh(I, s) && k <= |I.px| && !ScanTo(I, s, k).overrun
    ensures ScanTo(I, s, k).next <= |s.table| || ScanTo(I, s, k).next == 1
  {
    ScanKeeps(I, s, k);
  }
}
