/**
  blob_detect (blob_detect.cpp:36-232) up to the drawing at its end: the raster labelling
  pass, the ascending redirect pass, the descending merge of statistics, the relabelling of
  the output image and the choice of the biggest blob, on arrays updated in place.
 */
module BlobDetect {
  import CInt
  import opened PixelGrid
  import opened BlobStats
  import opened BlobScan
  import opened BlobBound
  import opened BlobComplete
  import opened BlobForks
  import opened BlobLinks
  import opened BlobMerge
  import opened BlobRoom

  // ----- the labelling pass -----

  /** Statistics of a label that gains a pixel, field by field. */
  method GrowStats(stats: Stats, row: int, col: int) returns (s: Stats)
    ensures s == Grow(stats, col, row)
  {
    s := stats;
    if s.xMin > col { s := s.(xMin := col); }
    if s.xMax < col { s := s.(xMax := col); }
    if s.yMin > row { s := s.(yMin := row); }
    if s.yMax < row { s := s.(yMax := row); }
    s := s.(mass := s.mass + 1);
    s := s.(sumX := s.sumX + col);
    s := s.(sumY := s.sumY + row);
  }

  /** The table updates of a join. */
  method JoinLabels(blobs: array<Blob>, m: int, row: int, col: int, a: int, b: int, c: int, d: int)
    requires 0 <= m < blobs.Length
    requires 0 <= a < blobs.Length && 0 <= b < blobs.Length && 0 <= c < blobs.Length && 0 <= d < blobs.Length
    modifies blobs
    ensures
      var grown := old(blobs[..])[m := old(blobs[m]).(stats := Grow(old(blobs[m].stats), col, row))];
      blobs[..] == RelinkAll(grown, [a, b, c, d], m)
  {
    hide RelinkAll, Grow;
    var s := GrowStats(blobs[m].stats, row, col);
    blobs[m] := blobs[m].(stats := s);
    ghost var t0 := blobs[..];
    if a != m { blobs[a] := blobs[a].(lbl := m); }
    ghost var t1 := blobs[..];
    assert t1 == Relink(t0, a, m);
    if b != m { blobs[b] := blobs[b].(lbl := m); }
    ghost var t2 := blobs[..];
    assert t2 == Relink(t1, b, m);
    if c != m { blobs[c] := blobs[c].(lbl := m); }
    ghost var t3 := blobs[..];
    assert t3 == Relink(t2, c, m);
    if d != m { blobs[d] := blobs[d].(lbl := m); }
    assert blobs[..] == Relink(t3, d, m);
    RelinkFour(t0, a, b, c, d, m);
  }

  ghost function StateOf(output: array<int>, blobs: array<Blob>, next: int, overrun: bool): Scan
    reads output, blobs
  {
    Scan(output[..], blobs[..], next, overrun)
  }

  /** The flat indices of the earlier neighbours. */
  lemma NeighbourIndices(w: int, row: int, col: int)
    ensures Idx(w, row - 1, col - 1) == Idx(w, row, col) - w - 1
    ensures Idx(w, row - 1, col) == Idx(w, row, col) - w
    ensures Idx(w, row - 1, col + 1) == Idx(w, row, col) - w + 1
    ensures Idx(w, row, col - 1) == Idx(w, row, col) - 1
  {
  }

  /** `p` is the flat index of an interior pixel. */
  ghost predicate InteriorAt(w: int, h: int, row: int, col: int, p: int) {
    && 1 <= row < h - 1 && 1 <= col < w - 1 && p == Idx(w, row, col)
    && Row(w, p) == row && Col(w, p) == col && p - w - 1 >= 0
  }

  /** The minimum and the four conditional assignments that compute it. */
  method LeastLabel(a: int, b: int, c: int, d: int) returns (m: int)
    ensures m == MinLabel([a, b, c, d])
  {
    m := SENTINEL;
    if a != 0 && a < m { m := a; }
    if b != 0 && b < m { m := b; }
    if c != 0 && c < m { m := c; }
    if d != 0 && d < m { m := d; }
    MinLabelFour(a, b, c, d);
  }

  /** The labels around an active pixel are entries of the table once one is issued. */
  lemma TableCovers(I: Image, s: Scan, p: int, rep: seq<int>)
    requires I.w >= 1 && ScanInv(I, s, p, rep) && p < |s.out| && Active(I, p)
    ensures s.next >= 1
    ensures
      var labels := EarlierLabels(I.w, s.out, p);
      MinLabel(labels) == SENTINEL ||
      (1 <= MinLabel(labels) < |s.table|
       && 0 <= labels[0] < |s.table| && 0 <= labels[1] < |s.table|
       && 0 <= labels[2] < |s.table| && 0 <= labels[3] < |s.table|)
  {
    var labels := EarlierLabels(I.w, s.out, p);
    AllNear(I, s.out, s.next, p, rep, labels);
    if MinLabel(labels) != SENTINEL {
      JoinLinks(I, s.next, p, rep, MinLabel(labels), labels);
      assert Near(I, s.next, rep, p, labels[0]) && Near(I, s.next, rep, p, labels[1]);
      assert Near(I, s.next, rep, p, labels[2]) && Near(I, s.next, rep, p, labels[3]);
    }
  }

  /** The body of the raster loop: exactly one step of the specified scan. */
  method LabelPixel(output: array<int>, input: array<int>, blobs: array<Blob>, width: int, height: int,
                    row: int, col: int, counter: int, ghost I: Image, ghost p: int, ghost rep: seq<int>)
    returns (next: int, overrun: bool)
    requires InteriorAt(width, height, row, col, p) && p < output.Length == input.Length
    requires input != output && I == Image(width, height, input[..])
    requires ScanInv(I, StateOf(output, blobs, counter, false), p, rep)
    modifies output, blobs
    ensures StateOf(output, blobs, next, overrun) == Visit(I, old(StateOf(output, blobs, counter, false)), p)
  {
    ghost var s := StateOf(output, blobs, counter, false);
    hide MinLabel, RelinkAll, Row, Col, ScanInv, Grow;
    NeighbourIndices(width, row, col);
    next, overrun := counter, false;
    output[Idx(width, row, col)] := 0;
    var lblX := 0;
    if input[Idx(width, row, col)] > 0 {
      var lblA := output[Idx(width, row - 1, col - 1)];
      var lblB := output[Idx(width, row - 1, col)];
      var lblC := output[Idx(width, row - 1, col + 1)];
      var lblD := output[Idx(width, row, col - 1)];
      assert [lblA, lblB, lblC, lblD] == EarlierLabels(width, s.out, p);
      TableCovers(I, s, p, rep);
      var minLabel := LeastLabel(lblA, lblB, lblC, lblD);
      if minLabel == SENTINEL {
        if counter >= blobs.Length || counter >= LABEL_LIMIT {
          overrun := true;
          return;
        }
        lblX := counter;
        next := counter + 1;
        blobs[lblX] := blobs[lblX].(lbl := lblX, stats := Stats(1, col, row, col, col, row, row));
      } else {
        lblX := minLabel;
        JoinLabels(blobs, minLabel, row, col, lblA, lblB, lblC, lblD);
      }
    }
    output[Idx(width, row, col)] := lblX;
  }

  lemma {:induction false} SkipBorder(I: Image, s: Scan, k: nat, m: nat)
    requires I.w >= 1 && k <= m <= |I.px| == |s.out|
    requires forall p :: k <= p < m ==> !Interior(I.w, I.h, p)
    ensures ScanTo(I, s, m) == ScanTo(I, s, k)
  {
    hide Visit, Interior;
    if k < m {
      SkipBorder(I, s, k, m - 1);
    }
  }

  lemma CoordinatesInRow(w: int, row: int, p: int)
    requires w >= 1 && row >= 0 && row * w <= p < row * w + w
    ensures Row(w, p) == row && Col(w, p) == p - row * w
  {
    Coordinates(w, row, p - row * w);
  }

  lemma {:induction false} BelowRow(w: int, row: int, p: int)
    requires w >= 1 && row >= 0 && row * w <= p
    ensures Row(w, p) >= row
    decreases row
  {
    if row > 0 {
      assert (row - 1) * w == row * w - w;
      assert row * w >= w by { MulAtLeast(w, row); }
      BelowRow(w, row - 1, p - w);
    } else {
      FromCoordinates(w, p);
    }
  }

  lemma RowBorder(w: int, h: int, row: int, from: int, to: int)
    requires w >= 1 && row >= 0 && row * w <= from && to <= row * w + w
    requires row == 0 || row >= h - 1 || to <= row * w + 1 || from >= row * w + w - 1
    ensures forall p :: from <= p < to ==> !Interior(w, h, p)
  {
    forall p | from <= p < to ensures !Interior(w, h, p) { CoordinatesInRow(w, row, p); }
  }

  /** What the scan does at an interior pixel. */
  lemma ScanInterior(I: Image, s: Scan, row: int, col: int, p: nat)
    requires Fresh(I, s) && p < |I.px| && p == row * I.w + col
    requires 1 <= row < I.h - 1 && 1 <= col < I.w - 1 && !ScanTo(I, s, p).overrun
    ensures InteriorAt(I.w, I.h, row, col, p)
    ensures ScanTo(I, s, p + 1) == Visit(I, ScanTo(I, s, p), p)
    ensures ScanInv(I, ScanTo(I, s, p), p, Openers(I, s, p))
  {
    hide Visit, ScanInv;
    CoordinatesInRow(I.w, row, p);
    EarlierNeighbours(I.w, I.h, p);
    ScanKeeps(I, s, p);
  }

  /** One row of the raster loop. */
  method LabelRow(output: array<int>, input: array<int>, blobs: array<Blob>, width: int, height: int,
                  row: int, counter: int, ghost I: Image, ghost s: Scan, ghost k: nat)
    returns (labelCounter: int, overrun: bool)
    requires width >= 1 && 1 <= row < height - 1 && input != output && k == row * width
    requires input.Length == output.Length && k + width <= output.Length
    requires I == Image(width, height, input[..]) && Fresh(I, s)
    requires StateOf(output, blobs, counter, false) == ScanTo(I, s, k)
    modifies output, blobs
    ensures StateOf(output, blobs, labelCounter, overrun) == ScanTo(I, s, k + width)
  {
    hide Visit, ScanInv, ScanTo, Openers, InteriorAt, Fresh, Interior;
    labelCounter, overrun := counter, false;
    var col := 1;
    RowBorder(width, height, row, k, k + 1);
    SkipBorder(I, s, k, k + 1);
    while col < width - 1
      invariant 1 <= col && (col <= width - 1 || col == 1)
      invariant !overrun && StateOf(output, blobs, labelCounter, false) == ScanTo(I, s, k + col)
    {
      ghost var p := k + col;
      ScanInterior(I, s, row, col, p);
      labelCounter, overrun := LabelPixel(output, input, blobs, width, height, row, col, labelCounter,
                                          I, p, Openers(I, s, p));
      if overrun {
        OverrunSticks(I, s, p + 1, k + width);
        return;
      }
      col := col + 1;
    }
    RowBorder(width, height, row, k + col, k + width);
    SkipBorder(I, s, k + col, k + width);
  }

  lemma RowFits(w: int, h: int, row: int)
    requires w >= 0 && 0 <= row < h
    ensures row * w + w == (row + 1) * w <= w * h && 0 <= row * w
  {
    CInt.Grows(row + 1, h, w);
    CInt.Grows(0, row, w);
  }

  lemma LastRows(w: int, h: int, row: int)
    requires w >= 1 && row >= h - 1 && row >= 0
    ensures forall p :: row * w <= p ==> !Interior(w, h, p)
  {
    forall p | row * w <= p ensures !Interior(w, h, p) { BelowRow(w, row, p); }
  }

  /** The raster loop computes the specified scan of the whole image. */
  method LabelPass(output: array<int>, input: array<int>, blobs: array<Blob>, width: int, height: int)
    returns (labelCounter: int, overrun: bool)
    requires width >= 1 && height >= 1 && input != output
    requires input.Length == output.Length == width * height
    requires Fresh(Image(width, height, input[..]), StateOf(output, blobs, 1, false))
    modifies output, blobs
    ensures StateOf(output, blobs, labelCounter, overrun)
         == ScanTo(Image(width, height, input[..]), old(StateOf(output, blobs, 1, false)), output.Length)
  {
    hide Visit, ScanInv, Interior;
    ghost var I := Image(width, height, input[..]);
    ghost var s := StateOf(output, blobs, 1, false);
    labelCounter, overrun := 1, false;
    var row := 1;
    RowFits(width, height, 0);
    RowBorder(width, height, 0, 0, width);
    SkipBorder(I, s, 0, width);
    while row < height - 1
      invariant 1 <= row <= height
      invariant 0 <= row * width <= output.Length
      invariant !overrun && StateOf(output, blobs, labelCounter, false) == ScanTo(I, s, row * width)
    {
      RowFits(width, height, row);
      labelCounter, overrun := LabelRow(output, input, blobs, width, height, row, labelCounter, I, s, row * width);
      if overrun {
        OverrunSticks(I, s, row * width + width, output.Length);
        return;
      }
      row := row + 1;
    }
    LastRows(width, height, row);
    SkipBorder(I, s, row * width, output.Length);
  }

  // ----- the redirect pass -----

  /** One ascending pass leaves every issued label pointing at the root of its original chain. */
  method RedirectPass(blobs: array<Blob>, labelCounter: int)
    requires Downward(blobs[..], labelCounter)
    modifies blobs
    ensures FlatBelow(old(blobs[..]), blobs[..], labelCounter, labelCounter)
  {
    ghost var before := blobs[..];
    var i := 1;
    while i < labelCounter
      invariant 1 <= i <= labelCounter
      invariant FlatBelow(before, blobs[..], labelCounter, i)
    {
      RedirectFlattens(before, blobs[..], labelCounter, i);
      ghost var was := blobs[..];
      if blobs[i].lbl != i {
        blobs[i] := blobs[i].(lbl := blobs[blobs[i].lbl].lbl);
      }
      assert blobs[..] == Redirect(was, i);
      i := i + 1;
    }
  }

  // ----- the merge pass -----

  /** The field-by-field merge of entry `s` into entry `d`. */
  method MergeStats(d: Stats, s: Stats) returns (r: Stats)
    requires d.mass > 0 && s.mass > 0
    ensures r == Merge(d, s)
  {
    r := d;
    if r.xMin > s.xMin { r := r.(xMin := s.xMin); }
    if r.xMax < s.xMax { r := r.(xMax := s.xMax); }
    if r.yMin > s.yMin { r := r.(yMin := s.yMin); }
    if r.yMax < s.yMax { r := r.(yMax := s.yMax); }
    r := r.(mass := r.mass + s.mass);
    r := r.(sumX := r.sumX + s.sumX);
    r := r.(sumY := r.sumY + s.sumY);
  }

  /** What the turn for label `i` does to the record. */
  lemma RecordStep(w: int, out: seq<int>, before: seq<Blob>, now: seq<Blob>, next: int, cons: seq<Blob>, i: int)
    requires w >= 1 && MergedAbove(w, out, before, now, next, i) && 1 <= i
    requires RecordedFrom(w, out, before, next, cons, i + 1)
    ensures before[i].lbl != i ==> RecordedFrom(w, out, before, next, cons, i)
    ensures before[i].lbl == i ==> now[i].stats.mass > 0
    ensures before[i].lbl == i ==> RecordedFrom(w, out, before, next, cons + [Recorded(|cons|, now[i].stats)], i)
  {
    if before[i].lbl == i {
      MergeRoot(w, out, before, now, next, i);
    }
  }

  /** Merge redirected entries into their roots, from the last label down, and record each root. */
  method MergePass(blobs: array<Blob>, consolidated: array<Blob>, labelCounter: int, ghost w: int, ghost out: seq<int>)
    returns (numBlobs: int)
    requires w >= 1 && blobs != consolidated && consolidated.Length == labelCounter
    requires Flat(w, out, blobs[..], labelCounter)
    modifies blobs, consolidated
    ensures 0 <= numBlobs < labelCounter
    ensures RecordedFrom(w, out, old(blobs[..]), labelCounter, consolidated[..numBlobs], 1)
    ensures forall l :: 0 <= l < blobs.Length ==> blobs[l].lbl == old(blobs[l].lbl)
  {
    hide Flat, MergedEntry, RecordedFrom;
    ghost var before := blobs[..];
    numBlobs := 0;
    var i := labelCounter - 1;
    FlatBounds(w, out, before, labelCounter);
    MergeStarts(w, out, before, labelCounter);
    RecordStart(w, out, before, labelCounter);
    assert consolidated[..0] == [];
    while i > 0
      invariant 0 <= i < labelCounter && 0 <= numBlobs < labelCounter - i
      invariant MergedAbove(w, out, before, blobs[..], labelCounter, i)
      invariant RecordedFrom(w, out, before, labelCounter, consolidated[..numBlobs], i + 1)
    {
      ghost var now, cons := blobs[..], consolidated[..numBlobs];
      RecordStep(w, out, before, now, labelCounter, cons, i);
      if blobs[i].lbl != i {
        var d := blobs[i].lbl;
        MergeChild(w, out, before, now, labelCounter, i);
        var merged := MergeStats(blobs[d].stats, blobs[i].stats);
        blobs[d] := blobs[d].(stats := merged);
        assert blobs[..] == now[d := now[d].(stats := Merge(now[d].stats, now[i].stats))];
      } else {
        MergeRoot(w, out, before, now, labelCounter, i);
        var s := blobs[i].stats;
        consolidated[numBlobs] := Blob(numBlobs, s, s.sumX / s.mass, s.sumY / s.mass);
        numBlobs := numBlobs + 1;
        assert consolidated[..numBlobs] == cons + [Recorded(|cons|, s)];
      }
      i := i - 1;
    }
  }

  lemma FlatBounds(w: int, out: seq<int>, table: seq<Blob>, next: int)
    requires w >= 1 && Flat(w, out, table, next)
    ensures 1 <= next && (next <= |table| || next == 1)
    ensures forall l :: 1 <= l < next ==> 1 <= table[l].lbl <= l
  {
  }

  lemma RecordStart(w: int, out: seq<int>, table: seq<Blob>, next: int)
    requires w >= 1
    ensures RecordedFrom(w, out, table, next, [], next)
  {
  }

  // ----- relabelling and the biggest blob -----

  ghost predicate LabelsIn(out: seq<int>, table: seq<Blob>) {
    forall p :: 0 <= p < |out| ==> out[p] == 0 || 0 <= out[p] < |table|
  }

  /** Replace the label of every interior pixel by the label it is redirected to. */
  method RelabelPass(output: array<int>, blobs: array<Blob>, width: int, height: int)
    requires width >= 1 && height >= 1 && output.Length == width * height
    requires LabelsIn(output[..], blobs[..])
    requires forall p :: 0 <= p < output.Length && !Interior(width, height, p) ==> output[p] == 0
    modifies output
    ensures Relabelled(old(output[..]), blobs[..], output[..])
  {
    ghost var out := output[..];
    var row := 1;
    RowFits(width, height, 0);
    RowBorder(width, height, 0, 0, width);
    while row < height - 1
      invariant 1 <= row <= height && 0 <= row * width <= output.Length
      invariant RelabelledTo(out, blobs[..], output[..], row * width)
    {
      RowFits(width, height, row);
      RelabelRow(output, blobs, width, height, row, out, row * width);
      row := row + 1;
    }
    LastRows(width, height, row);
  }

  /** The first `k` pixels are relabelled, the others untouched. */
  ghost predicate RelabelledTo(out: seq<int>, table: seq<Blob>, now: seq<int>, k: int) {
    && |now| == |out| && 0 <= k <= |out|
    && (forall p :: 0 <= p < |out| ==> out[p] == 0 || 0 <= out[p] < |table|)
    && (forall p :: 0 <= p < k ==> now[p] == if out[p] != 0 then table[out[p]].lbl else 0)
    && (forall p :: k <= p < |out| ==> now[p] == out[p])
  }

  method RelabelRow(output: array<int>, blobs: array<Blob>, width: int, height: int, row: int,
                    ghost out: seq<int>, ghost k: nat)
    requires width >= 1 && 1 <= row < height - 1 && k == row * width && k + width <= output.Length
    requires RelabelledTo(out, blobs[..], output[..], k)
    requires forall p :: 0 <= p < output.Length && !Interior(width, height, p) ==> out[p] == 0
    modifies output
    ensures RelabelledTo(out, blobs[..], output[..], k + width)
  {
    RowBorder(width, height, row, k, k + 1);
    var col := 1;
    while col < width - 1
      invariant 1 <= col && (col <= width - 1 || col == 1)
      invariant RelabelledTo(out, blobs[..], output[..], k + col)
    {
      if output[Idx(width, row, col)] != 0 {
        output[Idx(width, row, col)] := blobs[output[Idx(width, row, col)]].lbl;
      }
      col := col + 1;
    }
    RowBorder(width, height, row, k + col, k + width);
  }

  /** The first of the recorded blobs with the greatest mass. */
  method FindBiggest(consolidated: array<Blob>, numBlobs: int) returns (biggest: int)
    requires 0 <= numBlobs <= consolidated.Length
    ensures numBlobs == 0 ==> biggest == 0
    ensures numBlobs > 0 ==> 0 <= biggest < numBlobs
    ensures forall i :: 0 <= i < numBlobs ==> consolidated[i].stats.mass <= consolidated[biggest].stats.mass
    ensures forall i :: 0 <= i < biggest ==> consolidated[i].stats.mass < consolidated[biggest].stats.mass
  {
    biggest := 0;
    var i := 0;
    while i < numBlobs
      invariant 0 <= i <= numBlobs
      invariant biggest == 0 || 0 <= biggest < i
      invariant forall j :: 0 <= j < i ==> consolidated[j].stats.mass <= consolidated[biggest].stats.mass
      invariant forall j :: 0 <= j < biggest ==> consolidated[j].stats.mass < consolidated[biggest].stats.mass
    {
      if consolidated[i].stats.mass > consolidated[biggest].stats.mass {
        biggest := i;
      }
      i := i + 1;
    }
  }

  // ----- the whole detection -----

  /** The state blob_detect starts in: a zeroed table of width * height / 4 entries. */
  function Start(w: int, h: int, out: seq<int>): Scan
    requires w * h >= 0
  {
    Scan(out, seq(w * h / 4, _ => UNUSED), 1, false)
  }

  /** Exactly the active pixels are labelled, and equal labels are 8-connected. */
  ghost predicate SoundLabelling(I: Image, out: seq<int>)
    requires I.w >= 1
  {
    && |out| == |I.px|
    && (forall p :: 0 <= p < |out| ==> (out[p] != 0 <==> Active(I, p)))
    && (forall p, q :: 0 <= p < |out| && 0 <= q < |out| && out[p] != 0 && out[p] == out[q] ==> Connected(I, p, q))
  }

  /** The pixels labelled `l`. */
  ghost function PixelsOf(out: seq<int>, l: int): set<int> { BlobStats.Members(out, {l}, |out|) }

  /** `b` has the number of pixels labelled `l`, the sums of their coordinates, their bounding box and
      their centroid. */
  ghost predicate Describes(w: int, out: seq<int>, b: Blob, l: int)
    requires w >= 1
  {
    var n, x, y := |PixelsOf(out, l)|, ColumnSum(out, w, {l}, |out|), RowSum(out, w, {l}, |out|);
    && b.stats.mass == n > 0 && b.stats.sumX == x && b.stats.sumY == y
    && TightBox(b.stats, w, PixelsOf(out, l))
    && b.centroidX == x / n && b.centroidY == y / n
  }

  /** `b` describes some blob, and no blob has more pixels. */
  ghost predicate IsBiggest(w: int, out: seq<int>, b: Blob)
    requires w >= 1
  {
    && (exists l :: l in FinalLabels(out) && Describes(w, out, b, l))
    && (forall l :: l in FinalLabels(out) ==> |PixelsOf(out, l)| <= b.stats.mass)
  }

  /** A recount with its centroid describes the pixels it counts. */
  lemma RecountDescribes(w: int, out: seq<int>, b: Blob, l: int)
    requires w >= 1
    requires var s := Recount(out, w, {l}, |out|);
      s.mass > 0 && b.stats == s && b.centroidX == s.sumX / s.mass && b.centroidY == s.sumY / s.mass
    ensures Describes(w, out, b, l)
  {
    hide Recount, ColumnSum, RowSum, TightBox;
    RecountMeaning(out, w, {l}, |out|);
    RecountTotals(out, w, {l}, |out|);
  }

  /** After the redirect pass the table is flat and holds each label's own recount. */
  lemma FlatAfterRedirect(I: Image, s: Scan, rep: seq<int>, flat: seq<Blob>)
    requires I.w >= 1 && |I.px| == |s.out| && ScanInv(I, s, |s.out|, rep)
    requires FlatBelow(s.table, flat, s.next, s.next)
    ensures |flat| == |s.table|
    ensures Flat(I.w, s.out, flat, s.next)
    ensures forall l :: 1 <= l < s.next ==> flat[l].lbl == Root(s.table, l)
    ensures forall l :: 1 <= l < s.next ==> l in s.out
  {
    forall l | 1 <= l < s.next
      ensures 1 <= flat[l].lbl <= l && flat[flat[l].lbl].lbl == flat[l].lbl
      ensures flat[l].stats.mass > 0 && l in s.out
    {
      RootMeaning(s.table, s.next, l);
      var r := Root(s.table, l);
      RootMeaning(s.table, s.next, r);
      assert flat[r] == s.table[r].(lbl := Root(s.table, r));
      assert s.out[rep[l]] == l;
      RecountPositive(s.out, I.w, {l}, |s.out|, rep[l]);
    }
  }

  /** The relabelled image is a sound labelling. */
  lemma RelabelledSound(I: Image, s: Scan, rep: seq<int>, flat: seq<Blob>, now: seq<int>)
    requires I.w >= 1 && |I.px| == |s.out| && ScanInv(I, s, |s.out|, rep)
    requires Flat(I.w, s.out, flat, s.next)
    requires forall l :: 1 <= l < s.next ==> flat[l].lbl == Root(s.table, l)
    requires Relabelled(s.out, flat, now)
    ensures SoundLabelling(I, now)
  {
    forall p, q | 0 <= p < |now| && 0 <= q < |now| && now[p] != 0 && now[p] == now[q]
      ensures Connected(I, p, q)
    {
      SameRootConnected(I, s, |s.out|, rep, p, q);
    }
    forall p | 0 <= p < |now|
      ensures now[p] != 0 <==> Active(I, p)
    {
      assert s.out[p] != 0 <==> Active(I, p);
    }
  }

  /** The relabelled image holds the roots of the scan's own links. */
  lemma RelabelledIsFinal(I: Image, s: Scan, rep: seq<int>, flat: seq<Blob>, now: seq<int>)
    requires I.w >= 1 && |I.px| == |s.out| && ScanInv(I, s, |s.out|, rep)
    requires |flat| == |s.table| && Relabelled(s.out, flat, now)
    requires forall l :: 1 <= l < s.next ==> flat[l].lbl == Root(s.table, l)
    ensures now == FinalImage(s)
  {
    forall p | 0 <= p < |now|
      ensures now[p] == FinalImage(s)[p]
    {
      assert 0 <= s.out[p] < s.next;
    }
  }

  ghost function ActivePixels(I: Image): set<int>
    requires I.w >= 1
  {
    set p | 0 <= p < |I.px| && Active(I, p)
  }

  /** One record for each final label, from the highest down, numbered in this order, each describing
      that label's pixels. */
  ghost predicate DescribesAll(w: int, out: seq<int>, blobs: seq<Blob>)
    requires w >= 1
  {
    exists labels: seq<int> ::
      && |labels| == |blobs| && Descending(labels) && Elements(labels) == FinalLabels(out)
      && forall k :: 0 <= k < |blobs| ==> blobs[k].lbl == k && Describes(w, out, blobs[k], labels[k])
  }

  /** `b` is the first of the blobs with the greatest mass. */
  ghost predicate FirstGreatest(blobs: seq<Blob>, b: int) {
    && 0 <= b < |blobs|
    && (forall i :: 0 <= i < |blobs| ==> blobs[i].stats.mass <= blobs[b].stats.mass)
    && (forall i :: 0 <= i < b ==> blobs[i].stats.mass < blobs[b].stats.mass)
  }

  /** The recorded blobs describe the relabelled image, and their masses total its active pixels. */
  lemma RecordedDescribes(
      I: Image, out: seq<int>, table: seq<Blob>, next: int, now: seq<int>, cons: seq<Blob>)
    requires I.w >= 1 && Flat(I.w, out, table, next) && Relabelled(out, table, now)
    requires forall l :: 1 <= l < next ==> l in out
    requires RecordedFrom(I.w, out, table, next, cons, 1) && SoundLabelling(I, now)
    ensures DescribesAll(I.w, now, cons) && TotalMass(cons) == |ActivePixels(I)|
  {
    FlatNext(I.w, out, table, next);
    hide Flat, Relabelled, RootsFrom, RecordedFrom, SoundLabelling, DescribesAll, Elements;
    hide FinalLabels, Labelled, ActivePixels;
    var w, roots := I.w, RootsFrom(table, next, 1);
    LabelledAreActive(I, now);
    RootsDescend(table, next);
    FinalLabelsAreRoots(w, out, table, next, now);
    MassesTotal(w, out, table, next, now);
    AllRecordsDescribe(w, out, table, next, now, cons);
    hide Descending;
    MassesOfRecords(w, now, cons, roots);
    RecordsDescribe(w, now, cons, roots);
  }

  lemma FlatNext(w: int, out: seq<int>, table: seq<Blob>, next: int)
    requires w >= 1 && Flat(w, out, table, next)
    ensures 1 <= next && (next <= |table| || next == 1)
  {
  }

  lemma LabelledAreActive(I: Image, now: seq<int>)
    requires I.w >= 1 && SoundLabelling(I, now)
    ensures Labelled(now) == ActivePixels(I)
  {
  }

  lemma RootsDescend(table: seq<Blob>, next: int)
    requires 1 <= next && (next <= |table| || next == 1)
    ensures Descending(RootsFrom(table, next, 1))
  {
    RootsMeaning(table, next, 1);
  }

  lemma RecordsDescribe(w: int, out: seq<int>, blobs: seq<Blob>, labels: seq<int>)
    requires w >= 1 && |labels| == |blobs| && Descending(labels) && Elements(labels) == FinalLabels(out)
    requires forall k :: 0 <= k < |blobs| ==> blobs[k].lbl == k && Describes(w, out, blobs[k], labels[k])
    ensures DescribesAll(w, out, blobs)
  {
  }

  lemma MassesOfRecords(w: int, out: seq<int>, blobs: seq<Blob>, labels: seq<int>)
    requires w >= 1 && |labels| == |blobs|
    requires forall k :: 0 <= k < |blobs| ==> Describes(w, out, blobs[k], labels[k])
    ensures TotalMass(blobs) == SumMass(out, w, labels)
  {
    hide Recount, ColumnSum, RowSum, TightBox;
    forall k | 0 <= k < |blobs|
      ensures blobs[k].stats.mass == Recount(out, w, {labels[k]}, |out|).mass
    {
      RecountMeaning(out, w, {labels[k]}, |out|);
    }
    TotalIsSum(w, out, labels, blobs);
  }

  lemma AllRecordsDescribe(w: int, out: seq<int>, table: seq<Blob>, next: int, now: seq<int>, cons: seq<Blob>)
    requires w >= 1 && Flat(w, out, table, next) && Relabelled(out, table, now)
    requires RecordedFrom(w, out, table, next, cons, 1)
    ensures |RootsFrom(table, next, 1)| == |cons|
    ensures forall k :: 0 <= k < |cons| ==> cons[k].lbl == k && Describes(w, now, cons[k], RootsFrom(table, next, 1)[k])
  {
    RecordedSize(w, out, table, next, cons);
    hide Flat, Relabelled, RootsFrom, RecordedFrom, Describes;
    forall k | 0 <= k < |cons|
      ensures cons[k].lbl == k && Describes(w, now, cons[k], RootsFrom(table, next, 1)[k])
    {
      RecordDescribes(w, out, table, next, now, cons, k);
    }
  }

  lemma RecordDescribes(w: int, out: seq<int>, table: seq<Blob>, next: int, now: seq<int>, cons: seq<Blob>, k: nat)
    requires w >= 1 && Flat(w, out, table, next) && Relabelled(out, table, now)
    requires RecordedFrom(w, out, table, next, cons, 1) && k < |cons|
    ensures |RootsFrom(table, next, 1)| == |cons| && cons[k].lbl == k
    ensures Describes(w, now, cons[k], RootsFrom(table, next, 1)[k])
  {
    RootsMeaning(table, next, 1);
    var l := RootsFrom(table, next, 1)[k];
    RelabelledRecount(w, out, table, next, now, l);
    hide Recount, Describes, Flat, Relabelled;
    RecountDescribes(w, now, cons[k], l);
  }

  /** The recorded blob with the greatest mass is the biggest blob of the relabelled image. */
  lemma BiggestOfRecorded(w: int, out: seq<int>, table: seq<Blob>, next: int, now: seq<int>, cons: seq<Blob>, b: nat)
    requires w >= 1 && Flat(w, out, table, next) && Relabelled(out, table, now)
    requires forall l :: 1 <= l < next ==> l in out
    requires RecordedFrom(w, out, table, next, cons, 1) && b < |cons|
    requires forall i :: 0 <= i < |cons| ==> cons[i].stats.mass <= cons[b].stats.mass
    ensures IsBiggest(w, now, cons[b])
  {
    var roots := RootsFrom(table, next, 1);
    RootsMeaning(table, next, 1);
    FinalLabelsAreRoots(w, out, table, next, now);
    forall k | 0 <= k < |roots|
      ensures Describes(w, now, cons[k], roots[k]) && roots[k] in FinalLabels(now)
    {
      RecordDescribes(w, out, table, next, now, cons, k);
    }
    assert Describes(w, now, cons[b], roots[b]);
    forall l | l in FinalLabels(now)
      ensures |PixelsOf(now, l)| <= cons[b].stats.mass
    {
      var k :| 0 <= k < |roots| && roots[k] == l;
      assert Describes(w, now, cons[k], roots[k]);
    }
  }

  /**
    Detect the blobs of `input`. `ok` is false when a label is needed that the table or the 16-bit
    output image cannot hold: the original writes past its table for such a label, and a label past 16
    bits is stored modulo 65536. `blobs` are the records that blob_detect consolidates and chooses the
    biggest from.
   */
  method Detect(output: array<int>, input: array<int>, width: int, height: int)
    returns (ok: bool, numBlobs: int, biggest: Blob, ghost blobs: seq<Blob>)
    requires width >= 1 && height >= 1 && input != output
    requires input.Length == output.Length == width * height
    requires forall p :: 0 <= p < output.Length && !Interior(width, height, p) ==> output[p] == 0
    modifies output
    ensures
      var I, start := Image(width, height, input[..]), Start(width, height, old(output[..]));
      ok <==> !ScanTo(I, start, output.Length).overrun
    ensures ok <==> Holds(width * height / 4, LabelsNeeded(Image(width, height, input[..])))
    ensures !ok ==>
      ScanTo(Image(width, height, input[..]), Start(width, height, old(output[..])), output.Length).next > SENTINEL
    ensures var s := ScanTo(Image(width, height, input[..]), Start(width, height, old(output[..])), output.Length);
      ok ==> output[..] == FinalImage(s)
    ensures ok ==> SoundLabelling(Image(width, height, input[..]), output[..])
    ensures
      var I, start := Image(width, height, input[..]), Start(width, height, old(output[..]));
      ok ==> (CompleteLabelling(I, output[..])
              <==> Rejoins(ScanTo(I, start, output.Length).table, LostTo(I, start, output.Length)))
    ensures
      var I := Image(width, height, input[..]);
      |LonelyPixels(I, output.Length)| < SENTINEL ==> ok && (NoFork(I) ==> CompleteLabelling(I, output[..]))
    ensures ok ==> numBlobs == |FinalLabels(output[..])| == |blobs|
    ensures ok ==> DescribesAll(width, output[..], blobs)
    ensures ok ==> TotalMass(blobs) == |ActivePixels(Image(width, height, input[..]))|
    ensures ok && numBlobs > 0 ==> IsBiggest(width, output[..], biggest)
    ensures ok && numBlobs > 0 ==> FirstGreatest(blobs, biggest.lbl) && biggest == blobs[biggest.lbl]
  {
    hide ScanTo, LostTo, Rejoins, SoundLabelling, CompleteLabelling, IsBiggest, Interior, Flat, RecordedFrom, Root;
    hide DescribesAll, TotalMass, ActivePixels, Holds, LabelsNeeded, LonelyPixels, NoFork;
    hide ScanInv, FlatBelow, Downward, LabelsIn, Relabelled, FinalLabels, RootsFrom, Openers, UNUSED, FinalImage;
    ghost var I := Image(width, height, input[..]);
    ghost var start := Start(width, height, output[..]);
    var table := new Blob[width * height / 4](_ => UNUSED);
    assert StateOf(output, table, 1, false) == start;
    var labelCounter, overrun := LabelPass(output, input, table, width, height);
    ok, numBlobs, biggest, blobs := !overrun, 0, UNUSED, [];
    WhenItSuffices(I, start);
    if overrun {
      OverrunNeedsSentinel(I, start, output.Length);
      return;
    }
    ghost var s, rep := ScanTo(I, start, output.Length), Openers(I, start, output.Length);
    ScanKeeps(I, start, output.Length);
    DownwardTable(I, s, rep);
    RedirectPass(table, labelCounter);
    ghost var flat := table[..];
    FlatAfterRedirect(I, s, rep, flat);
    var consolidated := new Blob[labelCounter](_ => UNUSED);
    numBlobs := MergePass(table, consolidated, labelCounter, width, s.out);
    FlatLabels(width, s.out, flat, table[..], labelCounter);
    RelabelPass(output, table, width, height);
    ghost var now := output[..];
    RelabelledByFlat(s.out, flat, table[..], now);
    RelabelledSound(I, s, rep, flat, now);
    RelabelledIsFinal(I, s, rep, flat, now);
    FinalLabelsAreRoots(width, s.out, flat, labelCounter, now);
    RecordedSize(width, s.out, flat, labelCounter, consolidated[..numBlobs]);
    CompleteIff(I, start);
    blobs := consolidated[..numBlobs];
    RecordedDescribes(I, s.out, flat, labelCounter, now, blobs);
    var biggestBlobIndex := FindBiggest(consolidated, numBlobs);
    biggest := consolidated[biggestBlobIndex];
    if numBlobs > 0 {
      assert FirstGreatest(blobs, biggestBlobIndex);
      RecordDescribes(width, s.out, flat, labelCounter, now, blobs, biggestBlobIndex);
      BiggestOfRecorded(width, s.out, flat, labelCounter, now, consolidated[..numBlobs], biggestBlobIndex);
    }
  }

  /** When the pass does not overrun, and when it is complete, in terms of the image. */
  lemma WhenItSuffices(I: Image, start: Scan)
    requires Fresh(I, start) && I.h >= 1 && |start.table| == I.w * I.h / 4
    ensures
      var s := ScanTo(I, start, |I.px|);
      && (!s.overrun <==> Holds(|start.table|, LabelsNeeded(I)))
      && (|LonelyPixels(I, |I.px|)| < SENTINEL ==>
            !s.overrun && (NoFork(I) ==> CompleteLabelling(I, FinalImage(s))))
  {
    hide ScanTo, Holds, LabelsNeeded, LonelyPixels, NoFork, CompleteLabelling;
    SufficesIff(I, start);
    if |LonelyPixels(I, |I.px|)| < SENTINEL {
      NeededIsLonely(I);
      FewLabelsSuffice(I, start);
      if NoFork(I) {
        ForklessIsComplete(I, start);
      }
    }
  }

  lemma DownwardTable(I: Image, s: Scan, rep: seq<int>)
    requires I.w >= 1 && |I.px| == |s.out| && ScanInv(I, s, |s.out|, rep)
    ensures Downward(s.table, s.next)
    ensures forall p :: 0 <= p < |s.out| && !Interior(I.w, I.h, p) ==> s.out[p] == 0
  {
  }

  lemma FlatLabels(w: int, out: seq<int>, flat: seq<Blob>, merged: seq<Blob>, next: int)
    requires w >= 1 && Flat(w, out, flat, next)
    requires |merged| == |flat| && forall l :: 0 <= l < |flat| ==> merged[l].lbl == flat[l].lbl
    ensures LabelsIn(out, merged)
  {
  }

  lemma RelabelledByFlat(out: seq<int>, flat: seq<Blob>, merged: seq<Blob>, now: seq<int>)
    requires |merged| == |flat| && forall l :: 0 <= l < |flat| ==> merged[l].lbl == flat[l].lbl
    requires Relabelled(out, merged, now)
    ensures Relabelled(out, flat, now)
  {
  }

  lemma RecordedSize(w: int, out: seq<int>, table: seq<Blob>, next: int, cons: seq<Blob>)
    requires w >= 1 && RecordedFrom(w, out, table, next, cons, 1)
    ensures |cons| == |RootsFrom(table, next, 1)|
  {
  }
}
