/**
  The labelling pass of blob_detect as a function of the image: what one pixel
  does to the output image and the label table, and what a whole raster scan
  keeps. The method in BlobDetect is proved to compute exactly this.
 */
module BlobScan {
  import CInt
  import opened PixelGrid
  import opened BlobStats

  /** An entry of the label table; `lbl` is the label it is redirected to. */
  datatype Blob = Blob(lbl: int, stats: Stats, centroidX: int, centroidY: int)

  const UNUSED := Blob(0, EMPTY, 0, 0)

  /** The initial value of min_label; larger labels are invisible to the minimum. */
  const SENTINEL := 255

  /** Labels are stored in an `unsigned short` image. */
  const LABEL_LIMIT := 0x1_0000

  /** The output image, the label table, the next label to issue, and whether a label was
      needed that the table or the output image cannot hold. */
  datatype Scan = Scan(out: seq<int>, table: seq<Blob>, next: int, overrun: bool)

  function Lower(m: int, l: int): int { if l != 0 && l < m then l else m }

  /** The least visible label, or the sentinel. */
  function MinLabel(labels: seq<int>): int {
    if labels == [] then SENTINEL
    else Lower(MinLabel(labels[..|labels| - 1]), labels[|labels| - 1])
  }

  /** No label, or one that the minimum does not see. */
  predicate Hidden(l: int) { l == 0 || l >= SENTINEL }

  function At(out: seq<int>, p: int): int { if 0 <= p < |out| then out[p] else 0 }

  /** The labels of the pixels above left, above, above right and left of `p`. */
  function EarlierLabels(w: int, out: seq<int>, p: int): seq<int> {
    [At(out, p - w - 1), At(out, p - w), At(out, p - w + 1), At(out, p - 1)]
  }

  /** Statistics of a label that gains a pixel. */
  function Grow(s: Stats, x: int, y: int): Stats {
    Stats(s.mass + 1, s.sumX + x, s.sumY + y,
          CInt.Min(s.xMin, x), CInt.Max(s.xMax, x), CInt.Min(s.yMin, y), CInt.Max(s.yMax, y))
  }

  function Relink(table: seq<Blob>, l: int, m: int): (r: seq<Blob>)
    ensures |r| == |table|
  {
    if 0 <= l < |table| && l != m then table[l := table[l].(lbl := m)] else table
  }

  /** Redirect each of `labels` in turn to `m`. */
  function RelinkAll(table: seq<Blob>, labels: seq<int>, m: int): (r: seq<Blob>)
    ensures |r| == |table|
  {
    if labels == [] then table
    else Relink(RelinkAll(table, labels[..|labels| - 1], m), labels[|labels| - 1], m)
  }

  /** An active pixel without a visible labelled neighbour opens the next label. */
  function OpenPixel(I: Image, s: Scan, p: int): (r: Scan)
    requires I.w >= 1 && 0 <= p < |s.out| && 0 <= s.next < |s.table|
    ensures |r.out| == |s.out| && |r.table| == |s.table|
  {
    var x, y := Col(I.w, p), Row(I.w, p);
    var entry := s.table[s.next].(lbl := s.next, stats := Stats(1, x, y, x, x, y, y));
    s.(out := s.out[p := s.next], table := s.table[s.next := entry], next := s.next + 1)
  }

  /** An active pixel takes the least neighbouring label `m`, which gains the pixel, and the
      neighbours' labels are redirected to it. */
  function JoinPixel(I: Image, s: Scan, p: int, m: int, labels: seq<int>): (r: Scan)
    requires I.w >= 1 && 0 <= p < |s.out| && 0 <= m < |s.table|
    ensures |r.out| == |s.out| && |r.table| == |s.table|
  {
    var grown := s.table[m := s.table[m].(stats := Grow(s.table[m].stats, Col(I.w, p), Row(I.w, p)))];
    s.(out := s.out[p := m], table := RelinkAll(grown, labels, m))
  }

  /** The body of the raster loop at an interior pixel. */
  function Visit(I: Image, s: Scan, p: int): (r: Scan)
    requires I.w >= 1 && 0 <= p < |I.px| == |s.out|
    ensures |r.out| == |s.out| && |r.table| == |s.table|
  {
    if I.px[p] <= 0 then
      s.(out := s.out[p := 0])
    else
      var labels := EarlierLabels(I.w, s.out, p);
      var m := MinLabel(labels);
      if m == SENTINEL then
        if 0 <= s.next < |s.table| && s.next < LABEL_LIMIT then OpenPixel(I, s, p)
        else s.(out := s.out[p := 0], overrun := true)
      else if 0 <= m < |s.table| then JoinPixel(I, s, p, m, labels)
      else s
  }

  /** One turn of the raster loop: border pixels are skipped, and nothing follows an overrun. */
  function Step(I: Image, s: Scan, p: int): (r: Scan)
    requires I.w >= 1 && 0 <= p < |I.px| == |s.out|
    ensures |r.out| == |s.out| && |r.table| == |s.table|
  {
    if s.overrun || !Interior(I.w, I.h, p) then s else Visit(I, s, p)
  }

  /** The scan of the first `k` pixels in raster order, stopped by an overrun. */
  function ScanTo(I: Image, s: Scan, k: nat): (r: Scan)
    requires I.w >= 1 && k <= |I.px| == |s.out|
    ensures |r.out| == |s.out| && |r.table| == |s.table|
  {
    if k == 0 then s else Step(I, ScanTo(I, s, k - 1), k - 1)
  }

  /** The pixel that opened each label issued so far; entry 0 is not a label. */
  ghost function Openers(I: Image, s: Scan, k: nat): seq<int>
    requires I.w >= 1 && k <= |I.px| == |s.out|
  {
    if k == 0 then [-1]
    else
      var t, before := ScanTo(I, s, k - 1), Openers(I, s, k - 1);
      if Step(I, t, k - 1).next > t.next then before + [k - 1] else before
  }

  // ----- what every step of the scan keeps -----

  /** Scanned pixels are labelled exactly when active; a label is held by the pixel that opened
      it and every pixel holding it is connected to that one. */
  ghost predicate ImageInv(I: Image, out: seq<int>, next: int, k: int, rep: seq<int>)
    requires I.w >= 1
  {
    && |out| == |I.px| && 0 <= k <= |out| && 1 <= next == |rep|
    && (forall p :: 0 <= p < |out| && !Interior(I.w, I.h, p) ==> out[p] == 0)
    && (forall p {:trigger out[p]} :: 0 <= p < k ==> 0 <= out[p] < next && (out[p] != 0 <==> Active(I, p)))
    && (forall l :: 1 <= l < next ==> 0 <= rep[l] < k && out[rep[l]] == l)
    && (forall p {:trigger out[p]} :: 0 <= p < k && out[p] != 0 ==> Connected(I, p, rep[out[p]]))
  }

  /** Links point downwards and only join connected labels. */
  ghost predicate TableInv(I: Image, table: seq<Blob>, next: int, rep: seq<int>)
    requires I.w >= 1
  {
    && 1 <= next == |rep| && (next <= |table| || next == 1)
    && (forall l :: 1 <= l < next ==> 1 <= table[l].lbl <= l)
    && (forall l {:trigger table[l]} :: 1 <= l < next ==> Connected(I, rep[l], rep[table[l].lbl]))
  }

  /** Each issued label's running statistics are a recount of the pixels scanned so far. */
  ghost predicate StatsInv(w: int, out: seq<int>, table: seq<Blob>, next: int, k: int)
    requires w >= 1
  {
    && 0 <= k <= |out| && 1 <= next && (next <= |table| || next == 1)
    && (forall l :: 1 <= l < next ==> table[l].stats == Recount(out, w, {l}, k))
  }

  ghost predicate ScanInv(I: Image, s: Scan, k: int, rep: seq<int>)
    requires I.w >= 1
  {
    && ImageInv(I, s.out, s.next, k, rep)
    && TableInv(I, s.table, s.next, rep)
    && StatsInv(I.w, s.out, s.table, s.next, k)
    && s.next <= LABEL_LIMIT
  }

  /** The state in which blob_detect starts: nothing issued, and an output image whose border is
      zero (its interior may hold anything). */
  ghost predicate Fresh(I: Image, s: Scan) {
    && I.w >= 1 && |s.out| == |I.px| && s.next == 1 && !s.overrun
    && (forall p :: 0 <= p < |s.out| && !Interior(I.w, I.h, p) ==> s.out[p] == 0)
  }

  // ----- preservation, case by case -----

  /** A pixel that gets label 0. */
  lemma BlankKeeps(I: Image, s: Scan, k: int, rep: seq<int>, out: seq<int>)
    requires I.w >= 1 && ScanInv(I, s, k, rep) && k < |s.out|
    requires !Active(I, k)
    requires out == s.out[k := 0]
    ensures ScanInv(I, s.(out := out), k + 1, rep)
  {
    forall l | 1 <= l < s.next
      ensures s.table[l].stats == Recount(out, I.w, {l}, k + 1)
    {
      RecountPrefix(s.out, out, I.w, {l}, k);
    }
  }

  /** A pixel that takes the next label. */
  lemma OpenImage(I: Image, out: seq<int>, next: int, p: int, rep: seq<int>)
    requires I.w >= 1 && ImageInv(I, out, next, p, rep) && p < |out| && Active(I, p)
    ensures ImageInv(I, out[p := next], next + 1, p + 1, rep + [p])
  {
    ConnectedSelf(I, p);
  }

  lemma OpenStats(w: int, out: seq<int>, table: seq<Blob>, next: int, p: int, entry: Blob)
    requires w >= 1 && StatsInv(w, out, table, next, p) && p < |out| && next < |table|
    requires forall q :: 0 <= q < p ==> out[q] != next
    requires entry.stats == Add(EMPTY, Col(w, p), Row(w, p))
    ensures StatsInv(w, out[p := next], table[next := entry], next + 1, p + 1)
  {
    var painted := out[p := next];
    forall l | 1 <= l < next + 1
      ensures Recount(painted, w, {l}, p) == Recount(out, w, {l}, p)
    {
      RecountPrefix(out, painted, w, {l}, p);
    }
    RecountSkip(out, w, {next}, 0, p);
  }

  /** A pixel without a visible labelled neighbour opens a label. */
  lemma OpenKeeps(I: Image, s: Scan, p: int, rep: seq<int>)
    requires I.w >= 1 && ScanInv(I, s, p, rep) && p < |s.out|
    requires Active(I, p) && s.next < |s.table| && s.next < LABEL_LIMIT
    ensures ScanInv(I, OpenPixel(I, s, p), p + 1, rep + [p])
  {
    var r := OpenPixel(I, s, p);
    OpenImage(I, s.out, s.next, p, rep);
    OpenStats(I.w, s.out, s.table, s.next, p, r.table[s.next]);
    ConnectedSelf(I, p);
    assert TableInv(I, r.table, r.next, rep + [p]);
  }

  /** Redirecting a label to a lower label connected to it. */
  lemma RelinkKeeps(I: Image, table: seq<Blob>, next: int, rep: seq<int>, l: int, m: int)
    requires I.w >= 1 && TableInv(I, table, next, rep)
    requires l == 0 || (1 <= m <= l < next && Connected(I, rep[l], rep[m]))
    ensures TableInv(I, Relink(table, l, m), next, rep)
    ensures forall i :: 1 <= i < next ==> Relink(table, l, m)[i].stats == table[i].stats
  {
    var t := Relink(table, l, m);
    forall i {:trigger t[i]} | 1 <= i < next
      ensures 1 <= t[i].lbl <= i && t[i].stats == table[i].stats && Connected(I, rep[i], rep[t[i].lbl])
    {
      if i != l {
        assert t[i] == table[i];
      }
    }
  }

  /** `l` is no label, or an issued label, not below `m`, connected to it. */
  ghost predicate Linkable(I: Image, next: int, rep: seq<int>, l: int, m: int)
    requires I.w >= 1 && |rep| == next
  {
    l == 0 || (1 <= m <= l < next && Connected(I, rep[l], rep[m]))
  }

  lemma {:induction false} RelinkAllKeeps(I: Image, table: seq<Blob>, next: int, rep: seq<int>, labels: seq<int>,
      m: int)
    requires I.w >= 1 && TableInv(I, table, next, rep)
    requires forall i :: 0 <= i < |labels| ==> Linkable(I, next, rep, labels[i], m)
    ensures TableInv(I, RelinkAll(table, labels, m), next, rep)
    ensures forall i :: 1 <= i < next ==> RelinkAll(table, labels, m)[i].stats == table[i].stats
  {
    if labels != [] {
      var n := |labels| - 1;
      RelinkAllKeeps(I, table, next, rep, labels[..n], m);
      assert Linkable(I, next, rep, labels[n], m);
      RelinkKeeps(I, RelinkAll(table, labels[..n], m), next, rep, labels[n], m);
    }
  }

  /** No label, or an issued one held by pixels that `p` is connected to. */
  ghost predicate Near(I: Image, next: int, rep: seq<int>, p: int, l: int)
    requires I.w >= 1 && |rep| == next
  {
    l == 0 || (1 <= l < next && Connected(I, p, rep[l]))
  }

  lemma NeighbourLabel(I: Image, out: seq<int>, next: int, p: int, q: int, rep: seq<int>)
    requires I.w >= 1 && ImageInv(I, out, next, p, rep)
    requires Active(I, p) && 0 <= q < p && Adjacent(I.w, q, p)
    ensures Near(I, next, rep, p, At(out, q))
  {
    if out[q] != 0 {
      ConnectedAdjacent(I, p, q);
      ConnectedTransitive(I, p, q, rep[out[q]]);
    }
  }

  lemma LinkThrough(I: Image, next: int, rep: seq<int>, p: int, l: int, m: int)
    requires I.w >= 1 && |rep| == next
    requires Near(I, next, rep, p, l) && Near(I, next, rep, p, m) && m != 0
    requires l == 0 || m <= l
    ensures Linkable(I, next, rep, l, m)
  {
    if l != 0 {
      ConnectedSymmetric(I, p, rep[l]);
      ConnectedTransitive(I, rep[l], p, rep[m]);
    }
  }

  /** Labelling the active pixel `p` with a label whose holders it is connected to. */
  lemma PaintKeeps(I: Image, out: seq<int>, next: int, p: int, rep: seq<int>, m: int)
    requires I.w >= 1 && ImageInv(I, out, next, p, rep) && p < |out| && Active(I, p)
    requires 1 <= m < next && Connected(I, p, rep[m])
    ensures ImageInv(I, out[p := m], next, p + 1, rep)
  {
  }

  /** The statistics of the label of a painted pixel grow by that pixel, the others stay. */
  lemma GrowKeeps(I: Image, s: Scan, p: int, rep: seq<int>, m: int)
    requires I.w >= 1 && ScanInv(I, s, p, rep) && p < |s.out| && 1 <= m < s.next
    ensures s.table[m].stats.mass > 0
    ensures
      var grown := s.table[m := s.table[m].(stats := Grow(s.table[m].stats, Col(I.w, p), Row(I.w, p)))];
      TableInv(I, grown, s.next, rep) && StatsInv(I.w, s.out[p := m], grown, s.next, p + 1)
  {
    RecountPositive(s.out, I.w, {m}, p, rep[m]);
    var out := s.out[p := m];
    var grown := s.table[m := s.table[m].(stats := Grow(s.table[m].stats, Col(I.w, p), Row(I.w, p)))];
    forall l {:trigger grown[l]} | 1 <= l < s.next
      ensures grown[l].stats == Recount(out, I.w, {l}, p + 1)
      ensures grown[l].lbl == s.table[l].lbl
    {
      RecountPrefix(s.out, out, I.w, {l}, p);
    }
    forall l {:trigger grown[l]} | 1 <= l < s.next
      ensures Connected(I, rep[l], rep[grown[l].lbl])
    {
      assert grown[l].lbl == s.table[l].lbl;
    }
  }

  /** The minimum is the sentinel when every label is hidden; otherwise it is one of the labels
      and no label but 0 is below it. */
  lemma {:induction false} MinLabelMeaning(labels: seq<int>)
    requires forall i :: 0 <= i < |labels| ==> labels[i] >= 0
    ensures 1 <= MinLabel(labels) <= SENTINEL
    ensures MinLabel(labels) == SENTINEL <==> forall i :: 0 <= i < |labels| ==> Hidden(labels[i])
    ensures MinLabel(labels) != SENTINEL ==> MinLabel(labels) in labels
    ensures forall i :: 0 <= i < |labels| && labels[i] != 0 && labels[i] < SENTINEL ==> MinLabel(labels) <= labels[i]
  {
    if labels != [] {
      var front := labels[..|labels| - 1];
      MinLabelMeaning(front);
      assert forall i :: 0 <= i < |front| ==> front[i] == labels[i];
    }
  }

  /** The minimum in numbers: the least of the labels from 1 to 254, or 255 if there are none. */
  lemma MinLabelIs(a: nat, b: nat, c: nat, d: nat)
    ensures
      var m := MinLabel([a, b, c, d]);
      && (m == 255 || (1 <= m < 255 && (m == a || m == b || m == c || m == d)))
      && (1 <= a < 255 ==> m <= a) && (1 <= b < 255 ==> m <= b)
      && (1 <= c < 255 ==> m <= c) && (1 <= d < 255 ==> m <= d)
  {
    MinLabelFour(a, b, c, d);
  }

  /** What the invariant knows about the labels around an active pixel. */
  lemma AroundActive(I: Image, out: seq<int>, next: int, p: int, rep: seq<int>)
    requires I.w >= 1 && ImageInv(I, out, next, p, rep) && p < |out| && Active(I, p)
    ensures Near(I, next, rep, p, At(out, p - I.w - 1)) && Near(I, next, rep, p, At(out, p - I.w))
    ensures Near(I, next, rep, p, At(out, p - I.w + 1)) && Near(I, next, rep, p, At(out, p - 1))
  {
    EarlierNeighbours(I.w, I.h, p);
    NeighbourLabel(I, out, next, p, p - I.w - 1, rep);
    NeighbourLabel(I, out, next, p, p - I.w, rep);
    NeighbourLabel(I, out, next, p, p - I.w + 1, rep);
    NeighbourLabel(I, out, next, p, p - 1, rep);
  }

  lemma AllNear(I: Image, out: seq<int>, next: int, p: int, rep: seq<int>, labels: seq<int>)
    requires I.w >= 1 && ImageInv(I, out, next, p, rep) && p < |out| && Active(I, p)
    requires labels == EarlierLabels(I.w, out, p)
    ensures forall i :: 0 <= i < |labels| ==> Near(I, next, rep, p, labels[i])
  {
    AroundActive(I, out, next, p, rep);
  }

  /** In a join, the least label is issued and every neighbour's label may be linked to it. */
  lemma JoinLinks(I: Image, next: int, p: int, rep: seq<int>, m: int, labels: seq<int>)
    requires I.w >= 1 && |rep| == next
    requires forall i :: 0 <= i < |labels| ==> Near(I, next, rep, p, labels[i])
    requires m == MinLabel(labels) && m != SENTINEL
    ensures 1 <= m < next && Near(I, next, rep, p, m)
    ensures forall i :: 0 <= i < |labels| ==> Linkable(I, next, rep, labels[i], m)
  {
    MinLabelMeaning(labels);
    forall i | 0 <= i < |labels|
      ensures Linkable(I, next, rep, labels[i], m)
    {
      LinkThrough(I, next, rep, p, labels[i], m);
    }
  }

  /** A pixel with a visible labelled neighbour takes the least label and links the others to it. */
  lemma JoinKeeps(I: Image, s: Scan, p: int, rep: seq<int>, m: int, labels: seq<int>)
    requires I.w >= 1 && ScanInv(I, s, p, rep) && p < |s.out| && Active(I, p)
    requires labels == EarlierLabels(I.w, s.out, p) && m == MinLabel(labels) && m != SENTINEL
    ensures 1 <= m < s.next && s.table[m].stats.mass > 0
    ensures ScanInv(I, JoinPixel(I, s, p, m, labels), p + 1, rep)
  {
    AllNear(I, s.out, s.next, p, rep, labels);
    JoinLinks(I, s.next, p, rep, m, labels);
    PaintKeeps(I, s.out, s.next, p, rep, m);
    GrowKeeps(I, s, p, rep, m);
    var grown := s.table[m := s.table[m].(stats := Grow(s.table[m].stats, Col(I.w, p), Row(I.w, p)))];
    RelinkAllKeeps(I, grown, s.next, rep, labels, m);
  }

  lemma RelinkFour(table: seq<Blob>, a: int, b: int, c: int, d: int, m: int)
    ensures RelinkAll(table, [a, b, c, d], m) == Relink(Relink(Relink(Relink(table, a, m), b, m), c, m), d, m)
  {
    assert [a, b, c, d][..3] == [a, b, c] && [a, b, c][..2] == [a, b] && [a, b][..1] == [a] && [a][..0] == [];
    assert RelinkAll(table, [a], m) == Relink(table, a, m);
    assert RelinkAll(table, [a, b], m) == Relink(RelinkAll(table, [a], m), b, m);
    assert RelinkAll(table, [a, b, c], m) == Relink(RelinkAll(table, [a, b], m), c, m);
  }

  lemma MinLabelFour(a: int, b: int, c: int, d: int)
    ensures MinLabel([a, b, c, d]) == Lower(Lower(Lower(Lower(SENTINEL, a), b), c), d)
  {
    assert [a, b, c, d][..3] == [a, b, c] && [a, b, c][..2] == [a, b] && [a, b][..1] == [a] && [a][..0] == [];
    assert MinLabel([a]) == Lower(SENTINEL, a);
    assert MinLabel([a, b]) == Lower(MinLabel([a]), b);
    assert MinLabel([a, b, c]) == Lower(MinLabel([a, b]), c);
  }

  /** One raster step keeps the invariant. */
  lemma VisitKeeps(I: Image, s: Scan, p: int, rep: seq<int>)
    requires I.w >= 1 && ScanInv(I, s, p, rep) && p < |s.out| && Interior(I.w, I.h, p)
    requires !s.overrun
    ensures
      var r := Visit(I, s, p);
      r.overrun || ScanInv(I, r, p + 1, if r.next > s.next then rep + [p] else rep)
  {
    var labels := EarlierLabels(I.w, s.out, p);
    if I.px[p] <= 0 {
      BlankKeeps(I, s, p, rep, s.out[p := 0]);
    } else if MinLabel(labels) != SENTINEL {
      JoinKeeps(I, s, p, rep, MinLabel(labels), labels);
    } else if s.next < |s.table| && s.next < LABEL_LIMIT {
      OpenKeeps(I, s, p, rep);
    }
  }

  lemma StepKeeps(I: Image, s: Scan, p: int, rep: seq<int>)
    requires I.w >= 1 && ScanInv(I, s, p, rep) && p < |s.out|
    ensures
      var r := Step(I, s, p);
      r.overrun || ScanInv(I, r, p + 1, if r.next > s.next then rep + [p] else rep)
  {
    if !s.overrun {
      if Interior(I.w, I.h, p) {
        VisitKeeps(I, s, p, rep);
      } else {
        assert s.out[p := 0] == s.out;
        BlankKeeps(I, s, p, rep, s.out);
      }
    }
  }

  lemma FreshKeeps(I: Image, s: Scan)
    requires Fresh(I, s)
    ensures ScanInv(I, s, 0, [-1])
  {
  }

  /** Every prefix of the raster scan that has not overrun satisfies the invariant. */
  lemma {:induction false} ScanKeeps(I: Image, s: Scan, k: nat)
    requires Fresh(I, s) && k <= |I.px|
    ensures ScanTo(I, s, k).overrun || ScanInv(I, ScanTo(I, s, k), k, Openers(I, s, k))
  {
    hide Visit, ScanInv;
    if k == 0 {
      FreshKeeps(I, s);
    } else {
      ScanKeeps(I, s, k - 1);
      var t := ScanTo(I, s, k - 1);
      if !t.overrun {
        StepKeeps(I, t, k - 1, Openers(I, s, k - 1));
      }
    }
  }

  /** Nothing follows an overrun. */
  lemma {:induction false} OverrunSticks(I: Image, s: Scan, k: nat, m: nat)
    requires I.w >= 1 && k <= m <= |I.px| == |s.out| && ScanTo(I, s, k).overrun
    ensures ScanTo(I, s, m) == ScanTo(I, s, k)
  {
    hide Visit, Interior;
    if k < m {
      OverrunSticks(I, s, k, m - 1);
    }
  }
}
