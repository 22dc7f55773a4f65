/**
  A condition on the image under which the labelling is complete. Two labels meet only at a fork: an
  active pixel with the pixel above it inactive and the one above right active, together with the one
  above left or the left one. Without forks, and while every label is visible, all labelled neighbours
  of a pixel carry the same label (blob_detect.cpp:63-107).
 */
module BlobForks {
  import opened PixelGrid
  import opened BlobScan
  import opened BlobBound
  import opened BlobComplete
  import opened BlobLinks
  import opened BlobRoom

  /** At `p` two stretches of active pixels meet that need not have met above. */
  ghost predicate Fork(I: Image, p: int)
    requires I.w >= 1
  {
    && Active(I, p) && !Active(I, p - I.w) && Active(I, p - I.w + 1)
    && (Active(I, p - I.w - 1) || Active(I, p - 1))
  }

  ghost predicate NoFork(I: Image)
    requires I.w >= 1
  {
    forall p :: 0 <= p < |I.px| ==> !Fork(I, p)
  }

  /** Adjacent scanned pixels have equal labels. */
  ghost predicate Uniform(I: Image, out: seq<int>, k: int)
    requires I.w >= 1
  {
    forall p, q :: 0 <= p < q < k <= |out| && out[p] != 0 && out[q] != 0 && Adjacent(I.w, p, q) ==> out[p] == out[q]
  }

  /** The four earlier neighbours, other than above right, are adjacent to each other, and above right is
      adjacent to the one above. */
  lemma EarlierAdjacent(w: int, h: int, p: int)
    requires w >= 1 && p >= 0 && Interior(w, h, p)
    ensures 0 <= p - w - 1 && p - w + 1 < p - 1
    ensures Adjacent(w, p - w - 1, p - w) && Adjacent(w, p - w - 1, p - 1)
    ensures Adjacent(w, p - w, p - 1) && Adjacent(w, p - w, p - w + 1)
  {
    EarlierNeighbours(w, h, p);
    RowAbove(w, p);
    Sideways(w, p - w, -1);
    Sideways(w, p - w, 1);
    Sideways(w, p, -1);
  }

  /** No two different labels: each is 0 or `m`. */
  predicate Only(labels: seq<int>, m: int) {
    forall i :: 0 <= i < |labels| ==> labels[i] == 0 || labels[i] == m
  }

  /** What the invariant knows about two earlier neighbours of `p`. */
  lemma EqualIfAdjacent(I: Image, out: seq<int>, next: int, p: int, rep: seq<int>, a: int, b: int)
    requires I.w >= 1 && ImageInv(I, out, next, p, rep) && Uniform(I, out, p)
    requires 0 <= a < b < p && Adjacent(I.w, a, b)
    ensures 0 <= out[a] < next && 0 <= out[b] < next && (out[a] != 0 && out[b] != 0 ==> out[a] == out[b])
    ensures (out[a] != 0 <==> Active(I, a)) && (out[b] != 0 <==> Active(I, b))
  {
    hide Active, Adjacent, Connected;
  }

  /** Labels of which all but `c` are pairwise equal, and `c` equals `b` or stands alone. */
  predicate Agree(a: int, b: int, c: int, d: int) {
    && (a != 0 && b != 0 ==> a == b) && (a != 0 && d != 0 ==> a == d) && (b != 0 && d != 0 ==> b == d)
    && (b != 0 && c != 0 ==> b == c) && (b == 0 && c != 0 ==> a == 0 && d == 0)
  }

  lemma NeighboursAgree(I: Image, out: seq<int>, next: int, p: int, rep: seq<int>)
    requires I.w >= 1 && ImageInv(I, out, next, p, rep) && Uniform(I, out, p) && p < |out|
    requires Active(I, p) && !Fork(I, p)
    ensures 0 <= p - I.w - 1 && I.w >= 3
    ensures 0 <= out[p - I.w - 1] < next && 0 <= out[p - I.w] < next && 0 <= out[p - I.w + 1] < next
    ensures 0 <= out[p - 1] < next && Agree(out[p - I.w - 1], out[p - I.w], out[p - I.w + 1], out[p - 1])
  {
    hide ImageInv, Uniform, Adjacent, Interior, Active;
    InteriorOf(I, p);
    ImageSize(I, out, next, p, rep);
    EarlierAdjacent(I.w, I.h, p);
    EqualIfAdjacent(I, out, next, p, rep, p - I.w - 1, p - I.w);
    EqualIfAdjacent(I, out, next, p, rep, p - I.w - 1, p - 1);
    EqualIfAdjacent(I, out, next, p, rep, p - I.w, p - 1);
    EqualIfAdjacent(I, out, next, p, rep, p - I.w, p - I.w + 1);
  }

  /** Where nothing forks, the labelled earlier neighbours of a pixel have one label. */
  lemma OneLabelAround(I: Image, out: seq<int>, next: int, p: int, rep: seq<int>)
    requires I.w >= 1 && ImageInv(I, out, next, p, rep) && Uniform(I, out, p) && p < |out|
    requires Active(I, p) && !Fork(I, p) && next <= SENTINEL
    ensures
      var labels := EarlierLabels(I.w, out, p);
      && (forall i :: 0 <= i < |labels| ==> 0 <= labels[i] < next)
      && (MinLabel(labels) == SENTINEL ==> Only(labels, 0))
      && (MinLabel(labels) != SENTINEL ==> MinLabel(labels) != 0 && Only(labels, MinLabel(labels)))
  {
    ImageSize(I, out, next, p, rep);
    hide ImageInv, Uniform, Active, Fork, MinLabel, Only, Agree;
    NeighboursAgree(I, out, next, p, rep);
    OneLabel(out[p - I.w - 1], out[p - I.w], out[p - I.w + 1], out[p - 1]);
    assert EarlierLabels(I.w, out, p) == [out[p - I.w - 1], out[p - I.w], out[p - I.w + 1], out[p - 1]];
  }

  lemma ImageSize(I: Image, out: seq<int>, next: int, p: int, rep: seq<int>)
    requires I.w >= 1 && ImageInv(I, out, next, p, rep)
    ensures 0 <= p <= |out| && |out| == |I.px|
  {
  }

  lemma OneLabel(a: int, b: int, c: int, d: int)
    requires 0 <= a < SENTINEL && 0 <= b < SENTINEL && 0 <= c < SENTINEL && 0 <= d < SENTINEL
    requires Agree(a, b, c, d)
    ensures
      var m := MinLabel([a, b, c, d]);
      && (m == SENTINEL ==> Only([a, b, c, d], 0))
      && (m != SENTINEL ==> m != 0 && Only([a, b, c, d], m))
  {
    MinLabelFour(a, b, c, d);
  }

  lemma {:induction false} NothingLost(table: seq<Blob>, labels: seq<int>, m: int)
    requires Only(labels, m)
    ensures LostLinks(table, labels, m) == {}
  {
    if labels != [] {
      var front := labels[..|labels| - 1];
      assert forall i :: 0 <= i < |front| ==> front[i] == labels[i];
      NothingLost(table, front, m);
    }
  }

  /** The new label of `p`, or 0, is that of its labelled neighbours. */
  lemma PaintedUniform(I: Image, out: seq<int>, p: int, l: int)
    requires I.w >= 1 && Uniform(I, out, p) && 0 <= p < |out|
    requires l != 0 ==> Interior(I.w, I.h, p) && Only(EarlierLabels(I.w, out, p), l)
    ensures Uniform(I, out[p := l], p + 1)
  {
    var painted := out[p := l];
    forall a, b | 0 <= a < b < p + 1 && painted[a] != 0 && painted[b] != 0 && Adjacent(I.w, a, b)
      ensures painted[a] == painted[b]
    {
      if b == p {
        var i := EarlierLabel(I, out, p, a);
      } else {
        assert out[a] == out[b];
      }
    }
  }

  /** One step keeps the labels uniform and loses none. */
  lemma StepUniform(I: Image, s: Scan, p: int, rep: seq<int>)
    requires I.w >= 1 && ScanInv(I, s, p, rep) && Uniform(I, s.out, p) && p < |s.out| && NoFork(I)
    requires !Step(I, s, p).overrun && s.next <= SENTINEL
    ensures Uniform(I, Step(I, s, p).out, p + 1) && LostAt(I, s, p) == {}
  {
    hide MinLabel, Uniform, LostLinks, StatsInv, TableInv, Connected;
    var labels := EarlierLabels(I.w, s.out, p);
    if !Interior(I.w, I.h, p) || I.px[p] <= 0 {
      assert !Interior(I.w, I.h, p) ==> s.out[p := 0] == s.out;
      PaintedUniform(I, s.out, p, 0);
    } else {
      OneLabelAround(I, s.out, s.next, p, rep);
      if MinLabel(labels) == SENTINEL {
        PaintedUniform(I, s.out, p, s.next);
      } else {
        JoinHasRoom(I, s, p, rep);
        PaintedUniform(I, s.out, p, MinLabel(labels));
        NothingLost(s.table, labels, MinLabel(labels));
      }
    }
  }

  lemma {:induction false} ScanUniform(I: Image, s: Scan, k: nat)
    requires Fresh(I, s) && k <= |I.px| && !ScanTo(I, s, k).overrun && ScanTo(I, s, k).next <= SENTINEL && NoFork(I)
    ensures Uniform(I, ScanTo(I, s, k).out, k) && LostTo(I, s, k) == {}
  {
    hide Visit, ScanInv, Uniform, LostAt, NoFork;
    if k == 0 {
      UniformNothing(I, s.out);
    } else {
      NextGrows(I, s, k - 1);
      ScanUniform(I, s, k - 1);
      ScanKeeps(I, s, k - 1);
      StepUniform(I, ScanTo(I, s, k - 1), k - 1, Openers(I, s, k - 1));
    }
  }

  lemma UniformNothing(I: Image, out: seq<int>)
    requires I.w >= 1
    ensures Uniform(I, out, 0)
  {
  }

  /** An image of fewer than 255 lonely pixels and without forks is labelled completely. */
  lemma ForklessIsComplete(I: Image, s: Scan)
    requires Fresh(I, s) && I.h >= 1 && |s.table| == I.w * I.h / 4
    requires NoFork(I) && |LonelyPixels(I, |I.px|)| < SENTINEL
    ensures !ScanTo(I, s, |I.px|).overrun && CompleteLabelling(I, FinalImage(ScanTo(I, s, |I.px|)))
  {
    hide ScanTo, LabelsNeeded, LonelyPixels, NoFork, CompleteLabelling, Holds;
    NeededIsLonely(I);
    FewLabelsSuffice(I, s);
    SufficesIff(I, s);
    ScanUniform(I, s, |I.px|);
    LosslessIsComplete(I, s);
  }
}
