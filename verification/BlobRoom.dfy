/**
  When the label table suffices. Which label a pixel takes never depends on the table, so the labels
  that an image asks for are those of a scan without one. The pass overruns exactly when there are more
  of them than the table of width * height / 4 entries and the 16-bit output image can hold
  (blob_detect.cpp:38-43, 57-80).
 */
module BlobRoom {
  import CInt
  import opened PixelGrid
  import opened BlobScan
  import opened BlobBound

  /** The output image and the next label, for a scan that always has room for a label. */
  datatype Labels = Labels(out: seq<int>, next: int)

  /** The label that each pixel takes. */
  function LabelStep(I: Image, n: Labels, p: int): (r: Labels)
    requires I.w >= 1 && 0 <= p < |I.px| == |n.out|
    ensures |r.out| == |n.out|
  {
    if !Interior(I.w, I.h, p) then n
    else if I.px[p] <= 0 then n.(out := n.out[p := 0])
    else
      var m := MinLabel(EarlierLabels(I.w, n.out, p));
      if m == SENTINEL then Labels(n.out[p := n.next], n.next + 1) else n.(out := n.out[p := m])
  }

  function LabelsTo(I: Image, out: seq<int>, k: nat): (r: Labels)
    requires I.w >= 1 && k <= |I.px| == |out|
    ensures |r.out| == |out|
  {
    if k == 0 then Labels(out, 1) else LabelStep(I, LabelsTo(I, out, k - 1), k - 1)
  }

  /** How many labels an image asks for. */
  function LabelsNeeded(I: Image): int
    requires I.w >= 1
  {
    LabelsTo(I, seq(|I.px|, _ => 0), |I.px|).next - 1
  }

  /** A table of `size` entries, of which entry 0 is no label, and a 16-bit output image hold `n` labels. */
  predicate Holds(size: int, n: int) { n == 0 || n < CInt.Min(size, LABEL_LIMIT) }

  lemma HoldsMeans(size: nat, n: nat)
    ensures Holds(size, n) <==> n == 0 || (n < size && n < 65536)
  {
  }

  // ----- the scan takes these labels for as long as it has room -----

  /** The scan has taken the labels of `n`, or has stopped because they do not fit. */
  ghost predicate Takes(s: Scan, n: Labels, size: int) {
    && 1 <= s.next <= n.next
    && (s.overrun ==> !Holds(size, n.next - 1) && s.next < n.next)
    && (!s.overrun ==> Holds(size, n.next - 1) && s.out == n.out && s.next == n.next)
  }

  lemma JoinHasRoom(I: Image, s: Scan, p: int, rep: seq<int>)
    requires I.w >= 1 && ScanInv(I, s, p, rep) && p < |s.out| && Active(I, p)
    requires MinLabel(EarlierLabels(I.w, s.out, p)) != SENTINEL
    ensures 0 <= MinLabel(EarlierLabels(I.w, s.out, p)) < |s.table|
  {
    var labels := EarlierLabels(I.w, s.out, p);
    AllNear(I, s.out, s.next, p, rep, labels);
    JoinLinks(I, s.next, p, rep, MinLabel(labels), labels);
  }

  lemma StepTakes(I: Image, s: Scan, n: Labels, p: int, rep: seq<int>)
    requires I.w >= 1 && 0 <= p < |I.px| == |s.out| == |n.out| && Takes(s, n, |s.table|)
    requires s.overrun || ScanInv(I, s, p, rep)
    ensures Takes(Step(I, s, p), LabelStep(I, n, p), |s.table|)
  {
    hide MinLabel, ScanInv;
    if !s.overrun && Interior(I.w, I.h, p) && I.px[p] > 0 && MinLabel(EarlierLabels(I.w, s.out, p)) != SENTINEL {
      JoinHasRoom(I, s, p, rep);
    }
  }

  lemma {:induction false} ScanTakes(I: Image, s: Scan, k: nat)
    requires Fresh(I, s) && k <= |I.px|
    ensures Takes(ScanTo(I, s, k), LabelsTo(I, s.out, k), |s.table|)
  {
    hide Step, LabelStep, ScanInv, Takes, Holds;
    if k == 0 {
      TakesNothing(s);
    } else {
      ScanTakes(I, s, k - 1);
      ScanKeeps(I, s, k - 1);
      StepTakes(I, ScanTo(I, s, k - 1), LabelsTo(I, s.out, k - 1), k - 1, Openers(I, s, k - 1));
    }
  }

  lemma TakesNothing(s: Scan)
    requires s.next == 1 && !s.overrun
    ensures Takes(s, Labels(s.out, 1), |s.table|)
  {
  }

  // ----- the labels do not depend on what the output image held -----

  ghost predicate SameSoFar(I: Image, a: seq<int>, b: seq<int>, k: int)
    requires I.w >= 1
  {
    |a| == |b| == |I.px| && forall p :: 0 <= p < |a| && (p < k || !Interior(I.w, I.h, p)) ==> a[p] == b[p]
  }

  lemma SameLabels(I: Image, a: seq<int>, b: seq<int>, p: int)
    requires I.w >= 1 && 0 <= p < |I.px| && SameSoFar(I, a, b, p) && Interior(I.w, I.h, p)
    ensures EarlierLabels(I.w, a, p) == EarlierLabels(I.w, b, p)
  {
    EarlierNeighbours(I.w, I.h, p);
  }

  lemma {:induction false} LabelsOfImage(I: Image, a: seq<int>, b: seq<int>, k: nat)
    requires I.w >= 1 && k <= |I.px| && SameSoFar(I, a, b, 0)
    ensures SameSoFar(I, LabelsTo(I, a, k).out, LabelsTo(I, b, k).out, k)
    ensures LabelsTo(I, a, k).next == LabelsTo(I, b, k).next
  {
    hide Interior, MinLabel;
    if k > 0 {
      LabelsOfImage(I, a, b, k - 1);
      if Interior(I.w, I.h, k - 1) {
        SameLabels(I, LabelsTo(I, a, k - 1).out, LabelsTo(I, b, k - 1).out, k - 1);
      }
    }
  }

  // ----- when the table suffices -----

  /** Every label that the image asks for is counted, whatever the output image held before. */
  lemma NeededFromAnyStart(I: Image, s: Scan)
    requires Fresh(I, s)
    ensures LabelsTo(I, s.out, |I.px|).next == LabelsNeeded(I) + 1
  {
    hide LabelsTo;
    LabelsOfImage(I, s.out, seq(|I.px|, _ => 0), |I.px|);
  }

  /** The pass overruns exactly when the labels that the image asks for do not fit; otherwise it issues
      all of them. */
  lemma SufficesIff(I: Image, s: Scan)
    requires Fresh(I, s)
    ensures !ScanTo(I, s, |I.px|).overrun <==> Holds(|s.table|, LabelsNeeded(I))
    ensures !ScanTo(I, s, |I.px|).overrun ==> ScanTo(I, s, |I.px|).next == LabelsNeeded(I) + 1
    ensures ScanTo(I, s, |I.px|).overrun ==> ScanTo(I, s, |I.px|).next <= LabelsNeeded(I)
    ensures LabelsNeeded(I) >= 0
  {
    hide ScanTo, LabelsTo, LabelsNeeded, Holds;
    ScanTakes(I, s, |I.px|);
    NeededFromAnyStart(I, s);
  }

  /** A scan that has issued label 255 covers at least 255 of the 2x2 blocks of the interior. */
  lemma {:induction false} SentinelNeedsBlocks(I: Image, s: Scan, k: nat)
    requires Fresh(I, s) && k <= |I.px| && ScanTo(I, s, k).next > SENTINEL
    ensures Half(I.h) * Half(I.w) >= SENTINEL
  {
    hide Visit, ScanInv, Half;
    assert k > 0;
    if ScanTo(I, s, k).overrun || ScanTo(I, s, k).next > SENTINEL + 1 {
      NextByOne(I, s, k - 1);
      SentinelNeedsBlocks(I, s, k - 1);
    } else {
      LabelledNeedsRoom(I, s, k);
      LabelBound(I, s, k);
    }
  }

  lemma NextByOne(I: Image, s: Scan, k: nat)
    requires Fresh(I, s) && k < |I.px|
    ensures ScanTo(I, s, k + 1).next <= ScanTo(I, s, k).next + 1
    ensures ScanTo(I, s, k + 1).overrun ==> ScanTo(I, s, k + 1).next == ScanTo(I, s, k).next
  {
  }

  lemma LabelledNeedsRoom(I: Image, s: Scan, k: nat)
    requires Fresh(I, s) && k <= |I.px| && !ScanTo(I, s, k).overrun && ScanTo(I, s, k).next > 1
    ensures I.w >= 3 && I.h >= 3
  {
    ScanKeeps(I, s, k);
    var p := Openers(I, s, k)[1];
    assert ScanTo(I, s, k).out[p] == 1;
    InteriorNeedsRoom(I.w, I.h, p);
  }

  /** The table of width * height / 4 entries suffices for every image that asks for at most 255 labels,
      in particular for every image of fewer than 255 blocks. */
  lemma FewLabelsSuffice(I: Image, s: Scan)
    requires Fresh(I, s) && I.h >= 1 && |s.table| == I.w * I.h / 4
    requires LabelsNeeded(I) <= SENTINEL || Half(I.h) * Half(I.w) < SENTINEL
    ensures !ScanTo(I, s, |I.px|).overrun && LabelsNeeded(I) <= Half(I.h) * Half(I.w)
  {
    hide ScanTo, LabelsNeeded, Holds;
    SufficesIff(I, s);
    var t := ScanTo(I, s, |I.px|);
    if t.next > SENTINEL && Half(I.h) * Half(I.w) < SENTINEL {
      SentinelNeedsBlocks(I, s, |I.px|);
    }
    if t.overrun {
      OverrunNeedsSentinel(I, s, |I.px|);
    }
    if t.next > 1 {
      LabelledNeedsRoom(I, s, |I.px|);
      LabelBound(I, s, |I.px|);
    } else {
      CInt.Grows(0, Half(I.h), Half(I.w));
    }
  }

  // ----- which pixels ask for a label -----

  /** The active pixels below `k` without an active earlier neighbour. */
  ghost function LonelyPixels(I: Image, k: nat): set<int>
    requires I.w >= 1
  {
    set p | 0 <= p < k && Active(I, p) && Lonely(I, p)
  }

  lemma LonelyStep(I: Image, k: nat)
    requires I.w >= 1
    ensures |LonelyPixels(I, k + 1)| == |LonelyPixels(I, k)| + if Active(I, k) && Lonely(I, k) then 1 else 0
  {
    hide Active, Lonely;
    assert LonelyPixels(I, k + 1) == LonelyPixels(I, k) + if Active(I, k) && Lonely(I, k) then {k} else {};
  }

  /** Scanned pixels have a label exactly when active. */
  ghost predicate LabelsInv(I: Image, n: Labels, k: nat)
    requires I.w >= 1
  {
    && |n.out| == |I.px| && n.next >= 1 && k <= |n.out|
    && (forall p :: 0 <= p < |n.out| && !Interior(I.w, I.h, p) ==> n.out[p] == 0)
    && (forall p {:trigger n.out[p]} :: 0 <= p < k ==> 0 <= n.out[p] < n.next && (n.out[p] != 0 <==> Active(I, p)))
  }

  lemma LabelsAround(I: Image, n: Labels, p: nat)
    requires I.w >= 1 && LabelsInv(I, n, p) && p < |n.out| && Interior(I.w, I.h, p)
    ensures
      var labels := EarlierLabels(I.w, n.out, p);
      && (forall i :: 0 <= i < |labels| ==> 0 <= labels[i] < n.next)
      && (labels[0] != 0 <==> Active(I, p - I.w - 1)) && (labels[1] != 0 <==> Active(I, p - I.w))
      && (labels[2] != 0 <==> Active(I, p - I.w + 1)) && (labels[3] != 0 <==> Active(I, p - 1))
  {
    EarlierNeighbours(I.w, I.h, p);
    hide Active, Adjacent;
  }

  /** A lonely active pixel always asks for a label; another pixel only when label 255 is issued. */
  lemma LabelStepAsks(I: Image, n: Labels, p: nat)
    requires I.w >= 1 && LabelsInv(I, n, p) && p < |n.out|
    ensures
      var r := LabelStep(I, n, p);
      && LabelsInv(I, r, p + 1) && n.next <= r.next <= n.next + 1
      && (Active(I, p) && Lonely(I, p) ==> r.next == n.next + 1)
      && (n.next <= SENTINEL && r.next > n.next ==> Active(I, p) && Lonely(I, p))
  {
    if Interior(I.w, I.h, p) {
      LabelsAround(I, n, p);
      var labels := EarlierLabels(I.w, n.out, p);
      MinLabelMeaning(labels);
      assert Lonely(I, p) <==> labels[0] == 0 && labels[1] == 0 && labels[2] == 0 && labels[3] == 0;
      if n.next <= SENTINEL && MinLabel(labels) == SENTINEL {
        assert Hidden(labels[0]) && Hidden(labels[1]) && Hidden(labels[2]) && Hidden(labels[3]);
      }
    }
  }

  /** Up to label 255, the labels asked for are one for each lonely pixel. */
  lemma {:induction false} AskedByLonely(I: Image, out: seq<int>, k: nat)
    requires I.w >= 1 && k <= |I.px| == |out|
    requires forall p :: 0 <= p < |out| && !Interior(I.w, I.h, p) ==> out[p] == 0
    ensures LabelsInv(I, LabelsTo(I, out, k), k) && LabelsTo(I, out, k).next > |LonelyPixels(I, k)|
    ensures LabelsTo(I, out, k).next <= SENTINEL + 1 ==> LabelsTo(I, out, k).next == |LonelyPixels(I, k)| + 1
  {
    if k == 0 {
      assert LonelyPixels(I, 0) == {};
    } else {
      hide LabelStep, LabelsInv, LonelyPixels;
      AskedByLonely(I, out, k - 1);
      LabelStepAsks(I, LabelsTo(I, out, k - 1), k - 1);
      LonelyStep(I, k - 1);
    }
  }

  /** Label 255 is asked for by the 255th lonely pixel. */
  lemma {:induction false} SentinelByLonely(I: Image, out: seq<int>, k: nat)
    requires I.w >= 1 && k <= |I.px| == |out| && LabelsTo(I, out, k).next > SENTINEL
    requires forall p :: 0 <= p < |out| && !Interior(I.w, I.h, p) ==> out[p] == 0
    ensures |LonelyPixels(I, k)| >= SENTINEL
  {
    hide LabelStep, LabelsInv, LonelyPixels, Interior;
    AskedByLonely(I, out, k);
    if LabelsTo(I, out, k).next > SENTINEL + 1 {
      AskedByLonely(I, out, k - 1);
      LabelStepAsks(I, LabelsTo(I, out, k - 1), k - 1);
      SentinelByLonely(I, out, k - 1);
      LonelyStep(I, k - 1);
    }
  }

  /** An image asks for no fewer labels than it has lonely pixels, and for no more unless it has 255. */
  lemma NeededIsLonely(I: Image)
    requires I.w >= 1
    ensures LabelsNeeded(I) >= |LonelyPixels(I, |I.px|)|
    ensures LabelsNeeded(I) <= SENTINEL || |LonelyPixels(I, |I.px|)| < SENTINEL
      ==> LabelsNeeded(I) == |LonelyPixels(I, |I.px|)|
  {
    hide LonelyPixels, LabelsTo;
    var out := seq(|I.px|, _ => 0);
    AskedByLonely(I, out, |I.px|);
    if LabelsTo(I, out, |I.px|).next > SENTINEL + 1 {
      SentinelByLonely(I, out, |I.px|);
    }
  }
}
