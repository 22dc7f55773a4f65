/**
  The redirect pass is documented to give all labels within a blob the lowest one, and the
  merge to merge blobs that touch. A link that is overwritten breaks this: on the image below
  two pixels of one 8-connected blob keep different final labels. BlobComplete.CompleteIff
  says exactly when this happens.
 */
module BlobIncomplete {
  import opened PixelGrid
  import opened BlobScan
  import opened BlobLinks

  const W := 7
  const H := 5

  /** The active pixels: a W whose right arm is one pixel taller. */
  const ARMS := {12, 15, 17, 19, 23, 25}

  /** The image of that shape and the state in which its scan starts. */
  ghost predicate Example(I: Image, s: Scan) {
    && I.w == W && I.h == H && |I.px| == 35 && (forall p :: 0 <= p < 35 ==> I.px[p] == if p in ARMS then 1 else 0)
    && |s.out| == 35 && (forall p :: 0 <= p < 35 ==> s.out[p] == 0)
    && |s.table| == 8 && s.next == 1 && !s.overrun
  }

  lemma InteriorPixels()
    ensures forall p :: p in ARMS ==> Interior(W, H, p)
    ensures Row(W, 12) == 1 && Col(W, 12) == 5 && Row(W, 15) == 2 && Col(W, 15) == 1
    ensures Row(W, 17) == 2 && Col(W, 17) == 3 && Row(W, 19) == 2 && Col(W, 19) == 5
    ensures Row(W, 23) == 3 && Col(W, 23) == 2 && Row(W, 25) == 3 && Col(W, 25) == 4
  {
    QuotientAndRemainder(W, 12);
    QuotientAndRemainder(W, 15);
    QuotientAndRemainder(W, 17);
    QuotientAndRemainder(W, 19);
    QuotientAndRemainder(W, 23);
    QuotientAndRemainder(W, 25);
  }

  /** Inactive pixels of an image whose output is still zero there change nothing. */
  lemma {:induction false} SkipInactive(I: Image, s: Scan, k: nat, m: nat)
    requires I.w >= 1 && k <= m <= |I.px| == |s.out| && !ScanTo(I, s, k).overrun
    requires forall p :: k <= p < m ==> I.px[p] <= 0 && ScanTo(I, s, k).out[p] == 0
    ensures ScanTo(I, s, m) == ScanTo(I, s, k)
  {
    if k < m {
      SkipInactive(I, s, k, m - 1);
      var t := ScanTo(I, s, k);
      assert t.out[m - 1 := 0] == t.out;
    }
  }

  /** The labels and links of a scan state, as far as the example looks at them. */
  ghost predicate Holds(I: Image, s: Scan, k: nat, out: map<int, int>, links: seq<int>) {
    Example(I, s) && k <= 35 && Shows(ScanTo(I, s, k), out, links)
  }

  ghost predicate Shows(t: Scan, out: map<int, int>, links: seq<int>) {
    && !t.overrun && t.next == |links| && |links| <= |t.table| == 8 && |t.out| == 35
    && (forall p :: 0 <= p < 35 ==> t.out[p] == Look(out, p))
    && (forall l :: 1 <= l < |links| ==> t.table[l].lbl == links[l])
  }

  function Look(out: map<int, int>, p: int): int { if p in out then out[p] else 0 }

  lemma Advance(I: Image, s: Scan, k: nat, m: nat, out: map<int, int>, links: seq<int>)
    requires k <= m <= 35 && Holds(I, s, k, out, links)
    requires forall p :: k <= p < m ==> p !in out && p !in ARMS
    ensures Holds(I, s, m, out, links)
  {
    forall p | k <= p < m
      ensures I.px[p] <= 0 && ScanTo(I, s, k).out[p] == 0
    {
      assert p !in out;
    }
    SkipInactive(I, s, k, m);
  }

  /** The labels of the four earlier neighbours. */
  function Around(out: map<int, int>, p: int): seq<int> {
    [Look(out, p - 8), Look(out, p - 7), Look(out, p - 6), Look(out, p - 1)]
  }

  lemma AtArm(I: Image, s: Scan, p: nat, out: map<int, int>, links: seq<int>)
    requires p in ARMS && Holds(I, s, p, out, links)
    ensures EarlierLabels(W, ScanTo(I, s, p).out, p) == Around(out, p)
    ensures ScanTo(I, s, p + 1) == Visit(I, ScanTo(I, s, p), p) && I.px[p] == 1
  {
    hide Interior, Row, Col, Visit;
    InteriorPixels();
  }

  /** An active pixel among unlabelled neighbours. */
  lemma Opens(I: Image, s: Scan, p: nat, out: map<int, int>, links: seq<int>)
    requires p in ARMS && Holds(I, s, p, out, links)
    requires Around(out, p) == [0, 0, 0, 0] && 1 <= |links| < 8
    ensures Holds(I, s, p + 1, out[p := |links|], links + [|links|])
  {
    hide MinLabel, Interior, Row, Col, ScanTo;
    AtArm(I, s, p, out, links);
    MinLabelFour(0, 0, 0, 0);
    assert ScanTo(I, s, p + 1) == OpenPixel(I, ScanTo(I, s, p), p);
  }

  /** An active pixel that takes the label `m` and redirects `l` to it. */
  lemma JoinsLabels(I: Image, s: Scan, p: nat, out: map<int, int>, links: seq<int>, a: int, b: int, c: int, m: int,
      l: int)
    requires p in ARMS && Holds(I, s, p, out, links)
    requires Around(out, p) == [a, b, c, 0] && MinLabel([a, b, c, 0]) == m && m != SENTINEL
    requires 1 <= m < |links| && 1 <= l < |links| && links[m] == m
    requires (a == 0 || a == m || a == l) && (b == 0 || b == m) && (c == 0 || c == m || c == l)
    requires l == m || l == a || l == c
    ensures Holds(I, s, p + 1, out[p := m], links[l := m])
  {
    hide MinLabel, Interior, Row, Col, ScanTo, RelinkAll, Grow;
    AtArm(I, s, p, out, links);
    var t := ScanTo(I, s, p);
    assert ScanTo(I, s, p + 1) == JoinPixel(I, t, p, m, [a, b, c, 0]);
    var grown := t.table[m := t.table[m].(stats := Grow(t.table[m].stats, Col(W, p), Row(W, p)))];
    RelinkFour(grown, a, b, c, 0, m);
  }

  lemma StartHolds(I: Image, s: Scan)
    requires Example(I, s)
    ensures Holds(I, s, 0, map[], [0])
  {
  }

  /** The links of labels 1, 2 and 3 at the end of the scan: 3 was redirected to 2, then to 1. */
  lemma FinalLinks(I: Image, s: Scan)
    requires Example(I, s)
    ensures Holds(I, s, 35, map[12 := 1, 15 := 2, 17 := 3, 19 := 1, 23 := 2, 25 := 1], [0, 1, 2, 1])
  {
    hide Holds, Example;
    StartHolds(I, s);
    Advance(I, s, 0, 12, map[], [0]);
    Opens(I, s, 12, map[], [0]);
    assert [0] + [1] == [0, 1] && [0, 1] + [2] == [0, 1, 2] && [0, 1, 2] + [3] == [0, 1, 2, 3];
    Advance(I, s, 13, 15, map[12 := 1], [0, 1]);
    Opens(I, s, 15, map[12 := 1], [0, 1]);
    Advance(I, s, 16, 17, map[12 := 1, 15 := 2], [0, 1, 2]);
    Opens(I, s, 17, map[12 := 1, 15 := 2], [0, 1, 2]);
    JoinArms(I, s, map[12 := 1, 15 := 2, 17 := 3]);
  }

  lemma JoinArms(I: Image, s: Scan, out: map<int, int>)
    requires Holds(I, s, 18, out, [0, 1, 2, 3]) && out == map[12 := 1, 15 := 2, 17 := 3]
    ensures Holds(I, s, 35, map[12 := 1, 15 := 2, 17 := 3, 19 := 1, 23 := 2, 25 := 1], [0, 1, 2, 1])
  {
    hide Holds;
    var links := [0, 1, 2, 3];
    Advance(I, s, 18, 19, out, links);
    MinLabelFour(0, 1, 0, 0);
    JoinsLabels(I, s, 19, out, links, 0, 1, 0, 1, 1);
    assert links[1 := 1] == links;
    Advance(I, s, 20, 23, out[19 := 1], links);
    MinLabelFour(2, 0, 3, 0);
    JoinsLabels(I, s, 23, out[19 := 1], links, 2, 0, 3, 2, 3);
    assert links[3 := 2] == [0, 1, 2, 2] && links[3 := 2][3 := 1] == [0, 1, 2, 1];
    Advance(I, s, 24, 25, out[19 := 1][23 := 2], [0, 1, 2, 2]);
    MinLabelFour(3, 0, 1, 0);
    JoinsLabels(I, s, 25, out[19 := 1][23 := 2], [0, 1, 2, 2], 3, 0, 1, 1, 3);
    Advance(I, s, 26, 35, out[19 := 1][23 := 2][25 := 1], [0, 1, 2, 1]);
    assert out[19 := 1][23 := 2][25 := 1] == map[12 := 1, 15 := 2, 17 := 3, 19 := 1, 23 := 2, 25 := 1];
  }

  lemma ArmsConnected(I: Image, s: Scan)
    requires Example(I, s)
    ensures Connected(I, 15, 12)
  {
    hide Interior;
    InteriorPixels();
    assert Joins(I, [15, 23, 17, 25, 19, 12], 15, 12);
  }

  /** The two arms of the shape are one 8-connected blob, but end with different labels. */
  lemma ArmsKeepDifferentLabels(I: Image, s: Scan)
    requires Example(I, s)
    ensures !ScanTo(I, s, 35).overrun && Connected(I, 15, 12)
    ensures FinalImage(ScanTo(I, s, 35))[15] == 2 && FinalImage(ScanTo(I, s, 35))[12] == 1
  {
    hide ScanTo, Connected, Example, Interior;
    ArmsConnected(I, s);
    FinalLinks(I, s);
  }
}
