/**
  When the final labels are complete, that is when 8-connected pixels end with the same label. A
  redirect overwrites the link that was there before (blob_detect.cpp:103-106), and a pixel whose
  labelled neighbours all carry labels that the minimum does not see opens a label without a link to
  them (blob_detect.cpp:77-80). The labels are complete exactly when the final table rejoins every pair
  of labels that was lost in one of these ways.
 */
module BlobComplete {
  import opened PixelGrid
  import opened BlobScan
  import opened BlobLinks

  /** 8-connected pixels have equal labels. */
  ghost predicate CompleteLabelling(I: Image, out: seq<int>)
    requires I.w >= 1
  {
    forall p, q :: 0 <= p < |out| && 0 <= q < |out| && Connected(I, p, q) ==> out[p] == out[q]
  }

  // ----- the lost pairs -----

  /** The link that redirecting `l` to `m` overwrites, if it led to a third label. */
  function LostLink(table: seq<Blob>, l: int, m: int): set<(int, int)> {
    if 1 <= l < |table| && l != m && table[l].lbl != l && table[l].lbl != m then {(l, table[l].lbl)} else {}
  }

  /** The links that redirecting each of `labels` in turn overwrites. */
  function LostLinks(table: seq<Blob>, labels: seq<int>, m: int): set<(int, int)> {
    if labels == [] then {}
    else
      var front, last := labels[..|labels| - 1], labels[|labels| - 1];
      LostLinks(table, front, m) + LostLink(RelinkAll(table, front, m), last, m)
  }

  /** The new label next to the hidden labels that it is not linked to. */
  function LostNeighbours(next: int, labels: seq<int>): set<(int, int)> {
    set l | l in labels && l != 0 :: (next, l)
  }

  /** The pairs of labels that the visit of `p` loses. */
  function LostAt(I: Image, s: Scan, p: int): set<(int, int)>
    requires I.w >= 1 && 0 <= p < |I.px| == |s.out|
  {
    if s.overrun || !Interior(I.w, I.h, p) || I.px[p] <= 0 then {}
    else
      var labels := EarlierLabels(I.w, s.out, p);
      if MinLabel(labels) == SENTINEL then LostNeighbours(s.next, labels)
      else LostLinks(s.table, labels, MinLabel(labels))
  }

  /** The pairs of labels lost by the scan of the first `k` pixels. */
  function LostTo(I: Image, s: Scan, k: nat): set<(int, int)>
    requires I.w >= 1 && k <= |I.px| == |s.out|
  {
    if k == 0 then {} else LostTo(I, s, k - 1) + LostAt(I, ScanTo(I, s, k - 1), k - 1)
  }

  /** The final table leads both labels of every lost pair to the same root. */
  ghost predicate Rejoins(table: seq<Blob>, lost: set<(int, int)>) {
    forall e :: e in lost ==> Root(table, e.0) == Root(table, e.1)
  }

  // ----- labels of adjacent pixels are equal, linked, or lost -----

  predicate Linked(table: seq<Blob>, x: int, y: int) { 0 <= x < |table| && table[x].lbl == y }

  predicate Related(table: seq<Blob>, lost: set<(int, int)>, x: int, y: int) {
    x == y || Linked(table, x, y) || Linked(table, y, x) || (x, y) in lost || (y, x) in lost
  }

  ghost predicate TracedPair(I: Image, s: Scan, lost: set<(int, int)>, p: int, q: int)
    requires I.w >= 1 && 0 <= p < |s.out| && 0 <= q < |s.out|
  {
    s.out[p] != 0 && s.out[q] != 0 && Adjacent(I.w, p, q) ==> Related(s.table, lost, s.out[p], s.out[q])
  }

  ghost predicate Traced(I: Image, s: Scan, k: int, lost: set<(int, int)>)
    requires I.w >= 1
  {
    0 <= k <= |s.out| && forall p, q :: 0 <= p < q < k ==> TracedPair(I, s, lost, p, q)
  }

  /** Lost pairs are issued labels held by connected pixels. */
  ghost predicate LostConnected(I: Image, next: int, rep: seq<int>, lost: set<(int, int)>)
    requires I.w >= 1 && |rep| == next
  {
    forall e :: e in lost ==> 1 <= e.0 < next && 1 <= e.1 < next && Connected(I, rep[e.0], rep[e.1])
  }

  /** A redirect turns an overwritten link into a lost pair. */
  lemma RelinkRelated(table: seq<Blob>, lost: set<(int, int)>, l: int, m: int, x: int, y: int)
    requires x >= 1 && y >= 1 && Related(table, lost, x, y)
    ensures Related(Relink(table, l, m), lost + LostLink(table, l, m), x, y)
  {
  }

  lemma {:induction false} RelinkAllRelated(
      table: seq<Blob>, lost: set<(int, int)>, labels: seq<int>, m: int, x: int, y: int)
    requires x >= 1 && y >= 1 && Related(table, lost, x, y)
    ensures Related(RelinkAll(table, labels, m), lost + LostLinks(table, labels, m), x, y)
  {
    hide Related;
    if labels == [] {
      assert lost + {} == lost;
    } else {
      var front, last := labels[..|labels| - 1], labels[|labels| - 1];
      RelinkAllRelated(table, lost, front, m, x, y);
      RelinkRelated(RelinkAll(table, front, m), lost + LostLinks(table, front, m), last, m, x, y);
      assert lost + LostLinks(table, front, m) + LostLink(RelinkAll(table, front, m), last, m)
          == lost + LostLinks(table, labels, m);
    }
  }

  /** After the redirects, every redirected label points straight at `m`. */
  lemma {:induction false} RelinkAllTargets(table: seq<Blob>, labels: seq<int>, m: int, i: int)
    requires 0 <= i < |labels| && 0 <= labels[i] < |table| && labels[i] != m
    ensures RelinkAll(table, labels, m)[labels[i]].lbl == m
  {
    var front := labels[..|labels| - 1];
    if i < |front| {
      assert front[i] == labels[i];
      RelinkAllTargets(table, front, m, i);
    }
  }

  /** Overwritten links joined connected labels. */
  lemma {:induction false} LostLinksConnected(
      I: Image, table: seq<Blob>, next: int, rep: seq<int>, labels: seq<int>, m: int)
    requires I.w >= 1 && TableInv(I, table, next, rep) && 1 <= m < next
    requires forall i :: 0 <= i < |labels| ==> Linkable(I, next, rep, labels[i], m)
    ensures LostConnected(I, next, rep, LostLinks(table, labels, m))
  {
    hide Connected;
    if labels != [] {
      var front, last := labels[..|labels| - 1], labels[|labels| - 1];
      assert forall i :: 0 <= i < |front| ==> front[i] == labels[i];
      LostLinksConnected(I, table, next, rep, front, m);
      RelinkAllKeeps(I, table, next, rep, front, m);
      assert Linkable(I, next, rep, last, m);
    }
  }

  // ----- one step of the scan -----

  /** The links of the labels do not depend on their statistics. */
  lemma {:induction false} RelinkAllLinks(a: seq<Blob>, b: seq<Blob>, labels: seq<int>, m: int)
    requires |a| == |b| && forall l :: 0 <= l < |a| ==> a[l].lbl == b[l].lbl
    ensures forall l :: 0 <= l < |a| ==> RelinkAll(a, labels, m)[l].lbl == RelinkAll(b, labels, m)[l].lbl
  {
    if labels != [] {
      RelinkAllLinks(a, b, labels[..|labels| - 1], m);
    }
  }

  lemma SameLinksRelated(a: seq<Blob>, b: seq<Blob>, lost: set<(int, int)>, x: int, y: int)
    requires |a| == |b| && forall l :: 0 <= l < |a| ==> a[l].lbl == b[l].lbl
    ensures Related(a, lost, x, y) == Related(b, lost, x, y)
  {
  }

  /** What a join does to two labels that were related, and to a neighbour's label and the least one. */
  lemma JoinRelated(I: Image, s: Scan, p: int, m: int, labels: seq<int>, lost: set<(int, int)>)
    requires I.w >= 1 && 0 <= p < |s.out| && 1 <= m < |s.table|
    requires forall i :: 0 <= i < |labels| ==> 0 <= labels[i] < |s.table|
    ensures
      var t, all := JoinPixel(I, s, p, m, labels).table, lost + LostLinks(s.table, labels, m);
      && (forall x, y :: x >= 1 && y >= 1 && Related(s.table, lost, x, y) ==> Related(t, all, x, y))
      && (forall i :: 0 <= i < |labels| && labels[i] != 0 ==> Related(t, all, labels[i], m))
  {
    hide Related;
    var grown := s.table[m := s.table[m].(stats := Grow(s.table[m].stats, Col(I.w, p), Row(I.w, p)))];
    var t, all := RelinkAll(grown, labels, m), lost + LostLinks(s.table, labels, m);
    RelinkAllLinks(s.table, grown, labels, m);
    forall x, y | x >= 1 && y >= 1 && Related(s.table, lost, x, y)
      ensures Related(t, all, x, y)
    {
      RelinkAllRelated(s.table, lost, labels, m, x, y);
      SameLinksRelated(RelinkAll(s.table, labels, m), t, all, x, y);
    }
    forall i | 0 <= i < |labels| && labels[i] != 0
      ensures Related(t, all, labels[i], m)
    {
      if labels[i] != m {
        RelinkAllTargets(grown, labels, m, i);
      }
      Directly(t, all, labels[i], m);
    }
  }

  lemma Directly(table: seq<Blob>, lost: set<(int, int)>, x: int, y: int)
    requires x == y || Linked(table, x, y) || (y, x) in lost
    ensures Related(table, lost, x, y)
  {
  }

  lemma MoreLost(table: seq<Blob>, lost: set<(int, int)>, more: set<(int, int)>, x: int, y: int)
    requires Related(table, lost, x, y)
    ensures Related(table, lost + more, x, y)
  {
  }

  /** The index of an earlier neighbour among the four labels. */
  lemma EarlierLabel(I: Image, out: seq<int>, p: int, q: int) returns (i: int)
    requires I.w >= 1 && 0 <= q < p < |out| && Interior(I.w, I.h, p) && Adjacent(I.w, q, p)
    ensures 0 <= i < 4 && EarlierLabels(I.w, out, p)[i] == out[q]
  {
    EarlierAdjacentIsNeighbour(I.w, q, p);
    i := if q == p - I.w - 1 then 0 else if q == p - I.w then 1 else if q == p - I.w + 1 then 2 else 3;
  }

  lemma TracedBlank(I: Image, s: Scan, p: int, lost: set<(int, int)>, r: Scan)
    requires I.w >= 1 && Traced(I, s, p, lost) && p < |s.out| && r.table == s.table && r.out == s.out[p := 0]
    ensures Traced(I, r, p + 1, lost)
  {
    hide Related;
    forall a, b | 0 <= a < b < p + 1
      ensures TracedPair(I, r, lost, a, b)
    {
      if b < p {
        assert TracedPair(I, s, lost, a, b);
      }
    }
  }

  lemma TracedOpen(I: Image, s: Scan, p: int, rep: seq<int>, lost: set<(int, int)>)
    requires I.w >= 1 && ScanInv(I, s, p, rep) && Traced(I, s, p, lost) && p < |s.out| && s.next < |s.table|
    requires Interior(I.w, I.h, p)
    ensures Traced(I, OpenPixel(I, s, p), p + 1, lost + LostNeighbours(s.next, EarlierLabels(I.w, s.out, p)))
  {
    var r, labels := OpenPixel(I, s, p), EarlierLabels(I.w, s.out, p);
    var all := lost + LostNeighbours(s.next, labels);
    forall a, b | 0 <= a < b < p + 1
      ensures TracedPair(I, r, all, a, b)
    {
      if s.out[a] != 0 && Adjacent(I.w, a, b) {
        if b == p {
          var i := EarlierLabel(I, s.out, p, a);
          assert labels[i] in labels && (s.next, labels[i]) in all;
        } else if s.out[b] != 0 {
          assert TracedPair(I, s, lost, a, b);
          LabelInRange(I, s, p, rep, a);
          LabelInRange(I, s, p, rep, b);
          OpenRelated(I, s, p, lost, s.out[a], s.out[b]);
          hide Related;
          MoreLost(r.table, lost, LostNeighbours(s.next, labels), s.out[a], s.out[b]);
        }
      }
    }
  }

  /** Opening a label leaves the links of the issued ones. */
  lemma OpenRelated(I: Image, s: Scan, p: int, lost: set<(int, int)>, x: int, y: int)
    requires I.w >= 1 && 0 <= p < |s.out| && 0 <= s.next < |s.table|
    requires 1 <= x < s.next && 1 <= y < s.next && Related(s.table, lost, x, y)
    ensures Related(OpenPixel(I, s, p).table, lost, x, y)
  {
  }

  lemma LabelInRange(I: Image, s: Scan, k: int, rep: seq<int>, p: int)
    requires I.w >= 1 && ScanInv(I, s, k, rep) && 0 <= p < k
    ensures 0 <= s.out[p] < s.next && (s.next <= |s.table| || s.next == 1)
  {
  }

  lemma LabelsLinkable(I: Image, s: Scan, p: int, rep: seq<int>, m: int, labels: seq<int>)
    requires I.w >= 1 && ScanInv(I, s, p, rep) && p < |s.out| && Active(I, p)
    requires labels == EarlierLabels(I.w, s.out, p) && m == MinLabel(labels) && m != SENTINEL
    ensures 1 <= m < s.next <= |s.table| && forall i :: 0 <= i < |labels| ==> Linkable(I, s.next, rep, labels[i], m)
    ensures forall i :: 0 <= i < |labels| ==> 0 <= labels[i] < |s.table|
  {
    AllNear(I, s.out, s.next, p, rep, labels);
    JoinLinks(I, s.next, p, rep, m, labels);
    forall i | 0 <= i < |labels|
      ensures 0 <= labels[i] < s.next
    {
      assert Linkable(I, s.next, rep, labels[i], m);
    }
  }

  lemma TracedJoin(I: Image, s: Scan, p: int, rep: seq<int>, m: int, labels: seq<int>, lost: set<(int, int)>)
    requires I.w >= 1 && ScanInv(I, s, p, rep) && Traced(I, s, p, lost) && p < |s.out| && Active(I, p)
    requires labels == EarlierLabels(I.w, s.out, p) && m == MinLabel(labels) && m != SENTINEL
    ensures 1 <= m < |s.table| && Traced(I, JoinPixel(I, s, p, m, labels), p + 1, lost + LostLinks(s.table, labels, m))
  {
    hide MinLabel;
    LabelsLinkable(I, s, p, rep, m, labels);
    JoinRelated(I, s, p, m, labels, lost);
    var r, all := JoinPixel(I, s, p, m, labels), lost + LostLinks(s.table, labels, m);
    forall a, b | 0 <= a < b < p + 1
      ensures TracedPair(I, r, all, a, b)
    {
      hide RelinkAll, LostLinks, Connected, Related;
      if s.out[a] != 0 && Adjacent(I.w, a, b) {
        LabelInRange(I, s, p, rep, a);
        if b == p {
          var i := EarlierLabel(I, s.out, p, a);
        } else if s.out[b] != 0 {
          LabelInRange(I, s, p, rep, b);
          assert TracedPair(I, s, lost, a, b);
        }
      }
    }
  }

  lemma TracedStep(I: Image, s: Scan, p: int, rep: seq<int>, lost: set<(int, int)>)
    requires I.w >= 1 && ScanInv(I, s, p, rep) && Traced(I, s, p, lost) && p < |s.out| && !Step(I, s, p).overrun
    ensures Traced(I, Step(I, s, p), p + 1, lost + LostAt(I, s, p))
  {
    assert |I.px| == |s.out|;
    var labels := EarlierLabels(I.w, s.out, p);
    hide ScanInv, Traced, MinLabel, LostLinks, LostNeighbours;
    if !Interior(I.w, I.h, p) || I.px[p] <= 0 {
      BorderIsBlank(I, s, p, rep);
      TracedBlank(I, s, p, lost, Step(I, s, p));
      assert lost + {} == lost;
    } else if MinLabel(labels) == SENTINEL {
      TracedOpen(I, s, p, rep, lost);
    } else {
      TracedJoin(I, s, p, rep, MinLabel(labels), labels, lost);
    }
  }

  lemma BorderIsBlank(I: Image, s: Scan, p: int, rep: seq<int>)
    requires I.w >= 1 && ScanInv(I, s, p, rep) && p < |s.out|
    ensures !Interior(I.w, I.h, p) ==> s.out == s.out[p := 0]
  {
  }

  /** Lost pairs stay connected, and the new ones are. */
  lemma LostStep(I: Image, s: Scan, p: int, rep: seq<int>, lost: set<(int, int)>)
    requires I.w >= 1 && ScanInv(I, s, p, rep) && p < |s.out| && !s.overrun && !Step(I, s, p).overrun
    requires LostConnected(I, s.next, rep, lost)
    ensures
      var r, grown := Step(I, s, p), if Step(I, s, p).next > s.next then rep + [p] else rep;
      |grown| == r.next && LostConnected(I, r.next, grown, lost + LostAt(I, s, p))
  {
    var labels := EarlierLabels(I.w, s.out, p);
    hide Connected, MinLabel, LostLinks;
    if Interior(I.w, I.h, p) && I.px[p] > 0 {
      if MinLabel(labels) == SENTINEL {
        AllNear(I, s.out, s.next, p, rep, labels);
      } else {
        LabelsLinkable(I, s, p, rep, MinLabel(labels), labels);
        LostLinksConnected(I, s.table, s.next, rep, labels, MinLabel(labels));
      }
    }
  }

  /** Over the whole scan: labels of adjacent pixels are equal, linked or lost, and lost pairs belong to
      connected pixels. */
  lemma {:induction false} ScanTraces(I: Image, s: Scan, k: nat)
    requires Fresh(I, s) && k <= |I.px| && !ScanTo(I, s, k).overrun
    ensures Traced(I, ScanTo(I, s, k), k, LostTo(I, s, k))
    ensures |Openers(I, s, k)| == ScanTo(I, s, k).next
    ensures LostConnected(I, ScanTo(I, s, k).next, Openers(I, s, k), LostTo(I, s, k))
  {
    hide Visit, ScanInv, LostAt, Traced, LostConnected;
    if k == 0 {
      TracedNothing(I, s);
    } else {
      var t, rep := ScanTo(I, s, k - 1), Openers(I, s, k - 1);
      ScanTraces(I, s, k - 1);
      ScanKeeps(I, s, k - 1);
      TracedStep(I, t, k - 1, rep, LostTo(I, s, k - 1));
      LostStep(I, t, k - 1, rep, LostTo(I, s, k - 1));
    }
  }

  lemma TracedNothing(I: Image, s: Scan)
    requires I.w >= 1
    ensures Traced(I, s, 0, {}) && LostConnected(I, 1, [-1], {})
  {
  }

  // ----- the exact condition -----

  /** Related labels have the same root once every lost pair is rejoined. */
  lemma RelatedSameRoot(table: seq<Blob>, lost: set<(int, int)>, next: int, x: int, y: int)
    requires Downward(table, next) && 1 <= x < next && 1 <= y < next
    requires Related(table, lost, x, y) && Rejoins(table, lost)
    ensures Root(table, x) == Root(table, y)
  {
    assert (x, y) in lost ==> Root(table, (x, y).0) == Root(table, (x, y).1);
    assert (y, x) in lost ==> Root(table, (y, x).0) == Root(table, (y, x).1);
  }

  /** Then pixels joined by a path have labels with the same root. */
  lemma {:induction false} PathSameRoot(I: Image, s: Scan, rep: seq<int>, lost: set<(int, int)>, path: seq<int>)
    requires I.w >= 1 && ScanInv(I, s, |I.px|, rep) && Traced(I, s, |I.px|, lost) && Rejoins(s.table, lost)
    requires IsPath(I, path)
    ensures s.out[path[0]] != 0 && s.out[path[|path| - 1]] != 0
    ensures Root(s.table, s.out[path[0]]) == Root(s.table, s.out[path[|path| - 1]])
  {
    var n := |path| - 1;
    assert Active(I, path[0]) && Active(I, path[n]);
    assert s.out[path[0]] != 0 && s.out[path[n]] != 0;
    if n > 0 {
      PathSameRoot(I, s, rep, lost, path[..n]);
      var a, b := path[n - 1], path[n];
      assert Active(I, a) && Adjacent(I.w, a, b);
      StepSameRoot(I, s, rep, lost, a, b);
    }
  }

  lemma StepSameRoot(I: Image, s: Scan, rep: seq<int>, lost: set<(int, int)>, a: int, b: int)
    requires I.w >= 1 && ScanInv(I, s, |I.px|, rep) && Traced(I, s, |I.px|, lost) && Rejoins(s.table, lost)
    requires Active(I, a) && Active(I, b) && Adjacent(I.w, a, b)
    ensures Root(s.table, s.out[a]) == Root(s.table, s.out[b])
  {
    var p, q := if a < b then a else b, if a < b then b else a;
    assert TracedPair(I, s, lost, p, q);
    assert s.out[p] != 0 && s.out[q] != 0;
    LabelInRange(I, s, |I.px|, rep, p);
    LabelInRange(I, s, |I.px|, rep, q);
    RelatedSameRoot(s.table, lost, s.next, s.out[p], s.out[q]);
  }

  lemma RejoinedIsComplete(I: Image, s: Scan, rep: seq<int>, lost: set<(int, int)>)
    requires I.w >= 1 && ScanInv(I, s, |I.px|, rep) && Traced(I, s, |I.px|, lost) && Rejoins(s.table, lost)
    ensures CompleteLabelling(I, FinalImage(s))
  {
    var now := FinalImage(s);
    forall p, q | 0 <= p < |now| && 0 <= q < |now| && Connected(I, p, q)
      ensures now[p] == now[q]
    {
      var path :| Joins(I, path, p, q);
      PathSameRoot(I, s, rep, lost, path);
    }
  }

  lemma CompleteIsRejoined(I: Image, s: Scan, rep: seq<int>, lost: set<(int, int)>)
    requires I.w >= 1 && ScanInv(I, s, |I.px|, rep) && LostConnected(I, s.next, rep, lost)
    requires CompleteLabelling(I, FinalImage(s))
    ensures Rejoins(s.table, lost)
  {
    forall e | e in lost
      ensures Root(s.table, e.0) == Root(s.table, e.1)
    {
      assert s.out[rep[e.0]] == e.0 && s.out[rep[e.1]] == e.1 && Connected(I, rep[e.0], rep[e.1]);
      assert FinalImage(s)[rep[e.0]] == FinalImage(s)[rep[e.1]];
    }
  }

  /** Exactly when the labelling is complete: for every image and every scan of it that does not overrun,
      8-connected pixels end with equal labels if and only if the final table rejoins every lost pair. */
  lemma CompleteIff(I: Image, s: Scan)
    requires Fresh(I, s) && !ScanTo(I, s, |I.px|).overrun
    ensures CompleteLabelling(I, FinalImage(ScanTo(I, s, |I.px|)))
      <==> Rejoins(ScanTo(I, s, |I.px|).table, LostTo(I, s, |I.px|))
  {
    hide ScanTo, LostTo, ScanInv, Traced, CompleteLabelling, Rejoins, LostConnected, Openers;
    var t, rep, lost := ScanTo(I, s, |I.px|), Openers(I, s, |I.px|), LostTo(I, s, |I.px|);
    ScanTraces(I, s, |I.px|);
    ScanKeeps(I, s, |I.px|);
    if Rejoins(t.table, lost) {
      RejoinedIsComplete(I, t, rep, lost);
    }
    if CompleteLabelling(I, FinalImage(t)) {
      CompleteIsRejoined(I, t, rep, lost);
    }
  }

  /** In particular it is complete when the scan loses nothing. */
  lemma LosslessIsComplete(I: Image, s: Scan)
    requires Fresh(I, s) && !ScanTo(I, s, |I.px|).overrun && LostTo(I, s, |I.px|) == {}
    ensures CompleteLabelling(I, FinalImage(ScanTo(I, s, |I.px|)))
  {
    hide CompleteLabelling;
    CompleteIff(I, s);
  }
}
