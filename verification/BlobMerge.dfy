/**
  The descending merge of the label table: which labels belong to which root, what the
  statistics of a root are once the labels above it have been merged, and what that means
  for the relabelled image.
 */
module BlobMerge {
  import opened BlobStats
  import opened BlobScan

  /** A flattened table whose entries hold the statistics of their own pixels. */
  ghost predicate Flat(w: int, out: seq<int>, table: seq<Blob>, next: int)
    requires w >= 1
  {
    && 1 <= next && (next <= |table| || next == 1)
    && (forall l :: 1 <= l < next ==> 1 <= table[l].lbl <= l)
    && (forall l {:trigger table[l]} :: 1 <= l < next ==> table[table[l].lbl].lbl == table[l].lbl)
    && (forall l :: 1 <= l < next ==> table[l].stats == Recount(out, w, {l}, |out|))
    && (forall l :: 1 <= l < next ==> table[l].stats.mass > 0)
    && (forall p :: 0 <= p < |out| ==> 0 <= out[p] < next)
  }

  /** The labels above `i` that are redirected to `d`. */
  ghost function Above(table: seq<Blob>, next: int, d: int, i: int): set<int> {
    set l | i < l < next && 0 <= l < |table| && table[l].lbl == d
  }

  /** All labels of the blob whose root is `d`. */
  ghost function Members(table: seq<Blob>, next: int, d: int): set<int> {
    Above(table, next, d, 0)
  }

  /** The roots among the labels from `i` on, in descending order. */
  ghost function RootsFrom(table: seq<Blob>, next: int, i: int): seq<int>
    decreases next - i
  {
    if i >= next || !(0 <= i < |table|) then []
    else RootsFrom(table, next, i + 1) + if table[i].lbl == i then [i] else []
  }

  /** What is recorded for a blob: its statistics and its integer centroid. */
  ghost function Recorded(index: int, s: Stats): Blob
    requires s.mass != 0
  {
    Blob(index, s, s.sumX / s.mass, s.sumY / s.mass)
  }

  /** Entry `d` holds its own pixels and those of the labels above `i` redirected to it. */
  ghost predicate MergedEntry(w: int, out: seq<int>, before: seq<Blob>, now: seq<Blob>, next: int, i: int, d: int)
    requires w >= 1 && 0 <= d < |now| == |before|
  {
    now[d].lbl == before[d].lbl && now[d].stats.mass > 0
    && now[d].stats == Recount(out, w, {d} + Above(before, next, d, i), |out|)
  }

  ghost predicate MergedAbove(w: int, out: seq<int>, before: seq<Blob>, now: seq<Blob>, next: int, i: int)
    requires w >= 1
  {
    && |now| == |before| && Flat(w, out, before, next) && 0 <= i < next
    && (forall l :: 0 <= l < |now| ==> now[l].lbl == before[l].lbl)
    && (forall d :: 1 <= d <= i ==> MergedEntry(w, out, before, now, next, i, d))
  }

  lemma MergeStarts(w: int, out: seq<int>, table: seq<Blob>, next: int)
    requires w >= 1 && Flat(w, out, table, next)
    ensures MergedAbove(w, out, table, table, next, next - 1)
  {
    var top := next - 1;
    forall d | 1 <= d <= top
      ensures MergedEntry(w, out, table, table, next, top, d)
    {
      assert {d} + Above(table, next, d, top) == {d};
    }
  }

  /** A label that is not a root has no label redirected to it. */
  lemma NothingAboveChild(w: int, out: seq<int>, table: seq<Blob>, next: int, i: int)
    requires w >= 1 && Flat(w, out, table, next) && 1 <= i < next && table[i].lbl != i
    ensures Above(table, next, i, i) == {}
  {
    forall l | i < l < next && 0 <= l < |table|
      ensures table[l].lbl != i
    {
      assert table[table[l].lbl].lbl == table[l].lbl;
    }
  }

  /** A label that is not redirected to `d` adds nothing to `d`. */
  lemma OthersUnchanged(w: int, out: seq<int>, before: seq<Blob>, now: seq<Blob>, next: int, i: int, d: int)
    requires w >= 1 && MergedAbove(w, out, before, now, next, i) && 1 <= d < i && before[i].lbl != d
    ensures MergedEntry(w, out, before, now, next, i - 1, d)
  {
    assert MergedEntry(w, out, before, now, next, i, d);
    assert Above(before, next, d, i - 1) == Above(before, next, d, i);
  }

  /** Merging a redirected entry into its root. */
  lemma MergeChild(w: int, out: seq<int>, before: seq<Blob>, now: seq<Blob>, next: int, i: int)
    requires w >= 1 && MergedAbove(w, out, before, now, next, i) && 1 <= i && before[i].lbl != i
    ensures
      var d := before[i].lbl;
      && 1 <= d < i && now[d].stats.mass > 0 && now[i].stats.mass > 0
      && MergedAbove(w, out, before, now[d := now[d].(stats := Merge(now[d].stats, now[i].stats))], next, i - 1)
  {
    var d := before[i].lbl;
    assert MergedEntry(w, out, before, now, next, i, i);
    assert MergedEntry(w, out, before, now, next, i, d);
    NothingAboveChild(w, out, before, next, i);
    var own := {d} + Above(before, next, d, i);
    RecountUnion(out, w, own, {i}, |out|);
    assert {d} + Above(before, next, d, i - 1) == own + {i};
    assert {i} + Above(before, next, i, i) == {i};
    var t := now[d := now[d].(stats := Merge(now[d].stats, now[i].stats))];
    var j := i - 1;
    forall e | 1 <= e <= j
      ensures MergedEntry(w, out, before, t, next, j, e)
    {
      if e != d {
        OthersUnchanged(w, out, before, now, next, i, e);
      }
    }
  }

  /** When the merge reaches a root, its entry holds the whole blob. */
  lemma MergeRoot(w: int, out: seq<int>, before: seq<Blob>, now: seq<Blob>, next: int, i: int)
    requires w >= 1 && MergedAbove(w, out, before, now, next, i) && 1 <= i && before[i].lbl == i
    ensures now[i].stats == Recount(out, w, Members(before, next, i), |out|) && now[i].stats.mass > 0
    ensures MergedAbove(w, out, before, now, next, i - 1)
  {
    assert MergedEntry(w, out, before, now, next, i, i);
    assert {i} + Above(before, next, i, i) == Members(before, next, i);
    var j := i - 1;
    forall e | 1 <= e <= j
      ensures MergedEntry(w, out, before, now, next, j, e)
    {
      OthersUnchanged(w, out, before, now, next, i, e);
    }
  }

  /** The recorded blobs: one for each root from `i` on, in descending order of the roots, each
      with the statistics of all pixels whose label belongs to that root. */
  ghost predicate RecordedFrom(w: int, out: seq<int>, table: seq<Blob>, next: int, blobs: seq<Blob>, i: int)
    requires w >= 1
  {
    var roots := RootsFrom(table, next, i);
    && |blobs| == |roots|
    && (forall k :: 0 <= k < |roots| ==>
        var s := Recount(out, w, Members(table, next, roots[k]), |out|);
        s.mass > 0 && blobs[k] == Recorded(k, s))
  }

  lemma {:induction false} RootsMeaning(table: seq<Blob>, next: int, i: int)
    requires 0 <= i <= next && (next <= |table| || next <= i)
    ensures forall k :: 0 <= k < |RootsFrom(table, next, i)| ==>
      var r := RootsFrom(table, next, i)[k];
      i <= r < next && table[r].lbl == r
    ensures forall j, k :: 0 <= j < k < |RootsFrom(table, next, i)| ==>
      RootsFrom(table, next, i)[j] > RootsFrom(table, next, i)[k]
    ensures forall l :: i <= l < next && table[l].lbl == l ==> l in RootsFrom(table, next, i)
    ensures |RootsFrom(table, next, i)| <= next - i
    decreases next - i
  {
    if i < next {
      RootsMeaning(table, next, i + 1);
    }
  }

  // ----- the relabelled image -----

  /** Every label replaced by what its entry is redirected to. */
  ghost predicate Relabelled(out: seq<int>, table: seq<Blob>, now: seq<int>) {
    && |now| == |out|
    && (forall p :: 0 <= p < |out| ==> 0 <= out[p] < |table| || out[p] == 0)
    && (forall p :: 0 <= p < |out| ==> now[p] == if out[p] != 0 then table[out[p]].lbl else 0)
  }

  ghost function FinalLabels(out: seq<int>): set<int> {
    set p | 0 <= p < |out| && out[p] != 0 :: out[p]
  }

  /** Recounting a final label is recounting all labels of its blob. */
  lemma RelabelledRecount(w: int, out: seq<int>, table: seq<Blob>, next: int, now: seq<int>, d: int)
    requires w >= 1 && Flat(w, out, table, next) && Relabelled(out, table, now) && 1 <= d
    ensures Recount(now, w, {d}, |now|) == Recount(out, w, Members(table, next, d), |out|)
  {
    RecountRenamed(out, now, w, Members(table, next, d), {d}, |out|);
  }

  /** The final labels are exactly the roots, so there are as many as recorded blobs. */
  lemma FinalLabelsAreRoots(w: int, out: seq<int>, table: seq<Blob>, next: int, now: seq<int>)
    requires w >= 1 && Flat(w, out, table, next) && Relabelled(out, table, now)
    requires forall l :: 1 <= l < next ==> l in out
    ensures FinalLabels(now) == Elements(RootsFrom(table, next, 1))
    ensures |FinalLabels(now)| == |RootsFrom(table, next, 1)|
  {
    var roots := RootsFrom(table, next, 1);
    RootsMeaning(table, next, 1);
    forall l | l in roots
      ensures l in FinalLabels(now)
    {
      assert l in out;
      var p :| 0 <= p < |out| && out[p] == l;
      assert now[p] == l;
    }
    forall p | 0 <= p < |now| && now[p] != 0
      ensures now[p] in roots
    {
      assert table[table[out[p]].lbl].lbl == table[out[p]].lbl;
    }
    assert FinalLabels(now) == Elements(roots);
    DistinctSize(roots);
  }

  ghost function Elements(xs: seq<int>): set<int> { set x | x in xs }

  ghost predicate Descending(xs: seq<int>) { forall i, j :: 0 <= i < j < |xs| ==> xs[i] > xs[j] }

  lemma SplitLast(xs: seq<int>)
    requires xs != [] && Descending(xs)
    ensures
      var n := |xs| - 1;
      Descending(xs[..n]) && xs[n] !in Elements(xs[..n]) && Elements(xs) == Elements(xs[..n]) + {xs[n]}
  {
    var n := |xs| - 1;
    assert xs == xs[..n] + [xs[n]];
  }

  lemma {:induction false} DistinctSize(xs: seq<int>)
    requires Descending(xs)
    ensures |Elements(xs)| == |xs|
  {
    if xs != [] {
      SplitLast(xs);
      DistinctSize(xs[..|xs| - 1]);
    }
  }

  /** Total mass of the pixels of some final labels. */
  ghost function SumMass(now: seq<int>, w: int, labels: seq<int>): int
    requires w >= 1
  {
    if labels == [] then 0
    else SumMass(now, w, labels[..|labels| - 1]) + Recount(now, w, {labels[|labels| - 1]}, |now|).mass
  }

  lemma {:induction false} SumMassMeaning(now: seq<int>, w: int, labels: seq<int>)
    requires w >= 1 && Descending(labels)
    ensures SumMass(now, w, labels) == Recount(now, w, Elements(labels), |now|).mass
  {
    hide Recount, Elements, Descending;
    if labels == [] {
      RecountNothing(now, w, |now|);
      NoElements();
    } else {
      var n := |labels| - 1;
      SplitLast(labels);
      SumMassMeaning(now, w, labels[..n]);
      RecountUnion(now, w, Elements(labels[..n]), {labels[n]}, |now|);
    }
  }

  lemma NoElements()
    ensures Elements([]) == {}
  {
  }

  lemma {:induction false} RecountNothing(out: seq<int>, w: int, k: nat)
    requires w >= 1 && k <= |out|
    ensures Recount(out, w, {}, k) == EMPTY
  {
    if k > 0 {
      RecountNothing(out, w, k - 1);
    }
  }

  ghost function Labelled(now: seq<int>): set<int> { set p | 0 <= p < |now| && now[p] != 0 }

  /** The masses of all blobs add up to the number of labelled pixels. */
  lemma MassesTotal(w: int, out: seq<int>, table: seq<Blob>, next: int, now: seq<int>)
    requires w >= 1 && Flat(w, out, table, next) && Relabelled(out, table, now)
    requires forall l :: 1 <= l < next ==> l in out
    ensures SumMass(now, w, RootsFrom(table, next, 1)) == |Labelled(now)|
  {
    var roots := RootsFrom(table, next, 1);
    RootsMeaning(table, next, 1);
    FinalLabelsAreRoots(w, out, table, next, now);
    SumMassMeaning(now, w, roots);
    LabelledMass(now, w);
    hide *;
  }

  lemma LabelledMass(now: seq<int>, w: int)
    requires w >= 1
    ensures Recount(now, w, FinalLabels(now), |now|).mass == |Labelled(now)|
  {
    hide Recount;
    RecountMeaning(now, w, FinalLabels(now), |now|);
    assert BlobStats.Members(now, FinalLabels(now), |now|) == Labelled(now);
  }

  /** The total of the recorded masses. */
  ghost function TotalMass(blobs: seq<Blob>): int {
    if blobs == [] then 0 else TotalMass(blobs[..|blobs| - 1]) + blobs[|blobs| - 1].stats.mass
  }

  lemma {:induction false} TotalIsSum(w: int, now: seq<int>, labels: seq<int>, blobs: seq<Blob>)
    requires w >= 1 && |blobs| == |labels|
    requires forall k :: 0 <= k < |blobs| ==> blobs[k].stats.mass == Recount(now, w, {labels[k]}, |now|).mass
    ensures TotalMass(blobs) == SumMass(now, w, labels)
  {
    if blobs != [] {
      TotalIsSum(w, now, labels[..|labels| - 1], blobs[..|blobs| - 1]);
    }
  }
}
