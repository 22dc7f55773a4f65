/**
  The statistics that `struct blob` carries (blob_detect.cpp:11-22), and the
  recount they must agree with: a fold over the pixels of a labelled image.
 */
module BlobStats {
  import CInt
  import opened PixelGrid

  /** Number of pixels, coordinate sums and bounding box. With mass 0 the other fields are unused. */
  datatype Stats = Stats(mass: int, sumX: int, sumY: int, xMin: int, xMax: int, yMin: int, yMax: int)

  const EMPTY := Stats(0, 0, 0, 0, 0, 0, 0)

  /** Account for one more pixel. */
  function Add(s: Stats, x: int, y: int): Stats {
    if s.mass == 0 then Stats(1, x, y, x, x, y, y)
    else Stats(s.mass + 1, s.sumX + x, s.sumY + y,
               CInt.Min(s.xMin, x), CInt.Max(s.xMax, x), CInt.Min(s.yMin, y), CInt.Max(s.yMax, y))
  }

  /** Combine the statistics of two disjoint sets of pixels. */
  function Merge(d: Stats, s: Stats): Stats {
    if s.mass == 0 then d
    else if d.mass == 0 then s
    else Stats(d.mass + s.mass, d.sumX + s.sumX, d.sumY + s.sumY,
               CInt.Min(d.xMin, s.xMin), CInt.Max(d.xMax, s.xMax), CInt.Min(d.yMin, s.yMin), CInt.Max(d.yMax, s.yMax))
  }

  /** The statistics of the pixels among the first `k` whose label is in `labels`, counted afresh. */
  ghost function Recount(out: seq<int>, w: int, labels: set<int>, k: nat): Stats
    requires w >= 1 && k <= |out|
  {
    if k == 0 then EMPTY
    else
      var before := Recount(out, w, labels, k - 1);
      if out[k - 1] in labels then Add(before, Col(w, k - 1), Row(w, k - 1)) else before
  }

  /** The pixels that `Recount` counts. */
  ghost function Members(out: seq<int>, labels: set<int>, k: nat): set<int>
    requires k <= |out|
  {
    set p | 0 <= p < k && out[p] in labels
  }

  /** Every pixel of `ps` has its coordinates inside the box of `s`, and each side is touched. */
  ghost predicate TightBox(s: Stats, w: int, ps: set<int>)
    requires w >= 1
  {
    && (forall p <- ps :: s.xMin <= Col(w, p) <= s.xMax && s.yMin <= Row(w, p) <= s.yMax)
    && (exists p <- ps :: Col(w, p) == s.xMin)
    && (exists p <- ps :: Col(w, p) == s.xMax)
    && (exists p <- ps :: Row(w, p) == s.yMin)
    && (exists p <- ps :: Row(w, p) == s.yMax)
  }

  /** What a recount says: the mass is the number of pixels, and the box is tight. */
  lemma {:induction false} RecountMeaning(out: seq<int>, w: int, labels: set<int>, k: nat)
    requires w >= 1 && k <= |out|
    ensures Recount(out, w, labels, k).mass == |Members(out, labels, k)|
    ensures Members(out, labels, k) == {} ==> Recount(out, w, labels, k) == EMPTY
    ensures Members(out, labels, k) != {} ==> TightBox(Recount(out, w, labels, k), w, Members(out, labels, k))
  {
    if k == 0 {
      assert Members(out, labels, 0) == {};
    } else {
      RecountMeaning(out, w, labels, k - 1);
      var before, now := Members(out, labels, k - 1), Members(out, labels, k);
      if out[k - 1] in labels {
        assert now == before + {k - 1};
        assert k - 1 in now;
        GrowBox(Recount(out, w, labels, k - 1), w, before, k - 1);
      } else {
        assert now == before;
      }
    }
  }

  lemma GrowBox(s: Stats, w: int, ps: set<int>, p: int)
    requires w >= 1 && s.mass == |ps|
    requires ps != {} ==> TightBox(s, w, ps)
    ensures TightBox(Add(s, Col(w, p), Row(w, p)), w, ps + {p})
  {
    hide Row, Col;
    var grown := ps + {p};
    assert p in grown;
    if ps != {} {
      var a :| a in ps && Col(w, a) == s.xMin;
      var b :| b in ps && Col(w, b) == s.xMax;
      var c :| c in ps && Row(w, c) == s.yMin;
      var d :| d in ps && Row(w, d) == s.yMax;
      assert a in grown && b in grown && c in grown && d in grown;
    }
  }

  /** The sum of the columns of the pixels that `Recount` counts. */
  ghost function ColumnSum(out: seq<int>, w: int, labels: set<int>, k: nat): int
    requires w >= 1 && k <= |out|
  {
    if k == 0 then 0 else ColumnSum(out, w, labels, k - 1) + if out[k - 1] in labels then Col(w, k - 1) else 0
  }

  /** The sum of their rows. */
  ghost function RowSum(out: seq<int>, w: int, labels: set<int>, k: nat): int
    requires w >= 1 && k <= |out|
  {
    if k == 0 then 0 else RowSum(out, w, labels, k - 1) + if out[k - 1] in labels then Row(w, k - 1) else 0
  }

  /** The coordinate sums of a recount are those of the pixels it counts. */
  lemma {:induction false} RecountTotals(out: seq<int>, w: int, labels: set<int>, k: nat)
    requires w >= 1 && k <= |out|
    ensures Recount(out, w, labels, k).sumX == ColumnSum(out, w, labels, k)
    ensures Recount(out, w, labels, k).sumY == RowSum(out, w, labels, k)
  {
    if k > 0 {
      RecountTotals(out, w, labels, k - 1);
      MasslessIsEmpty(out, w, labels, k - 1);
    }
  }

  lemma MasslessIsEmpty(out: seq<int>, w: int, labels: set<int>, k: nat)
    requires w >= 1 && k <= |out|
    ensures Recount(out, w, labels, k).mass == 0 ==> Recount(out, w, labels, k) == EMPTY
  {
    RecountMeaning(out, w, labels, k);
  }

  /** The coordinate sums lie between the box sides times the mass, so a centroid lies in the box. */
  ghost predicate SumsInBox(s: Stats) {
    && s.mass >= 0
    && (s.mass > 0 ==> s.xMin * s.mass <= s.sumX <= s.xMax * s.mass)
    && (s.mass > 0 ==> s.yMin * s.mass <= s.sumY <= s.yMax * s.mass)
  }

  lemma {:induction false} RecountSums(out: seq<int>, w: int, labels: set<int>, k: nat)
    requires w >= 1 && k <= |out|
    ensures SumsInBox(Recount(out, w, labels, k))
  {
    if k > 0 {
      RecountSums(out, w, labels, k - 1);
      var s := Recount(out, w, labels, k - 1);
      if out[k - 1] in labels && s.mass > 0 {
        var x, y := Col(w, k - 1), Row(w, k - 1);
        WidenBounds(s.xMin, s.xMax, s.mass, s.sumX, x);
        WidenBounds(s.yMin, s.yMax, s.mass, s.sumY, y);
      }
    }
  }

  lemma WidenBounds(lo: int, hi: int, n: int, sum: int, x: int)
    requires n > 0 && lo * n <= sum <= hi * n
    ensures CInt.Min(lo, x) * (n + 1) <= sum + x <= CInt.Max(hi, x) * (n + 1)
  {
    var a, b := CInt.Min(lo, x), CInt.Max(hi, x);
    assert a * n <= lo * n by { CInt.Grows(a, lo, n); }
    assert hi * n <= b * n by { CInt.Grows(hi, b, n); }
    assert a * (n + 1) == a * n + a;
    assert b * (n + 1) == b * n + b;
  }

  /** The integer centroid of a nonempty blob lies inside its bounding box. */
  lemma CentroidInBox(s: Stats)
    requires SumsInBox(s) && s.mass > 0
    ensures s.xMin <= s.sumX / s.mass <= s.xMax && s.yMin <= s.sumY / s.mass <= s.yMax
  {
    QuotientBounds(s.xMin, s.xMax, s.mass, s.sumX);
    QuotientBounds(s.yMin, s.yMax, s.mass, s.sumY);
  }

  lemma QuotientBounds(lo: int, hi: int, n: int, sum: int)
    requires n > 0 && lo * n <= sum <= hi * n
    ensures lo <= sum / n <= hi
  {
    var q := sum / n;
    assert sum == n * q + sum % n;
    assert (q + 1) * n == q * n + n;
    assert (hi + 1) * n == hi * n + n;
    if q < lo {
      CInt.Grows(q + 1, lo, n);
    }
    if q > hi {
      CInt.Grows(hi + 1, q, n);
    }
  }

  // ----- how recounts change -----

  lemma {:induction false} RecountPrefix(a: seq<int>, b: seq<int>, w: int, labels: set<int>, k: nat)
    requires w >= 1 && k <= |a| && k <= |b|
    requires a[..k] == b[..k]
    ensures Recount(a, w, labels, k) == Recount(b, w, labels, k)
  {
    if k > 0 {
      assert a[..k - 1] == a[..k][..k - 1] == b[..k][..k - 1] == b[..k - 1];
      assert a[k - 1] == a[..k][k - 1] == b[..k][k - 1] == b[k - 1];
      RecountPrefix(a, b, w, labels, k - 1);
    }
  }

  /** Recounting two disjoint label classes together is merging their recounts. */
  lemma {:induction false} RecountUnion(out: seq<int>, w: int, a: set<int>, b: set<int>, k: nat)
    requires w >= 1 && k <= |out| && a !! b
    ensures Recount(out, w, a + b, k) == Merge(Recount(out, w, a, k), Recount(out, w, b, k))
    ensures Recount(out, w, a, k).mass >= 0 && Recount(out, w, b, k).mass >= 0
  {
    if k > 0 {
      RecountUnion(out, w, a, b, k - 1);
    }
  }

  /** Renaming labels: recounting a class of new names is recounting everything renamed into it. */
  lemma {:induction false} RecountRenamed(out: seq<int>, renamed: seq<int>, w: int, a: set<int>, b: set<int>, k: nat)
    requires w >= 1 && k <= |out| && k <= |renamed|
    requires forall p :: 0 <= p < k ==> (renamed[p] in b <==> out[p] in a)
    ensures Recount(renamed, w, b, k) == Recount(out, w, a, k)
  {
    if k > 0 {
      RecountRenamed(out, renamed, w, a, b, k - 1);
    }
  }

  lemma {:induction false} RecountPositive(out: seq<int>, w: int, labels: set<int>, k: nat, p: int)
    requires w >= 1 && k <= |out| && 0 <= p < k && out[p] in labels
    ensures Recount(out, w, labels, k).mass > 0
  {
    RecountUnion(out, w, labels, {}, k - 1);
    if p < k - 1 {
      RecountPositive(out, w, labels, k - 1, p);
    }
  }

  /** Pixels `k..m` that carry none of the labels do not change the recount. */
  lemma {:induction false} RecountSkip(out: seq<int>, w: int, labels: set<int>, k: nat, m: nat)
    requires w >= 1 && k <= m <= |out|
    requires forall p :: k <= p < m ==> out[p] !in labels
    ensures Recount(out, w, labels, m) == Recount(out, w, labels, k)
  {
    if k < m {
      RecountSkip(out, w, labels, k, m - 1);
    }
  }
}
