/**
  What the links of the label table mean: the root a chain of links leads to, what
  one ascending redirect pass makes of them, and that labels with equal roots are held
  by 8-connected pixels.
 */
module BlobLinks {
  import opened PixelGrid
  import opened BlobScan

  /** The self-labelled entry that the chain of links from `l` leads to. */
  function Root(table: seq<Blob>, l: int): (r: int)
    ensures r <= l
    decreases l
  {
    if 0 <= l < |table| && 0 <= table[l].lbl < l then Root(table, table[l].lbl) else l
  }

  /** The image in which every label is replaced by the root its chain of links leads to. */
  function FinalImage(s: Scan): (r: seq<int>)
    ensures |r| == |s.out|
  {
    seq(|s.out|, p requires 0 <= p < |s.out| => if s.out[p] == 0 then 0 else Root(s.table, s.out[p]))
  }

  /** Links of issued labels point downwards. */
  ghost predicate Downward(table: seq<Blob>, next: int) {
    && 1 <= next && (next <= |table| || next == 1)
    && (forall l :: 1 <= l < next ==> 1 <= table[l].lbl <= l)
  }

  lemma {:induction false} RootMeaning(table: seq<Blob>, next: int, l: int)
    requires Downward(table, next) && 1 <= l < next
    ensures 1 <= Root(table, l) <= l && table[Root(table, l)].lbl == Root(table, l)
    ensures Root(table, l) == l <==> table[l].lbl == l
    decreases l
  {
    if table[l].lbl != l {
      RootMeaning(table, next, table[l].lbl);
    }
  }

  // ----- one ascending pass flattens -----

  /** Entries below `i` already point at their roots of `before`; the rest are untouched. */
  ghost predicate FlatBelow(before: seq<Blob>, now: seq<Blob>, next: int, i: int) {
    && |now| == |before| && Downward(before, next) && 1 <= i <= next
    && (forall l :: 1 <= l < i ==> now[l] == before[l].(lbl := Root(before, l)))
    && (forall l :: 0 <= l < |now| && !(1 <= l < i) ==> now[l] == before[l])
  }

  /** One turn of the redirect loop. */
  function Redirect(table: seq<Blob>, i: int): (r: seq<Blob>)
    requires 0 <= i < |table| && 0 <= table[i].lbl < |table|
    ensures |r| == |table|
  {
    if table[i].lbl != i then table[i := table[i].(lbl := table[table[i].lbl].lbl)] else table
  }

  lemma RedirectFlattens(before: seq<Blob>, now: seq<Blob>, next: int, i: int)
    requires FlatBelow(before, now, next, i) && i < next
    ensures 0 <= now[i].lbl < |now|
    ensures FlatBelow(before, Redirect(now, i), next, i + 1)
  {
    RootMeaning(before, next, i);
    var j := now[i].lbl;
    if j != i {
      assert now[j].lbl == Root(before, j);
    }
  }

  // ----- equal roots are connected -----

  /** A label's opening pixel is connected to that of its root. */
  lemma {:induction false} RootConnected(I: Image, table: seq<Blob>, next: int, rep: seq<int>, l: int)
    requires I.w >= 1 && TableInv(I, table, next, rep) && 1 <= l < next
    ensures 1 <= Root(table, l) <= l && Connected(I, rep[l], rep[Root(table, l)])
    decreases l
  {
    var j := table[l].lbl;
    if j != l {
      RootConnected(I, table, next, rep, j);
      ConnectedTransitive(I, rep[l], rep[j], rep[Root(table, l)]);
    } else {
      assert Root(table, l) == l;
    }
  }

  /** Two scanned pixels whose labels have the same root are 8-connected. */
  lemma SameRootConnected(I: Image, s: Scan, k: int, rep: seq<int>, p: int, q: int)
    requires I.w >= 1 && ScanInv(I, s, k, rep)
    requires 0 <= p < k && 0 <= q < k && s.out[p] != 0 && s.out[q] != 0
    requires Root(s.table, s.out[p]) == Root(s.table, s.out[q])
    ensures Connected(I, p, q)
  {
    ToRoot(I, s, k, rep, p);
    ToRoot(I, s, k, rep, q);
    var top := rep[Root(s.table, s.out[p])];
    ConnectedSymmetric(I, q, top);
    ConnectedTransitive(I, p, top, q);
  }

  lemma ToRoot(I: Image, s: Scan, k: int, rep: seq<int>, p: int)
    requires I.w >= 1 && ScanInv(I, s, k, rep) && 0 <= p < k && s.out[p] != 0
    ensures 1 <= Root(s.table, s.out[p]) < s.next
    ensures Connected(I, p, rep[Root(s.table, s.out[p])])
  {
    var l := s.out[p];
    RootConnected(I, s.table, s.next, rep, l);
    assert Connected(I, p, rep[l]);
    ConnectedTransitive(I, p, rep[l], rep[Root(s.table, l)]);
  }
}
