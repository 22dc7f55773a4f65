/**
  The parallel blur (blur_par.cpp:70-102): 32 workers each run the blur helper on a vertical strip of
  the same result.
 */
module BlurParallel {
  import CInt
  import Blur
  import PixelGrid
  import Workers

  const WORKERS := 32

  /** The columns of worker k; the end column excludes the strip's last column. */
  function StripStart(width: nat, k: nat): int { k * (width / WORKERS) }

  function StripEnd(width: nat, k: nat): int { (k + 1) * (width / WORKERS) - 1 }

  function Strip(job: Blur.Job, k: nat): Blur.Part {
    Blur.Part(0, job.frameHeight, StripStart(job.frameWidth, k), StripEnd(job.frameWidth, k),
      Blur.Radius(job.blurWidth))
  }

  function OnStrip(job: Blur.Job, k: nat): nat -> bool {
    (q: nat) => Blur.InPart(job, Strip(job, k), q)
  }

  /** The indices worker k writes, in the order of its loops. */
  function WorkerList(job: Blur.Job, k: nat): seq<nat> {
    Workers.Ascending(job.frameWidth * job.frameHeight * 3, OnStrip(job, k))
  }

  function Lists(job: Blur.Job): seq<seq<nat>> {
    seq(WORKERS, k requires 0 <= k < WORKERS => WorkerList(job, k))
  }

  function BlurOf(job: Blur.Job): nat -> int {
    (q: nat) => Blur.BlurAt(job, q)
  }

  ghost predicate Written(job: Blur.Job, q: nat) {
    exists k: nat :: k < WORKERS && Blur.InPart(job, Strip(job, k), q)
  }

  lemma AssignedIffWritten(job: Blur.Job, q: nat)
    requires q < job.frameWidth * job.frameHeight * 3
    ensures Workers.Assigned(Lists(job), q) <==> Written(job, q)
  {
    forall k: nat | k < WORKERS
      ensures q in Lists(job)[k] <==> Blur.InPart(job, Strip(job, k), q)
    {
      ListMembers(job, k, q);
    }
    hide Lists;
    hide Blur.InPart;
    assert |Lists(job)| == WORKERS by { ListsCount(job); }
    if Written(job, q) {
      var k: nat :| k < WORKERS && Blur.InPart(job, Strip(job, k), q);
      assert q in Lists(job)[k];
    }
  }

  lemma ListsCount(job: Blur.Job)
    ensures |Lists(job)| == WORKERS
  {
  }

  lemma ListMembers(job: Blur.Job, k: nat, q: nat)
    requires k < WORKERS && q < job.frameWidth * job.frameHeight * 3
    ensures q in Lists(job)[k] <==> Blur.InPart(job, Strip(job, k), q)
  {
    hide Blur.InPart;
    Workers.AscendingMembers(job.frameWidth * job.frameHeight * 3, OnStrip(job, k));
  }

  lemma ListsInBounds(job: Blur.Job, was: seq<int>)
    requires |was| == job.frameWidth * job.frameHeight * 3
    ensures Workers.InBounds(Workers.State(was, Lists(job)))
  {
    hide OnStrip;
    forall k: nat | k < WORKERS
      ensures forall i :: 0 <= i < |Lists(job)[k]| ==> Lists(job)[k][i] < |was|
    {
      Workers.AscendingMembers(job.frameWidth * job.frameHeight * 3, OnStrip(job, k));
    }
  }

  /** Every schedule in which the workers finish leaves, on the written pixels, exactly the bytes of the
      sequential blur, and every other byte as it was. */
  lemma StripsAgreeWithBlur(job: Blur.Job, was: seq<int>, schedule: seq<nat>, q: nat)
    requires |was| == job.frameWidth * job.frameHeight * 3 && q < |was|
    requires forall k :: 0 <= k < WORKERS ==> multiset(schedule)[k] >= |WorkerList(job, k)|
    ensures
      var start := Workers.State(was, Lists(job));
      && Workers.InBounds(start) && |Workers.Run(start, schedule, BlurOf(job)).res| == |was|
      && Workers.Run(start, schedule, BlurOf(job)).res[q] == if Written(job, q) then Blur.BlurAt(job, q) else was[q]
  {
    hide Blur.BlurAt;
    hide Workers.Run;
    hide WorkerList;
    hide Written;
    var start := Workers.State(was, Lists(job));
    ListsInBounds(job, was);
    Workers.AllSchedulesAgree(start, schedule, BlurOf(job));
    hide Workers.Assigned;
    AssignedIffWritten(job, q);
  }

  /** At every moment of every schedule a byte is either the old one or the sequential blur's. */
  lemma StripsInBetween(job: Blur.Job, was: seq<int>, schedule: seq<nat>, q: nat)
    requires |was| == job.frameWidth * job.frameHeight * 3 && q < |was|
    ensures
      var start := Workers.State(was, Lists(job));
      && Workers.InBounds(start) && |Workers.Run(start, schedule, BlurOf(job)).res| == |was|
      && Workers.Run(start, schedule, BlurOf(job)).res[q] in {was[q], Blur.BlurAt(job, q)}
      && (!Written(job, q) ==> Workers.Run(start, schedule, BlurOf(job)).res[q] == was[q])
  {
    hide Blur.BlurAt;
    hide Workers.Run;
    hide Written;
    hide Workers.Assigned;
    var start := Workers.State(was, Lists(job));
    ListsInBounds(job, was);
    hide Lists;
    Workers.AnySchedule(start, start, schedule, BlurOf(job));
    AssignedIffWritten(job, q);
  }

  /** A worker left to run alone does exactly what the helper does on its strip. */
  lemma WorkerAloneIsHelper(job: Blur.Job, was: seq<int>, k: nat, schedule: seq<nat>)
    requires |was| == job.frameWidth * job.frameHeight * 3 && k < WORKERS
    requires multiset(schedule)[0] >= |WorkerList(job, k)|
    ensures
      var start := Workers.State(was, [WorkerList(job, k)]);
      && Workers.InBounds(start)
      && Blur.PartBlurred(job, Strip(job, k), was, Workers.Run(start, schedule, BlurOf(job)).res)
  {
    hide Blur.BlurAt;
    hide Blur.InPart;
    var start := Workers.State(was, [WorkerList(job, k)]);
    Workers.AscendingMembers(job.frameWidth * job.frameHeight * 3, OnStrip(job, k));
    hide WorkerList;
    Workers.AllSchedulesAgree(start, schedule, BlurOf(job));
    hide Workers.Run;
    forall q: nat | q < |was|
      ensures Workers.Assigned(start.todo, q) <==> Blur.InPart(job, Strip(job, k), q)
    {
      assert start.todo[0] == WorkerList(job, k);
    }
  }

  /** Which pixels are written: those off the border whose column is in some strip. */
  lemma WrittenMeans(job: Blur.Job, q: nat)
    requires q < job.frameWidth * job.frameHeight * 3
    ensures
      var row, col := PixelGrid.Row(job.frameWidth, q / 3), PixelGrid.Col(job.frameWidth, q / 3);
      var radius := Blur.Radius(job.blurWidth);
      Written(job, q) <==>
        && radius <= row <= job.frameHeight - 1 - radius && radius <= col <= job.frameWidth - 1 - radius
        && exists k: nat :: k < WORKERS && StripStart(job.frameWidth, k) <= col < StripEnd(job.frameWidth, k)
  {
    Blur.PixelOfIndex(job, q);
    var col := PixelGrid.Col(job.frameWidth, q / 3);
    forall k: nat | k < WORKERS
      ensures StripStart(job.frameWidth, k) <= col < StripEnd(job.frameWidth, k)
        <==> Strip(job, k).startCol <= col < Strip(job, k).endCol
    {
    }
    hide StripStart;
    hide StripEnd;
    if exists k: nat :: k < WORKERS && StripStart(job.frameWidth, k) <= col < StripEnd(job.frameWidth, k) {
      var k: nat :| k < WORKERS && StripStart(job.frameWidth, k) <= col < StripEnd(job.frameWidth, k);
      assert Blur.InPart(job, Strip(job, k), q) <==>
        Blur.Holds(job, Strip(job, k), PixelGrid.Row(job.frameWidth, q / 3), col);
    }
  }

  /** No two strips share a column, and the last column of a strip is in none: it is never written. */
  lemma StripsApart(width: nat, j: nat, k: nat, col: int)
    requires StripStart(width, k) <= col <= StripEnd(width, k)
    requires StripStart(width, j) <= col < StripEnd(width, j)
    ensures j == k && col < StripEnd(width, k)
  {
    var n := width / WORKERS;
    assert (j + 1) * n == j * n + n && (k + 1) * n == k * n + n;
    assert n > 0;
    CInt.Scale(j, k + 1, n);
    CInt.Scale(k, j + 1, n);
  }

  predicate InStrip(width: nat, k: nat, col: int) {
    k < 32 && StripStart(width, k) <= col < StripEnd(width, k)
  }

  predicate Striped(width: nat, col: int) {
    width >= 32 && 0 <= col < 32 * (width / 32) && (col + 1) % (width / 32) != 0
  }

  /** Which columns are in some strip: those left of what the division leaves over, but for the last one of
      each strip. */
  lemma StripColumns(width: nat, col: int)
    ensures (exists k: nat :: InStrip(width, k, col)) <==> Striped(width, col)
  {
    hide InStrip, Striped;
    if k: nat :| InStrip(width, k, col) {
      StripIsStriped(width, k, col);
    }
    if Striped(width, col) {
      StripedHasStrip(width, col);
    }
  }

  lemma StripIsStriped(width: nat, k: nat, col: int)
    requires InStrip(width, k, col)
    ensures Striped(width, col)
  {
    var n := width / 32;
    StripsInFrame(width, k, col);
    assert (k + 1) * n == k * n + n;
    WithinStrip(col + 1, n, k);
  }

  lemma StripedHasStrip(width: nat, col: int)
    requires Striped(width, col)
    ensures exists k: nat :: InStrip(width, k, col)
  {
    var n := width / 32;
    Divided(col, n, 32);
    StripOf(width, n, col / n, col);
  }

  lemma StripOf(width: nat, n: nat, k: nat, col: int)
    requires n == width / 32 && k < 32 && k * n <= col < k * n + n - 1
    ensures InStrip(width, k, col)
  {
    assert (k + 1) * n == k * n + n;
  }

  lemma WithinStrip(x: int, n: nat, k: nat)
    requires k * n < x < k * n + n
    ensures x % n != 0
  {
    CInt.QuotientIs(x, n, k);
    assert x == x / n * n + x % n;
  }

  /** Where a column lies in its strip. */
  lemma Divided(col: nat, n: nat, strips: nat)
    requires n > 0 && col < strips * n && (col + 1) % n != 0
    ensures col / n < strips && col / n * n <= col < col / n * n + n - 1
  {
    var k := col / n;
    CInt.Quotient(col, n);
    assert (k + 1) * n == k * n + n;
    CInt.Scale(k, strips, n);
    if col + 1 == (k + 1) * n {
      MultipleHasNoRest(col + 1, n, k + 1);
    }
  }

  lemma MultipleHasNoRest(x: int, n: nat, k: nat)
    requires n > 0 && x == k * n
    ensures x % n == 0
  {
    CInt.QuotientIs(x, n, k);
    assert x == x / n * n + x % n;
  }

  /** The strips stay in the frame, and what the division leaves over at the right is in none. */
  lemma StripsInFrame(width: nat, k: nat, col: int)
    requires k < WORKERS && StripStart(width, k) <= col <= StripEnd(width, k)
    ensures 0 <= col < WORKERS * (width / WORKERS) <= width
  {
    CInt.Grows(k + 1, WORKERS, width / WORKERS);
  }
}
