/**
  The moving-average filter of the clock component (clock.c:181-228): a ring of at most 180
  samples with a running sum, proved against a bounded sliding window. The length is chosen by the
  client's frame rate: a filter of length 0 has room for one sample at a time, and one longer than its
  180 cells writes outside of them at the 181st sample.
 */
module ClockFilter {
  import opened CInt

  const MAX_FILTER_LENGTH := 180

  // ----- saturating addition -----

  function SaturateAdd(a: int, b: int): int {
    var sum := Wrap(a + b);
    if a > 0 && b > 0 && sum < 0 then TWO_63 - 1
    else if a < 0 && b < 0 && sum > 0 then -TWO_63
    else sum
  }

  predicate Int64(a: int) { -TWO_63 <= a < TWO_63 }

  function Clamp(a: int): int {
    if a < -TWO_63 then -TWO_63 else if a >= TWO_63 then TWO_63 - 1 else a
  }

  /** The addition saturates except in one case: the wrapped sum of two least integers is 0, which
      the test for a positive sum does not see. */
  lemma SaturateAddMeaning(a: int, b: int)
    requires Int64(a) && Int64(b)
    ensures SaturateAdd(a, b) == Clamp(a + b) <==> !(a == -TWO_63 && b == -TWO_63)
  {
  }

  // ----- the sliding window -----

  /** What a filter holds: the most recent samples, oldest first, their running sum, and the cell that
      the next sample goes to. */
  datatype FilterState = FilterState(length: nat, window: seq<int>, sum: int, at: nat)

  function Empty(length: nat): FilterState { FilterState(length, [], 0, 0) }

  function Cleared(f: FilterState): FilterState { Empty(f.length) }

  function Dropped(f: FilterState): FilterState {
    if f.window == [] then f else f.(window := f.window[1..], sum := Wrap(f.sum - f.window[0]))
  }

  function Inserted(f: FilterState, sample: int): FilterState {
    var g := if |f.window| == f.length then Dropped(f) else f;
    FilterState(f.length, g.window + [sample], SaturateAdd(g.sum, sample), IndexAfter(f.at, f.length))
  }

  /** The next sample would be written outside of the filter. */
  predicate Overruns(f: FilterState) { f.at >= MAX_FILTER_LENGTH }

  /** filter_index_wrap */
  function IndexAfter(index: nat, length: nat): nat { if index + 1 < length then index + 1 else 0 }

  /** The number of indices that a filter goes round. */
  function Size(length: nat): nat { if length == 0 then 1 else length }

  /** The number of samples that fit. */
  function Room(length: nat): nat { Min(Size(length), MAX_FILTER_LENGTH) }

  function Total(w: seq<int>): int {
    if w == [] then 0 else Total(w[..|w| - 1]) + w[|w| - 1]
  }

  ghost predicate Bounded(w: seq<int>, lo: int, hi: int) {
    forall i :: 0 <= i < |w| ==> lo <= w[i] <= hi
  }

  /** The filter holds no more samples than fit, each between `lo` and `hi`, and their exact sum. */
  ghost predicate Exact(f: FilterState, lo: int, hi: int) {
    && |f.window| <= Room(f.length) && Bounded(f.window, lo, hi) && f.sum == Total(f.window)
    && f.at < Size(f.length) && (f.length > MAX_FILTER_LENGTH ==> |f.window| <= f.at <= MAX_FILTER_LENGTH)
  }

  /** An insert stays within the filter: there is a cell for it, and a filter of length 0 is empty. */
  predicate CanInsert(f: FilterState) { !Overruns(f) && (f.length == 0 ==> f.window == []) }

  /** Bounds small enough that a full window of that length cannot overflow. */
  ghost predicate SmallBounds(length: nat, lo: int, hi: int) {
    lo <= 0 <= hi && -TWO_63 <= lo * length && hi * length < TWO_63
  }

  lemma {:induction false} TotalFront(w: seq<int>)
    requires w != []
    ensures Total(w) == w[0] + Total(w[1..])
  {
    if |w| > 1 {
      var n := |w| - 1;
      TotalFront(w[..n]);
      assert w[..n][1..] == w[1..][..n - 1];
    }
  }

  lemma {:induction false} TotalBounds(w: seq<int>, lo: int, hi: int)
    requires Bounded(w, lo, hi)
    ensures lo * |w| <= Total(w) <= hi * |w|
  {
    if w != [] {
      var n := |w| - 1;
      TotalBounds(w[..n], lo, hi);
      assert lo * (n + 1) == lo * n + lo && hi * (n + 1) == hi * n + hi;
    }
  }

  lemma Fewer(x: int, n: nat, m: nat)
    requires n <= m
    ensures x >= 0 ==> x * n <= x * m
    ensures x <= 0 ==> x * m <= x * n
  {
    assert x * m - x * n == x * (m - n);
  }

  /** The sum of a bounded window fits in 64 bits. */
  lemma TotalFits(w: seq<int>, length: nat, lo: int, hi: int)
    requires Bounded(w, lo, hi) && |w| <= length && SmallBounds(length, lo, hi)
    ensures Int64(Total(w))
  {
    TotalBounds(w, lo, hi);
    Fewer(lo, |w|, length);
    Fewer(hi, |w|, length);
  }

  lemma DroppedExact(f: FilterState, lo: int, hi: int)
    requires Exact(f, lo, hi) && SmallBounds(Room(f.length), lo, hi)
    ensures Exact(Dropped(f), lo, hi)
  {
    if f.window != [] {
      TotalFront(f.window);
      TotalFits(f.window[1..], Room(f.length), lo, hi);
      WrapFits(Total(f.window[1..]));
    }
  }

  lemma SaturateFits(a: int, b: int)
    requires Int64(a) && Int64(a + b)
    ensures SaturateAdd(a, b) == a + b
  {
    WrapFits(a + b);
    hide Wrap;
  }

  /** An insert leaves room, and moves on to the next cell. */
  lemma InsertedFits(f: FilterState, lo: int, hi: int, sample: int)
    requires Exact(f, lo, hi) && CanInsert(f)
    ensures
      var r := Inserted(f, sample);
      && r.length == f.length && |r.window| <= Room(f.length) && r.at < Size(f.length)
      && (f.length > MAX_FILTER_LENGTH ==> |r.window| <= r.at <= MAX_FILTER_LENGTH)
  {
    hide Wrap, SaturateAdd, Bounded, Total;
  }

  lemma TotalAppend(w: seq<int>, x: int, lo: int, hi: int)
    requires Bounded(w, lo, hi) && lo <= x <= hi
    ensures Total(w + [x]) == Total(w) + x && Bounded(w + [x], lo, hi)
  {
    assert (w + [x])[..|w|] == w;
  }

  /** Inserting never saturates: the sum stays the exact sum of the most recent samples. */
  lemma InsertedExact(f: FilterState, lo: int, hi: int, sample: int)
    requires Exact(f, lo, hi) && SmallBounds(Room(f.length), lo, hi) && lo <= sample <= hi && CanInsert(f)
    ensures Exact(Inserted(f, sample), lo, hi)
  {
    hide *;
    DroppedExact(f, lo, hi);
    InsertedFits(f, lo, hi, sample);
    var g := if |f.window| == f.length then Dropped(f) else f;
    InsertedIs(f, g, sample);
    ExactParts(g, lo, hi);
    TotalAppend(g.window, sample, lo, hi);
    TotalFits(g.window, Room(f.length), lo, hi);
    TotalFits(g.window + [sample], Room(f.length), lo, hi);
    IntoInt64(Total(g.window), Total(g.window + [sample]), sample);
    ExactFrom(Inserted(f, sample), lo, hi);
  }

  lemma InsertedIs(f: FilterState, g: FilterState, sample: int)
    requires g == if |f.window| == f.length then Dropped(f) else f
    ensures g.length == f.length
    ensures Inserted(f, sample).window == g.window + [sample]
    ensures Inserted(f, sample).sum == SaturateAdd(g.sum, sample)
  {
    hide Wrap, SaturateAdd;
  }

  lemma ExactParts(f: FilterState, lo: int, hi: int)
    requires Exact(f, lo, hi)
    ensures |f.window| <= Room(f.length) && Bounded(f.window, lo, hi) && f.sum == Total(f.window)
  {
  }

  lemma ExactFrom(f: FilterState, lo: int, hi: int)
    requires |f.window| <= Room(f.length) && Bounded(f.window, lo, hi) && f.sum == Total(f.window)
    requires f.at < Size(f.length) && (f.length > MAX_FILTER_LENGTH ==> |f.window| <= f.at <= MAX_FILTER_LENGTH)
    ensures Exact(f, lo, hi)
  {
  }

  lemma IntoInt64(a: int, sum: int, b: int)
    requires Int64(a) && Int64(sum) && sum == a + b
    ensures SaturateAdd(a, b) == sum
  {
    hide SaturateAdd;
    SaturateFits(a, b);
  }

  datatype FilterOp = Reset | Drop | Insert(sample: int)

  function Apply(f: FilterState, op: FilterOp): FilterState {
    match op
    case Reset => Cleared(f)
    case Drop => Dropped(f)
    case Insert(x) => Inserted(f, x)
  }

  function ApplyAll(f: FilterState, ops: seq<FilterOp>): FilterState {
    if ops == [] then f else Apply(ApplyAll(f, ops[..|ops| - 1]), ops[|ops| - 1])
  }

  /** The samples inserted since the last reset. */
  function Samples(ops: seq<FilterOp>): seq<int> {
    if ops == [] then []
    else match ops[|ops| - 1]
      case Reset => []
      case Drop => Samples(ops[..|ops| - 1])
      case Insert(x) => Samples(ops[..|ops| - 1]) + [x]
  }

  ghost predicate SmallSamples(ops: seq<FilterOp>, lo: int, hi: int) {
    forall i :: 0 <= i < |ops| && ops[i].Insert? ==> lo <= ops[i].sample <= hi
  }

  /** `w` is the end of `all`. */
  ghost predicate Latest(w: seq<int>, all: seq<int>) {
    |w| <= |all| && w == all[|all| - |w|..]
  }

  lemma LatestKeeps(w: seq<int>, all: seq<int>, x: int)
    requires Latest(w, all)
    ensures Latest(w + [x], all + [x])
    ensures w != [] ==> Latest(w[1..], all) && Latest(w[1..] + [x], all + [x])
  {
  }

  /** How many samples a filter holds: an insert adds one until the filter is full, a drop takes one
      away until it is empty. */
  function CountAfter(length: nat, count: nat, op: FilterOp): nat {
    match op
    case Reset => 0
    case Drop => if count > 0 then count - 1 else 0
    case Insert(_) => if count < length then count + 1 else count
  }

  function Count(length: nat, ops: seq<FilterOp>): nat {
    if ops == [] then 0 else CountAfter(length, Count(length, ops[..|ops| - 1]), ops[|ops| - 1])
  }

  /** A filter longer than its cells gets no more samples than it has cells before it is reset. */
  predicate InCells(length: nat, ops: seq<FilterOp>) {
    length > MAX_FILTER_LENGTH ==> forall i :: 0 <= i <= |ops| ==> |Samples(ops[..i])| <= MAX_FILTER_LENGTH
  }

  /** After any mix of resets, drops and inserts of small samples, the filter holds exactly
      the latest `Count` of the samples inserted since the last reset, and their exact sum; and the next
      sample would be written outside of the filter exactly when the filter is longer than its 180 cells
      and as many samples have been inserted since the last reset. */
  lemma {:induction false} FilterRefinesWindow(length: nat, ops: seq<FilterOp>, lo: int, hi: int)
    requires length >= 1 && SmallBounds(Room(length), lo, hi) && SmallSamples(ops, lo, hi) && InCells(length, ops)
    ensures
      var f := ApplyAll(Empty(length), ops);
      && f.length == length && Exact(f, lo, hi) && Latest(f.window, Samples(ops)) && |f.window| == Count(length, ops)
      && (length > MAX_FILTER_LENGTH ==> f.at == |Samples(ops)|)
      && (Overruns(f) <==> length > 180 && |Samples(ops)| == 180)
  {
    hide Wrap, SaturateAdd, Exact, Latest, SmallBounds, Overruns;
    if ops == [] {
      NothingYet(length, lo, hi);
    } else {
      var n := |ops| - 1;
      InCellsBefore(length, ops);
      FilterRefinesWindow(length, ops[..n], lo, hi);
      var f := ApplyAll(Empty(length), ops[..n]);
      ApplyRefines(f, Samples(ops[..n]), ops[n], lo, hi);
    }
  }

  lemma InCellsBefore(length: nat, ops: seq<FilterOp>)
    requires ops != [] && InCells(length, ops)
    ensures InCells(length, ops[..|ops| - 1])
    ensures length > MAX_FILTER_LENGTH ==> |Samples(ops)| <= MAX_FILTER_LENGTH
  {
    hide Samples;
    var before := ops[..|ops| - 1];
    assert ops[..|ops|] == ops;
    forall i | length > MAX_FILTER_LENGTH && 0 <= i <= |before|
      ensures |Samples(before[..i])| <= MAX_FILTER_LENGTH
    {
      assert before[..i] == ops[..i];
    }
  }

  lemma NothingYet(length: nat, lo: int, hi: int)
    requires length >= 1
    ensures Exact(Empty(length), lo, hi) && Latest([], []) && !Overruns(Empty(length))
  {
  }

  function SamplesAfter(all: seq<int>, op: FilterOp): seq<int> {
    match op case Reset => [] case Drop => all case Insert(x) => all + [x]
  }

  /** Where the next sample goes. */
  lemma ApplyIndex(f: FilterState, all: seq<int>, op: FilterOp, lo: int, hi: int)
    requires f.length >= 1 && Exact(f, lo, hi)
    requires f.length > MAX_FILTER_LENGTH ==> f.at == |all| && |SamplesAfter(all, op)| <= MAX_FILTER_LENGTH
    ensures op.Insert? ==> CanInsert(f)
    ensures f.length > MAX_FILTER_LENGTH ==> Apply(f, op).at == |SamplesAfter(all, op)|
    ensures Apply(f, op).at < f.length
  {
    hide Wrap, SaturateAdd, Bounded, Total;
  }

  lemma ApplyRefines(f: FilterState, all: seq<int>, op: FilterOp, lo: int, hi: int)
    requires f.length >= 1 && Exact(f, lo, hi) && SmallBounds(Room(f.length), lo, hi) && Latest(f.window, all)
    requires op.Insert? ==> lo <= op.sample <= hi
    requires f.length > MAX_FILTER_LENGTH ==> f.at == |all| && |SamplesAfter(all, op)| <= MAX_FILTER_LENGTH
    ensures Apply(f, op).length == f.length && Exact(Apply(f, op), lo, hi)
    ensures |Apply(f, op).window| == CountAfter(f.length, |f.window|, op)
    ensures Latest(Apply(f, op).window, SamplesAfter(all, op))
    ensures f.length > MAX_FILTER_LENGTH ==> Apply(f, op).at == |SamplesAfter(all, op)|
    ensures Overruns(Apply(f, op)) <==>
      f.length > MAX_FILTER_LENGTH && |SamplesAfter(all, op)| == MAX_FILTER_LENGTH
  {
    ApplyIndex(f, all, op, lo, hi);
    WindowFits(f, lo, hi);
    hide Wrap, SaturateAdd, SmallBounds, Exact, IndexAfter, CanInsert;
    match op {
      case Reset =>
        NothingYet(f.length, lo, hi);
      case Drop =>
        DroppedExact(f, lo, hi);
        LatestKeeps(f.window, all, 0);
      case Insert(x) =>
        InsertedExact(f, lo, hi, x);
        InsertKeepsUnlessFull(f, x);
        LatestKeeps(f.window, all, x);
    }
  }

  lemma WindowFits(f: FilterState, lo: int, hi: int)
    requires Exact(f, lo, hi)
    ensures |f.window| <= Size(f.length)
  {
  }

  /** A sample is only lost when the window is full or by an explicit drop. */
  lemma InsertKeepsUnlessFull(f: FilterState, x: int)
    requires 1 <= f.length && |f.window| <= f.length
    ensures |f.window| < f.length ==> Inserted(f, x).window == f.window + [x]
    ensures |f.window| == f.length ==> Inserted(f, x).window == f.window[1..] + [x]
    ensures |Inserted(f, x).window| <= f.length
  {
  }

  /** The mean of an exact, nonempty filter lies between its bounds. */
  lemma MeanBetween(f: FilterState, lo: int, hi: int)
    requires Exact(f, lo, hi) && f.window != []
    ensures lo <= Div(f.sum, |f.window|) <= hi
  {
    TotalBounds(f.window, lo, hi);
    DivBetween(lo, hi, |f.window|, f.sum);
  }

  // ----- the ring -----

  /** An index below 2 * length, reduced modulo length. */
  function Around(index: int, length: int): int {
    if index < length then index else index - length
  }

  /** `size` indices, of which those of the cells are used before any is used again. */
  ghost predicate RingOk(cells: seq<int>, first: int, count: int, size: int) {
    && 1 <= size && 0 <= first < size && 0 <= count <= size
    && (size > |cells| ==> first + count <= |cells|)
  }

  /** The `count` cells from `first` on, wrapping at `size`. */
  ghost function Ring(cells: seq<int>, first: int, count: int, size: int): (r: seq<int>)
    requires RingOk(cells, first, count, size)
    ensures |r| == count
  {
    if first + count <= size then cells[first..first + count]
    else cells[first..size] + cells[..first + count - size]
  }

  lemma RingDrop(cells: seq<int>, first: int, count: int, size: int)
    requires RingOk(cells, first, count, size) && count > 0
    ensures first < |cells| && Ring(cells, first, count, size)[0] == cells[first]
    ensures RingOk(cells, Around(first + 1, size), count - 1, size)
    ensures Ring(cells, first, count, size)[1..] == Ring(cells, Around(first + 1, size), count - 1, size)
  {
  }

  lemma RingAppend(cells: seq<int>, first: int, count: int, size: int, x: int)
    requires RingOk(cells, first, count, size) && count < size && Around(first + count, size) < |cells|
    ensures Ring(cells[Around(first + count, size) := x], first, count + 1, size)
         == Ring(cells, first, count, size) + [x]
  {
  }

  class Filter {
    var first: nat
    var last: nat
    var count: nat
    var length: nat
    var sum: int
    const h: array<int>

    ghost predicate Valid()
      reads this
    {
      && h.Length == MAX_FILTER_LENGTH && first < Size(length) && count <= Size(length)
      && (Size(length) > MAX_FILTER_LENGTH ==> first + count <= MAX_FILTER_LENGTH)
      && IndexAfter(last, length) == Around(first + count, Size(length))
    }

    ghost function State(): FilterState
      requires Valid()
      reads this, h
    {
      FilterState(length, Ring(h[..], first, count, Size(length)), sum, IndexAfter(last, length))
    }

    constructor (len: nat)
      ensures Valid() && fresh(h) && State() == Empty(len)
      ensures last == LastOf(len) && length == len
    {
      first, count, sum := 0, 0, 0;
      last, length := LastOf(len), len;
      h := new int[MAX_FILTER_LENGTH](_ => 0);
    }

    /** filter_init on a filter that keeps its length. */
    method Init()
      requires Valid()
      modifies this, h
      ensures Valid() && State() == Cleared(old(State()))
      ensures length == old(length) && last == LastOf(length)
    {
      first, count, sum := 0, 0, 0;
      last := LastOf(length);
      forall i | 0 <= i < h.Length { h[i] := 0; }
    }

    method IndexWrap(index: nat) returns (r: nat)
      ensures r == IndexAfter(index, length) && r < Size(length)
      ensures index < Size(length) ==> r == Around(index + 1, Size(length))
    {
      r := if index + 1 < length then index + 1 else 0;
    }

    method Drop()
      requires Valid()
      modifies this
      ensures Valid() && State() == Dropped(old(State()))
      ensures length == old(length) && last == old(last) && (old(count) > 0 ==> count == old(count) - 1)
    {
      hide Wrap, Ring;
      if count == 0 { return; }
      RingDrop(h[..], first, count, Size(length));
      sum := Wrap(sum - h[first]);
      first := IndexWrap(first);
      count := count - 1;
    }

    /** Insertion into a filter that is not full and has a cell for the sample. */
    method Append(sample: int)
      requires Valid() && count < Size(length) && !Overruns(State())
      modifies this, h
      ensures Valid() && last == old(IndexAfter(last, length))
      ensures State() == FilterState(old(length), old(State().window) + [sample], SaturateAdd(old(sum), sample),
                                     old(IndexAfter(IndexAfter(last, length), length)))
    {
      hide SaturateAdd, Ring;
      RingAppend(h[..], first, count, Size(length), sample);
      ghost var cells := h[..];
      last := IndexWrap(last);
      h[last] := sample;
      assert h[..] == cells[last := sample];
      sum := SaturateAdd(sum, sample);
      count := count + 1;
    }

    /** filter_insert, where it stays within the filter. */
    method Insert(sample: int)
      requires Valid() && CanInsert(State())
      modifies this, h
      ensures Valid() && State() == Inserted(old(State()), sample)
      ensures length == old(length) && last == old(IndexAfter(last, length))
    {
      hide SaturateAdd, Wrap;
      if count == length {
        Drop();
      }
      Append(sample);
    }
  }

  /** The `uint32_t` index before 0. */
  function LastOf(length: nat): nat { if length == 0 then 0xFFFF_FFFF else length - 1 }
}
