/**
  The audio decoder's output slicer (avcodec_audio_decoder.c:306-352 and its use at 355-373): a decoded
  block is handed out in slices, one per free output buffer, each of as many whole samples as fit.
 */
module AudioSlicer {
  import CInt
  import opened Mmal

  /** The configured output format; its fields are checked to be nonzero when it is set. */
  datatype FormatFields = Format(channels: int, sampleRate: int, bitsPerSample: int, sampleFmt: int)
  type Format = f: FormatFields | f.channels > 0 && f.sampleRate > 0 && f.bitsPerSample > 0 witness Format(1, 1, 8, 0)

  datatype Clock = Clock(pts: int, lastPts: int, samples: nat)

  datatype Slice = Slice(data: seq<int>, samples: nat, pts: int)

  /** What sending a slice works on: the rest of the block, the sizes of the free output buffers, the
      time keeping, and what was sent. */
  datatype State = State(block: seq<int>, free: seq<nat>, clock: Clock, sent: seq<Slice>)

  function Samples(size: nat, f: Format): nat { size / f.channels * 8 / f.bitsPerSample }

  function SliceSize(size: nat, f: Format): nat { Samples(size, f) * f.channels * f.bitsPerSample / 8 }

  /** A slice is never larger than what it is cut from. */
  lemma SliceFits(size: nat, f: Format)
    ensures SliceSize(size, f) <= size
  {
    var q, s, b, c := size / f.channels, Samples(size, f), f.bitsPerSample, f.channels;
    assert s * b <= q * 8;
    assert q * c <= size;
    assert s * c * b == c * (s * b) <= c * (q * 8) == (q * c) * 8 <= size * 8 by {
      assert c * (s * b) <= c * (q * 8);
    }
  }

  /** The bytes of one sample on every channel, when samples are whole bytes. */
  function Frame(f: Format): nat { f.channels * (f.bitsPerSample / 8) }

  /** With whole-byte samples, a slice holds as many whole frames as there is room for. */
  lemma SliceIsWholeFrames(size: nat, f: Format)
    requires f.bitsPerSample % 8 == 0
    ensures Frame(f) > 0 && Samples(size, f) == size / Frame(f)
    ensures SliceSize(size, f) == size / Frame(f) * Frame(f)
  {
    var c, b := f.channels, f.bitsPerSample / 8;
    var q := size / c;
    var d := q / b;
    var m := Frame(f);
    Positive(c, b);
    CInt.Quotient(size, c);
    CInt.Quotient(q, b);
    assert q * 8 / f.bitsPerSample == d by {
      assert d * (8 * b) == 8 * (d * b) && (d + 1) * b == d * b + b;
      CInt.QuotientIs(q * 8, 8 * b, d);
    }
    Nested(size, c, b, q, d, m);
    CInt.QuotientIs(size, m, d);
    assert d * c * (8 * b) == 8 * (d * m);
  }

  lemma Positive(a: int, b: int)
    requires a > 0 && b > 0
    ensures a * b > 0
  {
  }

  lemma Nested(n: nat, c: nat, b: nat, q: nat, d: nat, m: nat)
    requires q * c <= n < (q + 1) * c && d * b <= q < (d + 1) * b && m == c * b
    ensures d * m <= n < d * m + m
  {
    CInt.Grows(d * b, q, c);
    CInt.Grows(q + 1, (d + 1) * b, c);
    assert d * b * c == d * m;
    assert (d + 1) * b * c == (d + 1) * m == d * m + m;
  }

  /** The time stamp of the next slice, and the time keeping after it. */
  function Stamp(clock: Clock, samples: nat, f: Format): (int, Clock) {
    var last := if clock.pts != TIME_UNKNOWN then clock.pts else clock.lastPts;
    var since := (if clock.pts != TIME_UNKNOWN then 0 else clock.samples) + samples;
    (if clock.pts != TIME_UNKNOWN then clock.pts else last + Micros(since, f.sampleRate),
     Clock(TIME_UNKNOWN, last, since))
  }

  /** avcodec_send_frame, when the format is current and a buffer is free. */
  function SendOne(s: State, f: Format): (t: State)
    requires s.free != []
    ensures |t.free| < |s.free|
  {
    var size := CInt.Min(|s.block|, s.free[0]);
    SliceFits(size, f);
    var n := SliceSize(size, f);
    var (pts, clock) := Stamp(s.clock, Samples(size, f), f);
    State(s.block[n..], s.free[1..], clock, s.sent + [Slice(s.block[..n], Samples(size, f), pts)])
  }

  /** Sending until the block is used up or no buffer is free. */
  function SendAll(s: State, f: Format): State
    decreases |s.free|
  {
    if s.block == [] || s.free == [] then s else SendAll(SendOne(s, f), f)
  }

  class Decoder {
    var output: seq<int>            // what is left of the decoded block
    var queueOut: seq<nat>          // the sizes of the free output buffers
    var pts: int
    var lastPts: int
    var samplesSinceLastPts: nat
    var format: Format              // what the output port is configured for
    var codecFormat: Format         // what the codec produces
    var outputNeedsConfiguring: bool
    var sent: seq<Slice>            // the buffers given back, in order

    ghost function View(): State
      reads this
    {
      State(output, queueOut, Clock(pts, lastPts, samplesSinceLastPts), sent)
    }

    predicate FormatChanged()
      reads this
    {
      || codecFormat.channels != format.channels
      || codecFormat.sampleRate != format.sampleRate
      || codecFormat.sampleFmt != format.sampleFmt
    }

    constructor (f: Format, codec: Format, block: seq<int>, free: seq<nat>, blockPts: int)
      ensures View() == State(block, free, Clock(blockPts, 0, 0), [])
      ensures format == f && codecFormat == codec && !outputNeedsConfiguring
    {
      output, queueOut, pts, lastPts, samplesSinceLastPts := block, free, blockPts, 0, 0;
      format, codecFormat, outputNeedsConfiguring, sent := f, codec, false, [];
    }

    /** avcodec_send_frame; `eventFree` says whether a buffer for a format change event is there. */
    method SendFrame(eventFree: bool) returns (ok: bool)
      modifies this
      ensures format == old(format) && codecFormat == old(codecFormat)
      ensures ok <==>
        && old(queueOut) != [] && codecFormat.channels == format.channels
        && codecFormat.sampleRate == format.sampleRate && codecFormat.sampleFmt == format.sampleFmt
      ensures ok ==> View() == SendOne(old(View()), format)
      ensures !ok ==> View() == old(View())
      ensures outputNeedsConfiguring == (old(outputNeedsConfiguring) || (FormatChanged() && eventFree))
    {
      if FormatChanged() {
        if eventFree {
          outputNeedsConfiguring := true;
        }
        return false;
      }
      if queueOut == [] {
        return false;
      }
      var room := queueOut[0];
      queueOut := queueOut[1..];
      var size := |output|;
      if size > room {
        size := room;
      }
      SliceFits(size, format);
      var samples := size / format.channels * 8 / format.bitsPerSample;
      size := samples * format.channels * format.bitsPerSample / 8;
      var outPts := pts;
      var data := output[..size];
      output := output[size..];
      if pts != TIME_UNKNOWN {
        lastPts := pts;
        samplesSinceLastPts := 0;
      }
      pts := TIME_UNKNOWN;
      samplesSinceLastPts := samplesSinceLastPts + samples;
      if outPts == TIME_UNKNOWN {
        outPts := lastPts + samplesSinceLastPts * 1000000 / format.sampleRate;
      }
      sent := sent + [Slice(data, samples, outPts)];
      return true;
    }

    /** The part of the processing loop that hands out the block; `done` when it is used up. */
    method Drain(eventFree: bool) returns (done: bool)
      modifies this
      ensures format == old(format) && codecFormat == old(codecFormat)
      ensures outputNeedsConfiguring
        == (old(outputNeedsConfiguring) || (FormatChanged() && eventFree && old(output) != []))
      ensures old(outputNeedsConfiguring) || FormatChanged() ==> View() == old(View())
      ensures !old(outputNeedsConfiguring) && !FormatChanged() ==> View() == SendAll(old(View()), format)
      ensures done <==> output == [] && !outputNeedsConfiguring
    {
      hide SendOne;
      while !outputNeedsConfiguring && output != []
        invariant format == old(format) && codecFormat == old(codecFormat)
        invariant outputNeedsConfiguring == old(outputNeedsConfiguring)
        invariant old(outputNeedsConfiguring) || FormatChanged() ==> View() == old(View())
        invariant !old(outputNeedsConfiguring) && !FormatChanged() ==>
          SendAll(View(), format) == SendAll(old(View()), format)
        decreases |queueOut|
      {
        var ok := SendFrame(eventFree);
        if !ok {
          return false;
        }
      }
      done := !outputNeedsConfiguring;
    }
  }

  /** The data of some slices in order, and their samples in all. */
  function Joined(slices: seq<Slice>): seq<int> {
    if slices == [] then [] else Joined(slices[..|slices| - 1]) + slices[|slices| - 1].data
  }

  function Count(slices: seq<Slice>): nat {
    if slices == [] then 0 else Count(slices[..|slices| - 1]) + slices[|slices| - 1].samples
  }

  lemma JoinedAppend(slices: seq<Slice>, x: Slice)
    ensures Joined(slices + [x]) == Joined(slices) + x.data && Count(slices + [x]) == Count(slices) + x.samples
  {
    assert (slices + [x])[..|slices|] == slices;
  }

  /** No byte of the block is lost, repeated or reordered by the cutting, whatever the buffer sizes and
      the format. */
  lemma {:induction false} SlicesJoinUp(s: State, f: Format)
    ensures Joined(SendAll(s, f).sent) + SendAll(s, f).block == Joined(s.sent) + s.block
    decreases |s.free|
  {
    hide SendOne;
    if s.block != [] && s.free != [] {
      OneSliceJoins(s, f);
      SlicesJoinUp(SendOne(s, f), f);
    }
  }

  lemma OneSliceJoins(s: State, f: Format)
    requires s.free != []
    ensures Joined(SendOne(s, f).sent) + SendOne(s, f).block == Joined(s.sent) + s.block
  {
    hide SliceSize, Samples, Stamp;
    var t := SendOne(s, f);
    var size := CInt.Min(|s.block|, s.free[0]);
    SliceFits(size, f);
    var n := SliceSize(size, f);
    JoinedAppend(s.sent, t.sent[|s.sent|]);
    hide Joined;
    assert s.block == s.block[..n] + s.block[n..];
    assert Joined(s.sent) + s.block[..n] + s.block[n..] == Joined(s.sent) + s.block;
  }

  /** Slice k is stamped with the time at which its own last sample ends, counting from `start` with
      `before` samples already played. */
  ghost predicate EndStamped(sent: seq<Slice>, k: nat, start: int, before: nat, f: Format)
    requires k < |sent|
  {
    sent[k].pts == start + Micros(before + Count(sent[..k + 1]), f.sampleRate)
  }

  /** So is every slice from slice `first` on, and the time keeping is where that leaves it. */
  ghost predicate InTime(s: State, start: int, before: nat, f: Format, first: nat) {
    && s.clock == Clock(TIME_UNKNOWN, start, before + Count(s.sent))
    && forall k :: first <= k < |s.sent| ==> EndStamped(s.sent, k, start, before, f)
  }

  lemma CountGrows(slices: seq<Slice>, i: nat, j: nat)
    requires i <= j <= |slices|
    ensures Count(slices[..i]) <= Count(slices[..j])
    decreases j
  {
    if i < j {
      assert slices[..j][..j - 1] == slices[..j - 1];
      CountGrows(slices, i, j - 1);
    }
  }

  lemma StampedStep(s: State, start: int, before: nat, f: Format, first: nat)
    requires InTime(s, start, before, f, first) && s.free != []
    ensures InTime(SendOne(s, f), start, before, f, first)
    ensures s.sent <= SendOne(s, f).sent
  {
    hide SliceSize;
    hide Samples;
    hide Micros;
    hide Joined;
    var t := SendOne(s, f);
    var x := t.sent[|s.sent|];
    assert t.sent == s.sent + [x];
    JoinedAppend(s.sent, x);
    assert EndStamped(t.sent, |s.sent|, start, before, f) by {
      assert t.sent[..|s.sent| + 1] == t.sent;
    }
    hide EndStamped;
    hide Count;
    forall k | first <= k < |t.sent|
      ensures EndStamped(t.sent, k, start, before, f)
    {
      if k < |s.sent| {
        StampKept(s.sent, x, k, start, before, f);
      }
    }
  }

  lemma StampKept(sent: seq<Slice>, x: Slice, k: nat, start: int, before: nat, f: Format)
    requires k < |sent| && EndStamped(sent, k, start, before, f)
    ensures EndStamped(sent + [x], k, start, before, f)
  {
    assert (sent + [x])[..k + 1] == sent[..k + 1];
  }

  lemma {:induction false} StampsGoOn(s: State, start: int, before: nat, f: Format, first: nat)
    requires InTime(s, start, before, f, first)
    ensures InTime(SendAll(s, f), start, before, f, first)
    ensures s.sent <= SendAll(s, f).sent
    decreases |s.free|
  {
    hide SendOne;
    hide InTime;
    if s.block != [] && s.free != [] {
      StampedStep(s, start, before, f, first);
      StampsGoOn(SendOne(s, f), start, before, f, first);
    }
  }

  /** A block without a time of its own goes on from the time keeping so far: every slice is stamped
      with its end. */
  lemma StampsWhenUnknown(block: seq<int>, free: seq<nat>, clock: Clock, f: Format)
    requires clock.pts == TIME_UNKNOWN
    ensures InTime(SendAll(State(block, free, clock, []), f), clock.lastPts, clock.samples, f, 0)
  {
    StampsGoOn(State(block, free, clock, []), clock.lastPts, clock.samples, f, 0);
  }

  /** A block with a time: the first slice is stamped with it, which is where that slice starts, and
      every later slice with its end. */
  lemma StampsWhenKnown(block: seq<int>, free: seq<nat>, clock: Clock, f: Format)
    requires clock.pts != TIME_UNKNOWN && block != [] && free != []
    ensures
      var s := SendAll(State(block, free, clock, []), f);
      InTime(s, clock.pts, 0, f, 1) && s.sent != [] && s.sent[0].pts == clock.pts
  {
    hide SliceSize;
    hide Samples;
    var t := SendOne(State(block, free, clock, []), f);
    assert t.sent == [t.sent[0]] && t.sent[..0] == [];
    assert Count(t.sent) == t.sent[0].samples;
    StampsGoOn(t, clock.pts, 0, f, 1);
  }

  lemma Scaled(a: nat, b: nat, f: Format)
    requires a <= b
    ensures Micros(a, f.sampleRate) <= Micros(b, f.sampleRate)
    ensures (b - a) * SECOND >= f.sampleRate ==> Micros(a, f.sampleRate) < Micros(b, f.sampleRate)
  {
    var x, y, r := a * SECOND, b * SECOND, f.sampleRate;
    CInt.Quotient(x, r);
    CInt.Quotient(y, r);
    CInt.Scale(x / r, y / r + 1, r);
    assert (x / r + 1) * r == x / r * r + r;
    CInt.Scale(x / r + 1, y / r + 1, r);
  }

  /** Time stamps within a block never go backwards, whether or not the block has a time. */
  lemma StampsAreAscending(block: seq<int>, free: seq<nat>, clock: Clock, f: Format, i: nat, j: nat)
    requires i <= j < |SendAll(State(block, free, clock, []), f).sent|
    ensures
      var sent := SendAll(State(block, free, clock, []), f).sent;
      sent[i].pts <= sent[j].pts
  {
    var s := State(block, free, clock, []);
    var sent := SendAll(s, f).sent;
    hide SendOne;
    hide Count;
    hide SendAll;
    hide Micros;
    CountGrows(sent, i + 1, j + 1);
    if clock.pts == TIME_UNKNOWN {
      StampsWhenUnknown(block, free, clock, f);
      assert EndStamped(sent, i, clock.lastPts, clock.samples, f)
        && EndStamped(sent, j, clock.lastPts, clock.samples, f);
      Scaled(clock.samples + Count(sent[..i + 1]), clock.samples + Count(sent[..j + 1]), f);
    } else {
      SomethingSent(s, f);
      StampsWhenKnown(block, free, clock, f);
      assert (j > 0 ==> EndStamped(sent, j, clock.pts, 0, f)) && (i > 0 ==> EndStamped(sent, i, clock.pts, 0, f));
      Scaled(Count(sent[..i + 1]), Count(sent[..j + 1]), f);
    }
  }

  lemma SomethingSent(s: State, f: Format)
    requires s.sent == [] && SendAll(s, f).sent != []
    ensures s.block != [] && s.free != []
  {
  }

  /** A slice makes progress exactly when both the block and the buffer hold a whole frame. */
  lemma ProgressIffRoom(size: nat, room: nat, f: Format)
    requires f.bitsPerSample % 8 == 0
    ensures SliceSize(CInt.Min(size, room), f) > 0 <==> Frame(f) <= size && Frame(f) <= room
  {
    var n := CInt.Min(size, room);
    SliceIsWholeFrames(n, f);
    hide SliceSize;
    hide Samples;
    hide Frame;
    var q := n / Frame(f);
    CInt.Quotient(n, Frame(f));
    CInt.Scale(1, q + 1, Frame(f));
    CInt.Scale(q, 1, Frame(f));
    CInt.Scale(0, q, Frame(f));
  }

  /** A block of whole frames stays one when a slice is cut off it. */
  ghost predicate WholeFrames(n: int, f: Format) {
    exists k: nat :: n == k * Frame(f)
  }

  /** The first slice. */
  lemma FirstSlice(s: State, f: Format)
    requires f.bitsPerSample % 8 == 0 && s.free != []
    ensures
      var t, n := SendOne(s, f), |s.sent|;
      && |t.sent| == n + 1 && t.sent[..n] == s.sent && Frame(f) > 0
      && |t.sent[n].data| == CInt.Min(|s.block|, s.free[0]) / Frame(f) * Frame(f)
      && t.sent[n].samples * Frame(f) == |t.sent[n].data| && |t.block| == |s.block| - |t.sent[n].data|
      && |Joined(t.sent)| == |Joined(s.sent)| + |t.sent[n].data|
  {
    var size := CInt.Min(|s.block|, s.free[0]);
    SliceFits(size, f);
    SliceIsWholeFrames(size, f);
    hide SliceSize, Samples, Frame;
    JoinedAppend(s.sent, SendOne(s, f).sent[|s.sent|]);
  }

  lemma {:induction false} SentGrows(s: State, f: Format)
    ensures s.sent <= SendAll(s, f).sent
    decreases |s.free|
  {
    hide SliceSize, Samples, Stamp;
    if s.block != [] && s.free != [] {
      SentGrows(SendOne(s, f), f);
    }
  }

  /** Buffers are filled in order: slice k goes into the k-th free buffer, and holds as many whole frames as
      that buffer and what the earlier slices have left of the block have room for. */
  lemma {:induction false} BuffersAreFilled(s: State, f: Format, k: nat)
    requires f.bitsPerSample % 8 == 0 && |s.sent| <= k < |SendAll(s, f).sent|
    ensures k - |s.sent| < |s.free| && Frame(f) > 0
    ensures
      var sent := SendAll(s, f).sent;
      var left := |s.block| + |Joined(s.sent)| - |Joined(sent[..k])|;
      && |sent[k].data| == CInt.Min(left, s.free[k - |s.sent|]) / Frame(f) * Frame(f)
      && sent[k].samples * Frame(f) == |sent[k].data|
    decreases |s.free|
  {
    hide SendOne, Frame, Joined;
    if s.block != [] && s.free != [] {
      var t, sent := SendOne(s, f), SendAll(s, f).sent;
      FirstSlice(s, f);
      SentGrows(t, f);
      FreeShrinks(s, f);
      if k == |s.sent| {
        assert sent[..k] == t.sent[..k] && sent[k] == t.sent[k];
      } else {
        BuffersAreFilled(t, f, k);
      }
    }
  }

  lemma FreeShrinks(s: State, f: Format)
    requires s.free != []
    ensures SendOne(s, f).free == s.free[1..]
  {
  }

  lemma SliceLeavesWholeFrames(size: nat, room: nat, f: Format)
    requires f.bitsPerSample % 8 == 0 && WholeFrames(size, f)
    ensures SliceSize(CInt.Min(size, room), f) <= size
    ensures WholeFrames(SliceSize(CInt.Min(size, room), f), f)
      && WholeFrames(size - SliceSize(CInt.Min(size, room), f), f)
    ensures Samples(CInt.Min(size, room), f) * Frame(f) == SliceSize(CInt.Min(size, room), f)
  {
    var n := CInt.Min(size, room);
    SliceFits(n, f);
    SliceIsWholeFrames(n, f);
    hide SliceSize;
    hide Samples;
    hide Frame;
    var k: nat :| size == k * Frame(f);
    var m := n / Frame(f);
    CInt.Quotient(n, Frame(f));
    CInt.Scale(m, k, Frame(f));
    assert (k - m) * Frame(f) == k * Frame(f) - m * Frame(f);
  }

  /** Given a block of whole frames, room for a frame in every buffer, and as many buffers as frames,
      the whole block is handed out, in slices of whole frames whose sample counts are what they hold. */
  lemma {:induction false} WholeBlockIsSent(s: State, f: Format)
    requires f.bitsPerSample % 8 == 0 && WholeFrames(|s.block|, f)
    requires forall i :: 0 <= i < |s.free| ==> s.free[i] >= Frame(f)
    requires |s.block| <= |s.free| * Frame(f)
    requires forall k :: 0 <= k < |s.sent| ==> |s.sent[k].data| == s.sent[k].samples * Frame(f)
    ensures SendAll(s, f).block == []
    ensures forall k :: 0 <= k < |SendAll(s, f).sent| ==>
      |SendAll(s, f).sent[k].data| == SendAll(s, f).sent[k].samples * Frame(f)
    ensures Joined(SendAll(s, f).sent) == Joined(s.sent) + s.block
    decreases |s.free|
  {
    SlicesJoinUp(s, f);
    hide Frame;
    hide SliceSize;
    hide Samples;
    hide Joined;
    if s.block != [] {
      var size := CInt.Min(|s.block|, s.free[0]);
      var n := SliceSize(size, f);
      SliceLeavesWholeFrames(|s.block|, s.free[0], f);
      ProgressIffRoom(|s.block|, s.free[0], f);
      AtLeastAFrame(|s.block|, f);
      AtLeastAFrame(n, f);
      var t := SendOne(s, f);
      assert |t.free| * Frame(f) == |s.free| * Frame(f) - Frame(f);
      WholeBlockIsSent(t, f);
    } else {
      assert Joined(s.sent) + [] == Joined(s.sent);
    }
  }

  lemma AtLeastAFrame(n: nat, f: Format)
    requires WholeFrames(n, f) && n > 0 && Frame(f) >= 0
    ensures n >= Frame(f)
  {
    hide Frame;
    var k: nat :| n == k * Frame(f);
    assert k >= 1;
    CInt.Grows(1, k, Frame(f));
  }

  /** Cutting slices off a block neither makes nor mends a remainder, whatever the buffers. */
  lemma {:induction false} RemainderStays(s: State, f: Format)
    requires f.bitsPerSample % 8 == 0
    ensures WholeFrames(|SendAll(s, f).block|, f) <==> WholeFrames(|s.block|, f)
    decreases |s.free|
  {
    hide Frame;
    hide SliceSize;
    hide Samples;
    hide WholeFrames;
    if s.block != [] && s.free != [] {
      SliceKeepsRemainder(|s.block|, s.free[0], f);
      RemainderStays(SendOne(s, f), f);
    }
  }

  lemma SliceKeepsRemainder(size: nat, room: nat, f: Format)
    requires f.bitsPerSample % 8 == 0
    ensures SliceSize(CInt.Min(size, room), f) <= size
    ensures WholeFrames(size - SliceSize(CInt.Min(size, room), f), f) <==> WholeFrames(size, f)
  {
    var n := CInt.Min(size, room);
    SliceFits(n, f);
    SliceIsWholeFrames(n, f);
    hide SliceSize;
    hide Samples;
    hide Frame;
    var m := n / Frame(f);
    if WholeFrames(size - m * Frame(f), f) {
      var k: nat :| size - m * Frame(f) == k * Frame(f);
      assert size == (k + m) * Frame(f);
    }
    if WholeFrames(size, f) {
      SliceLeavesWholeFrames(size, room, f);
    }
  }

  /** Exactly when a block ends: with room for a frame in every buffer and as many buffers as frames, a
      block is handed out completely if and only if it is a whole number of frames. */
  lemma BlockEndsIff(s: State, f: Format)
    requires f.bitsPerSample % 8 == 0 && s.sent == []
    requires forall i :: 0 <= i < |s.free| ==> s.free[i] >= Frame(f)
    requires |s.block| <= |s.free| * Frame(f)
    ensures SendAll(s, f).block == [] <==> WholeFrames(|s.block|, f)
  {
    hide SendAll;
    RemainderStays(s, f);
    if WholeFrames(|s.block|, f) {
      WholeBlockIsSent(s, f);
    } else {
      assert 0 == 0 * Frame(f);
    }
  }

  /** A remainder shorter than a frame is never sent: it uses up every free buffer, sending each empty. */
  lemma {:induction false} RemainderUsesUpBuffers(s: State, f: Format)
    requires f.bitsPerSample % 8 == 0 && 0 < |s.block| < Frame(f)
    ensures SendAll(s, f).block == s.block && SendAll(s, f).free == []
    ensures |SendAll(s, f).sent| == |s.sent| + |s.free|
    ensures Joined(SendAll(s, f).sent) == Joined(s.sent)
    decreases |s.free|
  {
    hide Frame;
    hide SliceSize;
    hide Samples;
    if s.free != [] {
      ProgressIffRoom(|s.block|, s.free[0], f);
      var t := SendOne(s, f);
      assert s.block[0..] == s.block;
      JoinedAppend(s.sent, t.sent[|s.sent|]);
      RemainderUsesUpBuffers(t, f);
    }
  }

  /** Every slice of a timed block but the first is stamped with where it ends rather than where it
      starts: never early, late as soon as it is as long as the clock's resolution, and on time if it
      is empty; at sample rates up to a million, late exactly when it is not empty. */
  lemma LaterStampsAreLate(block: seq<int>, free: seq<nat>, clock: Clock, f: Format, k: nat)
    requires clock.pts != TIME_UNKNOWN && 1 <= k < |SendAll(State(block, free, clock, []), f).sent|
    ensures
      var sent := SendAll(State(block, free, clock, []), f).sent;
      var begins := clock.pts + Micros(Count(sent[..k]), f.sampleRate);
      && sent[k].pts >= begins
      && (sent[k].samples * SECOND >= f.sampleRate ==> sent[k].pts > begins)
      && (f.sampleRate <= SECOND ==> (sent[k].pts > begins <==> sent[k].samples > 0))
      && (sent[k].samples == 0 ==> sent[k].pts == begins)
  {
    var s := State(block, free, clock, []);
    var sent := SendAll(s, f).sent;
    SomethingSent(s, f);
    StampsWhenKnown(block, free, clock, f);
    hide SendOne;
    hide SendAll;
    hide Micros;
    assert EndStamped(sent, k, clock.pts, 0, f);
    assert sent[..k + 1][..k] == sent[..k];
    assert Count(sent[..k + 1]) == Count(sent[..k]) + sent[k].samples;
    Scaled(Count(sent[..k]), Count(sent[..k + 1]), f);
  }
}
