/**
  The audio renderer's byte pump (aaf_audio_render.cpp:148-206, 331-342, 366-424): buffers are queued
  by the client and their bytes are pulled by the audio track, which asks for a number of bytes at a
  time. Each entry point is one step.
 */
module AudioRender {
  import CInt
  import opened Mmal

  const WORD := 0x1_0000_0000

  /** A buffer header: the bytes still to be played, which begin at `offset` of its memory. A nonzero
      `cmd` marks an event rather than audio. */
  datatype Header = Header(id: int, cmd: nat, offset: nat, payload: seq<int>, eos: bool, pts: int)

  /** What the track and the client see: a byte of audio, the end of stream, a header coming back. */
  datatype Item = Byte(value: int) | Eos | Return(id: int)

  function AsBytes(values: seq<int>): seq<Item> {
    seq(|values|, i requires 0 <= i < |values| => Byte(values[i]))
  }

  /** All that a buffer has to cause, in order: its bytes, its end of stream, its return. */
  function Script(h: Header): seq<Item> {
    AsBytes(h.payload) + (if h.eos then [Eos] else []) + [Return(h.id)]
  }

  function Scripts(queue: seq<Header>): seq<Item> {
    if queue == [] then [] else Script(queue[0]) + Scripts(queue[1..])
  }

  function Total(queue: seq<Header>): nat {
    if queue == [] then 0 else |queue[0].payload| + Total(queue[1..])
  }

  function Ids(queue: seq<Header>): seq<int> {
    if queue == [] then [] else [queue[0].id] + Ids(queue[1..])
  }

  /** The audio bytes, and the headers returned, among what was seen. */
  function Bytes(items: seq<Item>): seq<int> {
    if items == [] then []
    else (if items[0].Byte? then [items[0].value] else []) + Bytes(items[1..])
  }

  function Returns(items: seq<Item>): seq<int> {
    if items == [] then []
    else (if items[0].Return? then [items[0].id] else []) + Returns(items[1..])
  }

  /** What is left of a buffer when its first `n` bytes are gone. */
  function Rest(h: Header, n: nat): Header
    requires n <= |h.payload|
  {
    h.(offset := h.offset + n, payload := h.payload[n..])
  }

  /** A request for `space` bytes: what it delivers, and the queue it leaves. */
  function Fill(queue: seq<Header>, space: nat): (seq<Item>, seq<Header>) {
    if space == 0 || queue == [] then ([], queue)
    else if |queue[0].payload| > space then
      (AsBytes(queue[0].payload[..space]), [Rest(queue[0], space)] + queue[1..])
    else
      var later := Fill(queue[1..], space - |queue[0].payload|);
      (Script(queue[0]) + later.0, later.1)
  }

  /** `r` is what is left of the buffer `h` after some of its bytes: the rest of them, further on in the same
      memory, with everything else as it was. */
  ghost predicate RestOf(h: Header, r: Header) {
    && |r.payload| <= |h.payload| && r.payload == h.payload[|h.payload| - |r.payload|..]
    && r.offset + |r.payload| == h.offset + |h.payload|
    && r.id == h.id && r.cmd == h.cmd && r.eos == h.eos && r.pts == h.pts
  }

  /** A request leaves the queue from some buffer on, of which it may have taken the first bytes. */
  lemma {:induction false} FillLeaves(queue: seq<Header>, space: nat)
    ensures
      var left := Fill(queue, space).1;
      && |left| <= |queue|
      && (left != [] ==>
            && RestOf(queue[|queue| - |left|], left[0])
            && left[1..] == queue[|queue| - |left| + 1..])
    decreases |queue|
  {
    if space > 0 && queue != [] {
      if |queue[0].payload| <= space {
        FillLeaves(queue[1..], space - |queue[0].payload|);
      }
    }
  }

  lemma BytesJoin(a: seq<Item>, b: seq<Item>)
    ensures Bytes(a + b) == Bytes(a) + Bytes(b) && Returns(a + b) == Returns(a) + Returns(b)
  {
    OnlyBytesJoin(a, b);
    OnlyReturnsJoin(a, b);
  }

  lemma {:induction false} OnlyBytesJoin(a: seq<Item>, b: seq<Item>)
    ensures Bytes(a + b) == Bytes(a) + Bytes(b)
  {
    if a == [] {
      assert a + b == b;
    } else {
      var first := if a[0].Byte? then [a[0].value] else [];
      assert (a + b)[1..] == a[1..] + b;
      assert Bytes(a + b) == first + Bytes(a[1..] + b);
      OnlyBytesJoin(a[1..], b);
      assert Bytes(a) == first + Bytes(a[1..]);
      hide Bytes;
      assert first + (Bytes(a[1..]) + Bytes(b)) == first + Bytes(a[1..]) + Bytes(b);
    }
  }

  lemma {:induction false} OnlyReturnsJoin(a: seq<Item>, b: seq<Item>)
    ensures Returns(a + b) == Returns(a) + Returns(b)
  {
    if a == [] {
      assert a + b == b;
    } else {
      var first := if a[0].Return? then [a[0].id] else [];
      assert (a + b)[1..] == a[1..] + b;
      assert Returns(a + b) == first + Returns(a[1..] + b);
      OnlyReturnsJoin(a[1..], b);
      assert Returns(a) == first + Returns(a[1..]);
      hide Returns;
      assert first + (Returns(a[1..]) + Returns(b)) == first + Returns(a[1..]) + Returns(b);
    }
  }

  lemma {:induction false} BytesOfBytes(values: seq<int>)
    ensures Bytes(AsBytes(values)) == values && Returns(AsBytes(values)) == []
  {
    if values != [] {
      assert AsBytes(values)[1..] == AsBytes(values[1..]);
      BytesOfBytes(values[1..]);
    }
  }

  lemma ScriptContents(h: Header)
    ensures Bytes(Script(h)) == h.payload && Returns(Script(h)) == [h.id]
  {
    var tail := (if h.eos then [Eos] else []) + [Return(h.id)];
    assert Script(h) == AsBytes(h.payload) + tail;
    BytesJoin(AsBytes(h.payload), tail);
    BytesOfBytes(h.payload);
    if h.eos {
      assert tail[1..] == [Return(h.id)];
    }
    assert [Return(h.id)][1..] == [];
    assert Bytes([Return(h.id)]) == [] && Returns([Return(h.id)]) == [h.id];
  }

  lemma {:induction false} QueuesJoin(a: seq<Header>, b: seq<Header>)
    ensures Scripts(a + b) == Scripts(a) + Scripts(b)
    ensures Total(a + b) == Total(a) + Total(b) && Ids(a + b) == Ids(a) + Ids(b)
  {
    hide Script;
    if a == [] {
      assert a + b == b;
    } else {
      QueuesJoin(a[1..], b);
      FirstOfJoin(a, b);
      hide Scripts, Total, Ids;
      Regroup(Script(a[0]), Scripts(a[1..]), Scripts(b));
      Regroup([a[0].id], Ids(a[1..]), Ids(b));
    }
  }

  lemma Regroup<T>(a: seq<T>, b: seq<T>, c: seq<T>)
    ensures a + (b + c) == a + b + c
  {
  }

  lemma FirstOfJoin(a: seq<Header>, b: seq<Header>)
    requires a != []
    ensures Scripts(a) == Script(a[0]) + Scripts(a[1..]) && Scripts(a + b) == Script(a[0]) + Scripts(a[1..] + b)
    ensures Total(a) == |a[0].payload| + Total(a[1..]) && Total(a + b) == |a[0].payload| + Total(a[1..] + b)
    ensures Ids(a) == [a[0].id] + Ids(a[1..]) && Ids(a + b) == [a[0].id] + Ids(a[1..] + b)
  {
    hide Script;
    assert (a + b)[0] == a[0] && (a + b)[1..] == a[1..] + b;
  }

  lemma Single(h: Header)
    ensures Scripts([h]) == Script(h) && Total([h]) == |h.payload| && Ids([h]) == [h.id]
  {
    hide Script;
    assert [h][1..] == [];
  }

  /** Taking from one buffer in two goes. */
  lemma TakenTwice(h: Header, n: nat)
    requires n < |h.payload|
    ensures AsBytes(h.payload[..n]) + Script(Rest(h, n)) == Script(h)
    ensures forall m: nat :: n + m < |h.payload| ==>
      AsBytes(h.payload[..n]) + AsBytes(Rest(h, n).payload[..m]) == AsBytes(h.payload[..n + m])
  {
    assert AsBytes(h.payload[..n]) + AsBytes(h.payload[n..]) == AsBytes(h.payload);
  }

  /** A request neither loses, repeats nor reorders anything: what it delivers followed by what the
      queue is left to cause is what the queue had to cause before. */
  lemma {:induction false} FillConserves(queue: seq<Header>, space: nat)
    ensures Fill(queue, space).0 + Scripts(Fill(queue, space).1) == Scripts(queue)
  {
    hide Script;
    if space == 0 || queue == [] {
      assert [] + Scripts(queue) == Scripts(queue);
    } else if |queue[0].payload| > space {
      var rest := Rest(queue[0], space);
      TakenTwice(queue[0], space);
      assert ([rest] + queue[1..])[1..] == queue[1..];
    } else {
      FillConserves(queue[1..], space - |queue[0].payload|);
    }
  }

  /** A request gets exactly as many bytes as it asks for, or all there are, and the headers it
      returns are the first of the queue. */
  lemma {:induction false} FillCounts(queue: seq<Header>, space: nat)
    ensures |Bytes(Fill(queue, space).0)| == CInt.Min(space, Total(queue))
    ensures Total(Fill(queue, space).1) == Total(queue) - CInt.Min(space, Total(queue))
    ensures Returns(Fill(queue, space).0) + Ids(Fill(queue, space).1) == Ids(queue)
  {
    hide Script;
    if space == 0 || queue == [] {
      assert [] + Ids(queue) == Ids(queue);
    } else if |queue[0].payload| > space {
      BytesOfBytes(queue[0].payload[..space]);
      assert ([Rest(queue[0], space)] + queue[1..])[1..] == queue[1..];
    } else {
      var later := Fill(queue[1..], space - |queue[0].payload|);
      FillCounts(queue[1..], space - |queue[0].payload|);
      ScriptContents(queue[0]);
      BytesJoin(Script(queue[0]), later.0);
      hide Bytes;
      hide Returns;
      assert [queue[0].id] + Returns(later.0) + Ids(later.1) == [queue[0].id] + (Returns(later.0) + Ids(later.1));
    }
  }

  /** A request for more than there is empties the queue, empty buffers included. */
  lemma {:induction false} FillDrains(queue: seq<Header>, space: nat)
    requires space > Total(queue)
    ensures Fill(queue, space) == (Scripts(queue), [])
  {
    if queue != [] {
      FillDrains(queue[1..], space - |queue[0].payload|);
    }
  }

  /** How the track cuts its requests does not matter: two requests in a row do exactly what one
      request for their sum does. */
  lemma {:induction false} FillInTwo(queue: seq<Header>, first: nat, second: nat)
    ensures
      var (items, rest) := Fill(queue, first);
      Fill(queue, first + second) == (items + Fill(rest, second).0, Fill(rest, second).1)
  {
    hide Script;
    if first == 0 || queue == [] {
      assert [] + Fill(queue, second).0 == Fill(queue, second).0;
    } else if |queue[0].payload| > first {
      TakenTwice(queue[0], first);
      var h, rest := queue[0], Rest(queue[0], first);
      var left := [rest] + queue[1..];
      assert left[0] == rest && left[1..] == queue[1..];
      if second == 0 {
        assert AsBytes(h.payload[..first]) + [] == AsBytes(h.payload[..first]);
      } else if |h.payload| <= first + second {
        var later := Fill(queue[1..], first + second - |h.payload|).0;
        var taken := AsBytes(h.payload[..first]);
        assert taken + (Script(rest) + later) == taken + Script(rest) + later;
      }
    } else {
      var h := queue[0];
      var (items, rest) := Fill(queue[1..], first - |h.payload|);
      FillInTwo(queue[1..], first - |h.payload|, second);
      assert Script(h) + items + Fill(rest, second).0 == Script(h) + (items + Fill(rest, second).0);
    }
  }

  /** A trace never stops between an end of stream and the return of its buffer. */
  predicate Settled(trace: seq<Item>) {
    trace != [] ==> trace[|trace| - 1] != Eos
  }

  lemma {:induction false} FillSettles(queue: seq<Header>, space: nat)
    ensures Settled(Fill(queue, space).0)
  {
    if space > 0 && queue != [] && |queue[0].payload| <= space {
      FillSettles(queue[1..], space - |queue[0].payload|);
    }
  }

  /** The invariant: the byte counter, the audio still to come and the headers still to be returned
      all agree with the queue. `sent` is the audio sent since the last flush, `trace` what it has
      caused so far, and `accepted` lists every header taken by a successful send. */
  ghost predicate Balanced(
      queue: seq<Header>, bytesQueued: nat, trace: seq<Item>, sent: seq<Header>, returned: seq<int>, accepted: seq<int>)
  {
    && bytesQueued == Total(queue) % WORD
    && trace + Scripts(queue) == Scripts(sent) && Settled(trace)
    && multiset(returned) + multiset(Ids(queue)) == multiset(accepted)
  }

  lemma SendKeeps(
      queue: seq<Header>, bytesQueued: nat, trace: seq<Item>, sent: seq<Header>, returned: seq<int>, accepted: seq<int>,
      h: Header)
    requires Balanced(queue, bytesQueued, trace, sent, returned, accepted)
    ensures Balanced(
      queue + [h], (bytesQueued + |h.payload|) % WORD, trace, sent + [h], returned, accepted + [h.id])
  {
    hide Script;
    hide Scripts;
    hide Total;
    hide Ids;
    QueuesJoin(queue, [h]);
    QueuesJoin(sent, [h]);
    Single(h);
    SumsWrap(Total(queue), |h.payload|);
    assert trace + (Scripts(queue) + Script(h)) == Scripts(sent) + Script(h);
  }

  lemma EventKeeps(
      queue: seq<Header>, bytesQueued: nat, trace: seq<Item>, sent: seq<Header>, returned: seq<int>, accepted: seq<int>,
      id: int)
    requires Balanced(queue, bytesQueued, trace, sent, returned, accepted)
    ensures Balanced(queue, bytesQueued, trace, sent, returned + [id], accepted + [id])
  {
  }

  lemma FillKeeps(
      queue: seq<Header>, bytesQueued: nat, trace: seq<Item>, sent: seq<Header>, returned: seq<int>, accepted: seq<int>,
      space: nat)
    requires Balanced(queue, bytesQueued, trace, sent, returned, accepted)
    ensures
      var (items, rest) := Fill(queue, space);
      && |Bytes(items)| == CInt.Min(space, Total(queue))
      && Balanced(rest, (bytesQueued - |Bytes(items)|) % WORD, trace + items, sent, returned + Returns(items), accepted)
  {
    hide Script;
    hide Scripts;
    hide Total;
    hide Ids;
    hide Fill;
    hide Bytes;
    hide Returns;
    var (items, rest) := Fill(queue, space);
    FillConserves(queue, space);
    FillCounts(queue, space);
    FillSettles(queue, space);
    DifferenceWraps(Total(queue), CInt.Min(space, Total(queue)));
    Accounts(returned, Returns(items), Ids(rest), Ids(queue));
    assert trace + items + Scripts(rest) == trace + (items + Scripts(rest));
  }

  lemma FlushKeeps(
      queue: seq<Header>, bytesQueued: nat, trace: seq<Item>, sent: seq<Header>, returned: seq<int>, accepted: seq<int>)
    requires Balanced(queue, bytesQueued, trace, sent, returned, accepted)
    ensures Balanced([], 0, [], [], returned + Ids(queue), accepted)
  {
    Accounts(returned, Ids(queue), [], Ids(queue));
  }

  lemma Accounts(before: seq<int>, now: seq<int>, later: seq<int>, all: seq<int>)
    requires now + later == all
    ensures multiset(before + now) + multiset(later) == multiset(before) + multiset(all)
  {
  }

  lemma SumsWrap(a: nat, b: nat)
    ensures (a % WORD + b) % WORD == (a + b) % WORD
  {
    var q := a / WORD;
    assert a % WORD + b == a + b - WORD * q;
    WrapBy(a + b, q);
  }

  lemma DifferenceWraps(a: nat, b: nat)
    requires b <= a
    ensures (a % WORD - b) % WORD == (a - b) % WORD
  {
    var q := a / WORD;
    assert a % WORD - b == a - b - WORD * q;
    WrapBy(a - b, q);
  }

  lemma {:induction false} WrapBy(a: int, q: nat)
    ensures (a - WORD * q) % WORD == a % WORD
    decreases q
  {
    if q > 0 {
      WrapBy(a - WORD, q - 1);
    }
  }

  // ----- the media time announced with each buffer -----

  datatype Encoding = Pcm | Ac3 | Eac3

  /** The format of the port. */
  datatype Format = Format(encoding: Encoding, bitsPerSample: nat, channels: nat, sampleRate: nat)

  /** Compressed audio is announced as 16-bit stereo, at four times the rate for some EAC3. */
  function Announced(f: Format): Format {
    match f.encoding
    case Pcm => f
    case Ac3 => f.(bitsPerSample := 16, channels := 2)
    case Eac3 => f.(bitsPerSample := 16, channels := 2,
                    sampleRate := if f.sampleRate <= 48000 then 4 * f.sampleRate else f.sampleRate)
  }

  /** What the port's format has to satisfy for the announcement not to divide by zero. */
  predicate Announceable(f: Format) {
    Announced(f).bitsPerSample >= 8 && Announced(f).channels > 0 && f.sampleRate > 0
  }

  /** The time that some queued bytes take to play, in microseconds. */
  function PlayingTime(bytes: nat, f: Format): nat
    requires f.bitsPerSample >= 8 && f.channels > 0 && f.sampleRate > 0
  {
    Micros(CInt.UDiv(CInt.UDiv(bytes, f.channels), f.bitsPerSample / 8), f.sampleRate)
  }

  /** The media time at the output when a buffer is sent: its own time, less the device's latency in
      milliseconds, less the time that the queue takes with the buffer in it. */
  function MediaTime(pts: int, bytesQueued: nat, f: Format, latency: nat, trackFrames: nat): int
    requires Announceable(f)
  {
    var extra := if f.encoding == Pcm then 0 else trackFrames;
    pts - (latency * 1000 + PlayingTime((bytesQueued + extra) % WORD, Announced(f)))
  }

  /** Every millisecond of the device's latency puts the media time back by a thousand microseconds. */
  lemma LatencyPutsBack(pts: int, bytesQueued: nat, f: Format, latency: nat, more: nat, trackFrames: nat)
    requires Announceable(f)
    ensures MediaTime(pts, bytesQueued, f, latency + more, trackFrames)
      == MediaTime(pts, bytesQueued, f, latency, trackFrames) - 1000 * more
  {
  }

  /** The bytes of some frames, a sample on every channel. */
  function FrameBytes(frames: nat, f: Format): nat { frames * (f.bitsPerSample / 8) * f.channels }

  /** Whole frames of 8-bit or wider samples take the time of that many samples. */
  lemma FramesTakeTheirTime(frames: nat, f: Format)
    requires f.bitsPerSample >= 8 && f.channels > 0 && f.sampleRate > 0
    ensures PlayingTime(FrameBytes(frames, f), f) == Micros(frames, f.sampleRate)
  {
    hide Micros;
    var b := f.bitsPerSample / 8;
    CInt.QuotientIs(FrameBytes(frames, f), f.channels, frames * b);
    CInt.QuotientIs(frames * b, b, frames);
  }

  /** The media time in numbers. PCM: the time stamp less the latency less the playing time of the frames
      queued. Compressed audio: the bytes queued together with the frames of the track count as 4 bytes of
      16-bit stereo per frame, for E-AC3 at up to 48 kHz at four times the rate. */
  lemma MediaTimeMeans(pts: int, bytesQueued: nat, f: Format, latency: nat, trackFrames: nat, frames: nat)
    requires Announceable(f)
    requires f.encoding == Pcm ==> bytesQueued == frames * (f.bitsPerSample / 8) * f.channels < WORD
    requires f.encoding != Pcm ==> bytesQueued + trackFrames == 4 * frames < WORD
    ensures
      var rate := if f.encoding == Eac3 && f.sampleRate <= 48000 then 4 * f.sampleRate else f.sampleRate;
      MediaTime(pts, bytesQueued, f, latency, trackFrames) == pts - latency * 1000 - frames * 1_000_000 / rate
  {
    var g := Announced(f);
    assert g.bitsPerSample / 8 * g.channels == 4 || f.encoding == Pcm;
    assert FrameBytes(frames, g) == if f.encoding == Pcm then bytesQueued else bytesQueued + trackFrames;
    assert FrameBytes(frames, g) % WORD == FrameBytes(frames, g);
    hide PlayingTime, FrameBytes;
    FramesTakeTheirTime(frames, g);
  }

  /** While nothing is played, buffers that follow each other without a gap announce the same media time:
      `n` more frames move both the time stamp and the end of the queue by their playing time `d`. */
  lemma GaplessBuffersAgree(pts: int, m: nat, n: nat, d: nat, f: Format, latency: nat, trackFrames: nat)
    requires f.encoding == Pcm && Announceable(f) && FrameBytes(m + n, f) < WORD
    requires n * SECOND == d * f.sampleRate
    ensures FrameBytes(m + n, f) == FrameBytes(m, f) + FrameBytes(n, f)
    ensures MediaTime(pts + d, FrameBytes(m + n, f), f, latency, trackFrames)
      == MediaTime(pts, FrameBytes(m, f), f, latency, trackFrames)
  {
    hide PlayingTime;
    hide Micros;
    FramesAdd(m, n, f);
    hide FrameBytes;
    FramesTakeTheirTime(m, f);
    FramesTakeTheirTime(m + n, f);
    MicrosAdd(m, n, d, f.sampleRate);
  }

  lemma FramesAdd(m: nat, n: nat, f: Format)
    ensures FrameBytes(m + n, f) == FrameBytes(m, f) + FrameBytes(n, f)
  {
    var b, c := f.bitsPerSample / 8, f.channels;
    Distribute(m, n, b);
    Distribute(m * b, n * b, c);
  }

  lemma MicrosAdd(m: nat, n: nat, d: nat, rate: nat)
    requires rate > 0 && n * SECOND == d * rate
    ensures Micros(m + n, rate) == Micros(m, rate) + d
  {
    var q := Micros(m, rate);
    CInt.Quotient(m * SECOND, rate);
    Distribute(q, 1, rate);
    Distribute(q, d, rate);
    CInt.QuotientIs((m + n) * SECOND, rate, q + d);
  }

  lemma Distribute(a: int, b: int, r: int)
    ensures (a + b) * r == a * r + b * r
  {
  }

  /** What the fill loop changes. */
  datatype View = View(queue: seq<Header>, trace: seq<Item>, returned: seq<int>, dest: seq<int>)

  /** The view after some items have been delivered to `dest + size`, with `rest` still queued. */
  ghost function After(v: View, size: nat, items: seq<Item>, rest: seq<Header>): (r: View)
    requires size + |Bytes(items)| <= |v.dest|
    ensures r.queue == rest && |r.dest| == |v.dest|
  {
    View(rest, v.trace + items, v.returned + Returns(items),
         v.dest[..size] + Bytes(items) + v.dest[size + |Bytes(items)|..])
  }

  /** One turn of the fill loop. */
  ghost function Turn(v: View, size: nat, left: nat): (r: View)
    requires v.queue != [] && size + left <= |v.dest|
    ensures |r.dest| == |v.dest|
    ensures |v.queue[0].payload| > left ==> |r.queue| == |v.queue|
    ensures |v.queue[0].payload| <= left ==> |r.queue| < |v.queue|
  {
    var h := v.queue[0];
    if |h.payload| > left then
      BytesOfBytes(h.payload[..left]);
      After(v, size, AsBytes(h.payload[..left]), [Rest(h, left)] + v.queue[1..])
    else
      ScriptContents(h);
      After(v, size, Script(h), v.queue[1..])
  }

  lemma TurnPutsBack(v: View, size: nat, left: nat)
    requires v.queue != [] && size + left <= |v.dest| && |v.queue[0].payload| > left
    ensures Turn(v, size, left) ==
      var bytes := v.queue[0].payload[..left];
      View([Rest(v.queue[0], left)] + v.queue[1..], v.trace + AsBytes(bytes), v.returned,
           v.dest[..size] + bytes + v.dest[size + left..])
  {
    BytesOfBytes(v.queue[0].payload[..left]);
    assert v.returned + [] == v.returned;
  }

  lemma TurnFinishes(v: View, size: nat, left: nat)
    requires v.queue != [] && size + left <= |v.dest| && |v.queue[0].payload| <= left
    ensures Turn(v, size, left) ==
      var h := v.queue[0];
      View(v.queue[1..], v.trace + AsBytes(h.payload) + (if h.eos then [Eos] else []) + [Return(h.id)],
           v.returned + [h.id], v.dest[..size] + h.payload + v.dest[size + |h.payload|..])
  {
    var h := v.queue[0];
    ScriptContents(h);
    assert v.trace + Script(h) == v.trace + AsBytes(h.payload) + (if h.eos then [Eos] else []) + [Return(h.id)];
  }

  /** All turns that a request takes. */
  ghost function Turns(v: View, size: nat, left: nat): View
    requires size + left <= |v.dest|
    decreases left, |v.queue|
  {
    if left == 0 || v.queue == [] then v
    else
      var n := CInt.Min(|v.queue[0].payload|, left);
      Turns(Turn(v, size, left), size + n, left - n)
  }

  lemma AfterTwice(v: View, size: nat, a: seq<Item>, between: seq<Header>, b: seq<Item>, rest: seq<Header>)
    requires size + |Bytes(a)| + |Bytes(b)| <= |v.dest|
    ensures Bytes(a + b) == Bytes(a) + Bytes(b)
    ensures After(After(v, size, a, between), size + |Bytes(a)|, b, rest) == After(v, size, a + b, rest)
  {
    hide Bytes;
    hide Returns;
    BytesJoin(a, b);
    var once := v.dest[..size] + Bytes(a) + v.dest[size + |Bytes(a)|..];
    assert once[..size + |Bytes(a)|] == v.dest[..size] + Bytes(a);
    assert once[size + |Bytes(a)| + |Bytes(b)|..] == v.dest[size + |Bytes(a)| + |Bytes(b)|..];
    assert v.dest[..size] + Bytes(a) + Bytes(b) == v.dest[..size] + (Bytes(a) + Bytes(b));
    assert v.trace + a + b == v.trace + (a + b);
    assert v.returned + Returns(a) + Returns(b) == v.returned + (Returns(a) + Returns(b));
  }

  /** The fill loop does what Fill says. */
  lemma {:induction false} TurnsAreFill(v: View, size: nat, left: nat)
    requires size + left <= |v.dest|
    ensures |Bytes(Fill(v.queue, left).0)| <= left
    ensures Turns(v, size, left) == After(v, size, Fill(v.queue, left).0, Fill(v.queue, left).1)
    decreases left, |v.queue|
  {
    hide After;
    hide Bytes;
    if left == 0 || v.queue == [] {
      NoTurn(v, size, left);
    } else if |v.queue[0].payload| > left {
      LastTurn(v, size, left);
    } else {
      var n := |v.queue[0].payload|;
      TurnsAreFill(Turn(v, size, left), size + n, left - n);
      FirstTurn(v, size, left);
    }
  }

  lemma NoTurn(v: View, size: nat, left: nat)
    requires size + left <= |v.dest| && (left == 0 || v.queue == [])
    ensures Bytes(Fill(v.queue, left).0) == []
    ensures Turns(v, size, left) == After(v, size, Fill(v.queue, left).0, Fill(v.queue, left).1)
  {
    assert v.trace + [] == v.trace && v.returned + [] == v.returned && v.dest[..size] + [] + v.dest[size..] == v.dest;
  }

  /** A turn that finishes with a header, followed by a request for what is left. */
  lemma FirstTurn(v: View, size: nat, left: nat)
    requires size + left <= |v.dest| && left > 0 && v.queue != [] && |v.queue[0].payload| <= left
    requires
      var n := |v.queue[0].payload|;
      var (items, rest) := Fill(v.queue[1..], left - n);
      && |Bytes(items)| <= left - n
      && Turns(Turn(v, size, left), size + n, left - n) == After(Turn(v, size, left), size + n, items, rest)
    ensures |Bytes(Fill(v.queue, left).0)| <= left
    ensures Turns(v, size, left) == After(v, size, Fill(v.queue, left).0, Fill(v.queue, left).1)
  {
    hide Script;
    hide Bytes;
    hide Returns;
    hide After;
    var h := v.queue[0];
    var (items, rest) := Fill(v.queue[1..], left - |h.payload|);
    ScriptContents(h);
    AfterTwice(v, size, Script(h), v.queue[1..], items, rest);
  }

  /** A turn that puts the header back is the last one. */
  lemma LastTurn(v: View, size: nat, left: nat)
    requires size + left <= |v.dest| && left > 0 && v.queue != [] && |v.queue[0].payload| > left
    ensures |Bytes(Fill(v.queue, left).0)| == left
    ensures Turns(v, size, left) == After(v, size, Fill(v.queue, left).0, Fill(v.queue, left).1)
  {
    BytesOfBytes(v.queue[0].payload[..left]);
    hide After;
    hide Bytes;
  }

  class Renderer {
    var queue: seq<Header>
    var bytesQueued: nat          // a 32-bit counter
    var status: int               // 0 is success
    var returned: seq<int>        // every header given back, in order
    var announced: seq<int>       // the media times set on the clock port

    ghost var accepted: seq<int>
    ghost var sent: seq<Header>
    ghost var trace: seq<Item>

    ghost predicate Valid()
      reads this
    {
      Balanced(queue, bytesQueued, trace, sent, returned, accepted)
    }

    constructor (initialStatus: int)
      ensures Valid() && queue == [] && sent == [] && accepted == [] && announced == [] && status == initialStatus
    {
      queue, bytesQueued, status, returned, announced := [], 0, initialStatus, [], [];
      accepted, sent, trace := [], [], [];
    }

    /** aaf_port_send; the format, the device's latency and the track's frame count are as it finds them. */
    method Send(buffer: Header, f: Format, latency: nat, trackFrames: nat) returns (result: int)
      requires Valid() && (buffer.cmd == 0 && status == 0 ==> Announceable(f))
      modifies this
      ensures Valid() && status == old(status)
      ensures buffer.cmd != 0 ==>
        && result == 0 && queue == old(queue) && bytesQueued == old(bytesQueued)
        && returned == old(returned) + [buffer.id] && accepted == old(accepted) + [buffer.id]
        && sent == old(sent) && trace == old(trace)
      ensures buffer.cmd == 0 && status != 0 ==>
        && result == status && queue == old(queue) && bytesQueued == old(bytesQueued)
        && returned == old(returned) && accepted == old(accepted) && sent == old(sent) && trace == old(trace)
      ensures buffer.cmd == 0 && status == 0 ==>
        && result == 0 && queue == old(queue) + [buffer] && returned == old(returned)
        && accepted == old(accepted) + [buffer.id]
        && sent == old(sent) + [buffer] && trace == old(trace)
        && bytesQueued == (old(bytesQueued) + |buffer.payload|) % WORD
      ensures announced == old(announced) +
        if buffer.cmd == 0 && status == 0 then [MediaTime(buffer.pts, bytesQueued, f, latency, trackFrames)] else []
    {
      hide Balanced;
      hide Script;
      if buffer.cmd != 0 {
        EventKeeps(queue, bytesQueued, trace, sent, returned, accepted, buffer.id);
        returned := returned + [buffer.id];
        accepted := accepted + [buffer.id];
        return 0;
      }
      if status != 0 {
        return status;
      }
      SendKeeps(queue, bytesQueued, trace, sent, returned, accepted, buffer);
      var bitsPerSample, channels, sampleRate, extra := f.bitsPerSample, f.channels, f.sampleRate, 0;
      if f.encoding != Pcm {
        bitsPerSample, channels, extra := 16, 2, trackFrames;
        if f.encoding == Eac3 && sampleRate <= 48000 {
          sampleRate := sampleRate * 4;
        }
      }
      bytesQueued := (bytesQueued + |buffer.payload|) % WORD;
      var playing := (bytesQueued + extra) % WORD / channels / (bitsPerSample / 8) * 1000000 / sampleRate;
      announced := announced + [buffer.pts - (latency * 1000 + playing)];
      queue := queue + [buffer];
      sent := sent + [buffer];
      accepted := accepted + [buffer.id];
      return 0;
    }

    method ReturnAll()
      modifies this`queue, this`returned
      ensures queue == [] && returned == old(returned) + Ids(old(queue))
    {
      assert returned + Ids(queue) == old(returned) + Ids(old(queue));
      while queue != []
        invariant returned + Ids(queue) == old(returned) + Ids(old(queue))
        decreases |queue|
      {
        Move(returned, queue[0].id, Ids(queue[1..]));
        returned := returned + [queue[0].id];
        queue := queue[1..];
      }
      assert returned == returned + Ids(queue);
    }

    /** aaf_port_flush. */
    method Flush()
      requires Valid()
      modifies this
      ensures Valid() && announced == old(announced) && queue == [] && bytesQueued == 0 && status == old(status)
        && accepted == old(accepted)
      ensures returned == old(returned) + Ids(old(queue)) && sent == [] && trace == []
    {
      hide Balanced;
      FlushKeeps(queue, bytesQueued, trace, sent, returned, accepted);
      ReturnAll();
      bytesQueued := 0;
      sent, trace := [], [];
    }

    /** memcpy of a whole payload to `dest + size`. */
    static method CopyBytes(dest: array<int>, size: nat, payload: seq<int>)
      requires size + |payload| <= dest.Length
      modifies dest
      ensures dest[..] == old(dest[..])[..size] + payload + old(dest[..])[size + |payload|..]
    {
      var i := 0;
      while i < |payload|
        invariant 0 <= i <= |payload|
        invariant dest[..] == old(dest[..])[..size] + payload[..i] + old(dest[..])[size + i..]
      {
        ghost var was := dest[..];
        dest[size + i] := payload[i];
        assert dest[..] == was[size + i := payload[i]];
        i := i + 1;
      }
    }

    /** One turn of the fill loop: takes from the head of the queue, and finishes with the header or
        puts it back. */
    method TakeFromHead(dest: array<int>, size: nat, space: nat) returns (bytes: nat)
      requires queue != [] && 0 < space && size + space <= dest.Length
      modifies this`queue, this`returned, this`trace, dest
      ensures bytes == CInt.Min(|old(queue)[0].payload|, space)
      ensures View(queue, trace, returned, dest[..]) == Turn(old(View(queue, trace, returned, dest[..])), size, space)
    {
      hide Turn;
      ghost var v := View(queue, trace, returned, dest[..]);
      var buffer := queue[0];
      queue := queue[1..];
      bytes := CInt.Min(|buffer.payload|, space);
      CopyBytes(dest, size, buffer.payload[..bytes]);
      trace := trace + AsBytes(buffer.payload[..bytes]);
      var rest := Rest(buffer, bytes);
      if rest.payload != [] {
        TurnPutsBack(v, size, space);
        queue := [rest] + queue;
        return;
      }
      TurnFinishes(v, size, space);
      assert buffer.payload[..bytes] == buffer.payload;
      if buffer.eos {
        trace := trace + [Eos];
      }
      trace := trace + [Return(buffer.id)];
      returned := returned + [buffer.id];
    }

    /** The fill loop: turns until the request is met or the queue is empty. */
    method Pump(dest: array<int>, space: nat) returns (size: nat)
      requires space <= dest.Length
      modifies this`queue, this`returned, this`trace, dest
      ensures size == |Bytes(Fill(old(queue), space).0)| <= dest.Length
      ensures View(queue, trace, returned, dest[..]) ==
        After(old(View(queue, trace, returned, dest[..])), 0, Fill(old(queue), space).0, Fill(old(queue), space).1)
    {
      hide Turn;
      hide After;
      hide Fill;
      hide Bytes;
      hide Total;
      size := 0;
      ghost var start := View(queue, trace, returned, dest[..]);
      TurnsAreFill(start, 0, space);
      FillCounts(start.queue, space);
      var left := space;
      while left > 0 && queue != []
        invariant size + left == space <= dest.Length
        invariant Turns(View(queue, trace, returned, dest[..]), size, left) == Turns(start, 0, space)
        invariant CInt.Min(left, Total(queue)) + size == CInt.Min(space, Total(start.queue))
        decreases left, |queue|
      {
        TurnCounts(View(queue, trace, returned, dest[..]), size, left);
        var bytes := TakeFromHead(dest, size, left);
        left := left - bytes;
        size := size + bytes;
      }
      assert Total([]) == 0 by { NothingQueued(0); }
    }

    /** aaf_track_callback: the track asks for `space` bytes at `dest`. */
    method TrackCallback(moreData: bool, dest: array<int>, space: nat) returns (size: nat)
      requires Valid() && space <= dest.Length
      modifies this, dest
      ensures Valid() && status == old(status) && accepted == old(accepted) && sent == old(sent)
      ensures announced == old(announced)
      ensures !moreData ==>
        && size == space && queue == old(queue) && trace == old(trace) && returned == old(returned)
        && dest[..] == old(dest[..]) && bytesQueued == old(bytesQueued)
      ensures moreData ==>
        && size == CInt.Min(space, Total(old(queue))) <= dest.Length
        && queue == Fill(old(queue), space).1
        && trace == old(trace) + Fill(old(queue), space).0
        && returned == old(returned) + Returns(Fill(old(queue), space).0)
        && dest[..] == Bytes(Fill(old(queue), space).0) + old(dest[..])[size..]
    {
      hide Balanced;
      hide Fill;
      hide Bytes;
      hide Returns;
      hide Total;
      if !moreData {
        return space;
      }
      size := 0;
      if |queue| == 0 {
        NothingQueued(space);
        assert old(dest[..])[0..] == old(dest[..]);
        return;
      }
      FillKeeps(queue, bytesQueued, trace, sent, returned, accepted, space);
      size := Pump(dest, space);
      bytesQueued := (bytesQueued - size) % WORD;
    }
  }

  lemma Move(a: seq<int>, x: int, b: seq<int>)
    ensures a + ([x] + b) == a + [x] + b
  {
  }

  lemma NothingQueued(space: nat)
    ensures Fill([], space) == ([], []) && Bytes([]) == [] && Returns([]) == [] && Total([]) == 0
  {
  }

  lemma TurnCounts(v: View, size: nat, left: nat)
    requires v.queue != [] && size + left <= |v.dest|
    ensures
      var n := CInt.Min(|v.queue[0].payload|, left);
      CInt.Min(left - n, Total(Turn(v, size, left).queue)) + n == CInt.Min(left, Total(v.queue))
  {
    hide Bytes;
    hide Script;
    var h := v.queue[0];
    if |h.payload| > left {
      assert ([Rest(h, left)] + v.queue[1..])[1..] == v.queue[1..];
    }
  }

  /** The payloads of some buffers one after the other. */
  function Payloads(headers: seq<Header>): seq<int> {
    if headers == [] then [] else headers[0].payload + Payloads(headers[1..])
  }

  lemma {:induction false} ScriptsContents(headers: seq<Header>)
    ensures Bytes(Scripts(headers)) == Payloads(headers) && Returns(Scripts(headers)) == Ids(headers)
    ensures |Payloads(headers)| == Total(headers)
  {
    hide Script;
    if headers != [] {
      ScriptsContents(headers[1..]);
      ScriptContents(headers[0]);
      BytesJoin(Script(headers[0]), Scripts(headers[1..]));
    }
  }

  /** The bytes delivered since the last flush are a prefix of the payloads sent since then, what is
      missing is exactly what is still queued, and headers come back in the order sent. */
  lemma DeliveredInOrder(trace: seq<Item>, queue: seq<Header>, sent: seq<Header>)
    requires trace + Scripts(queue) == Scripts(sent)
    ensures Payloads(sent) == Bytes(trace) + Payloads(queue) && |Payloads(queue)| == Total(queue)
    ensures Ids(sent) == Returns(trace) + Ids(queue)
  {
    BytesJoin(trace, Scripts(queue));
    ScriptsContents(queue);
    ScriptsContents(sent);
    hide Scripts;
    hide Bytes;
    hide Returns;
  }

  /** Where a header's script holds its end of stream: after its last byte, and right before its return. */
  lemma EosInScript(h: Header, i: nat)
    requires i < |Script(h)| && Script(h)[i] == Eos
    ensures h.eos && i + 2 == |Script(h)| && Script(h)[i + 1] == Return(h.id)
    ensures Bytes(Script(h)[..i]) == h.payload && Returns(Script(h)[..i]) == []
  {
    assert i == |h.payload| && Script(h)[..i] == AsBytes(h.payload);
    BytesOfBytes(h.payload);
  }

  lemma {:induction false} EosInScripts(sent: seq<Header>, i: nat) returns (n: nat)
    requires i < |Scripts(sent)| && Scripts(sent)[i] == Eos
    ensures n < |sent| && sent[n].eos
    ensures i + 1 < |Scripts(sent)| && Scripts(sent)[i + 1] == Return(sent[n].id)
    ensures Bytes(Scripts(sent)[..i]) == Payloads(sent[..n + 1]) && Returns(Scripts(sent)[..i]) == Ids(sent[..n])
  {
    var first, rest := Script(sent[0]), Scripts(sent[1..]);
    if i < |first| {
      n := 0;
      EosInScript(sent[0], i);
      assert Scripts(sent)[..i] == first[..i];
      assert sent[..1] == [sent[0]] && [sent[0]][1..] == [];
      assert sent[0].payload + [] == sent[0].payload;
    } else {
      hide Script;
      var k := EosInScripts(sent[1..], i - |first|);
      n := k + 1;
      assert Scripts(sent)[..i] == first + rest[..i - |first|];
      BytesJoin(first, rest[..i - |first|]);
      ScriptContents(sent[0]);
      hide Bytes;
      hide Returns;
      assert sent[..n + 1][0] == sent[0] && sent[..n + 1][1..] == sent[1..][..k + 1];
      assert sent[..n][0] == sent[0] && sent[..n][1..] == sent[1..][..k];
    }
  }

  /** Item `i` of a trace is the end of stream of buffer `n`: the bytes before it are exactly the payloads
      of the buffers up to and including `n`, the headers before it those of the earlier buffers, and the
      return of buffer `n` follows directly. */
  ghost predicate EndsBuffer(trace: seq<Item>, sent: seq<Header>, i: nat, n: nat) {
    && n < |sent| && sent[n].eos && i + 1 < |trace| && trace[i + 1] == Return(sent[n].id)
    && Bytes(trace[..i]) == Payloads(sent[..n + 1]) && Returns(trace[..i]) == Ids(sent[..n])
  }

  /** End of stream never overtakes audio: wherever it stands in what the renderer has delivered since the
      last flush, it is the end of stream of a flagged buffer sent since then. */
  lemma EosAfterLastByte(trace: seq<Item>, queue: seq<Header>, sent: seq<Header>, i: nat)
    requires trace + Scripts(queue) == Scripts(sent) && Settled(trace)
    requires i < |trace| && trace[i] == Eos
    ensures exists n: nat :: EndsBuffer(trace, sent, i, n)
  {
    hide Scripts;
    hide Bytes;
    hide Returns;
    assert Scripts(sent)[i] == Eos;
    var n := EosInScripts(sent, i);
    assert Scripts(sent)[..i] == trace[..i];
    assert Scripts(sent)[i + 1] == trace[i + 1];
    assert EndsBuffer(trace, sent, i, n);
  }
}
