/**
  The still camera's byte collector (private_still_impl.cpp:70-107, 357-402): callbacks bring the
  encoded image in buffers of any size, and the bytes are copied into the caller's array. In RGB
  encoding the first 54 bytes of the stream, a bitmap header, are skipped.
 */
module StillCapture {
  import CInt

  const HEADER := 54

  /** What of an encoded stream is image data. */
  function Payload(stream: seq<int>, rgb: bool): seq<int> {
    if !rgb then stream else if |stream| <= HEADER then [] else stream[HEADER..]
  }

  /** The stream bytes that may arrive before the collector gives up: it gives up at a byte that
      arrives when the array is full, even one that the header skip would drop. */
  function Capacity(room: nat, rgb: bool): nat {
    if room == 0 then 0 else if rgb then HEADER + room else room
  }

  /** The array after a stream has been collected from position `start` on: as much of the payload
      as fits. */
  ghost predicate Collected(initial: seq<int>, data: seq<int>, start: nat, length: nat, stream: seq<int>, rgb: bool)
    requires start <= length <= |initial|
  {
    var stored := Payload(stream, rgb)[..CInt.Min(|Payload(stream, rgb)|, length - start)];
    data == initial[..start] + stored + initial[start + |stored|..]
  }

  /** Storing one more byte of the stream. */
  lemma StoreByte(initial: seq<int>, data: seq<int>, start: nat, length: nat, stream: seq<int>, rgb: bool, b: int)
    requires start <= length <= |initial| && Collected(initial, data, start, length, stream, rgb)
    requires start + |Payload(stream, rgb)| < length
    ensures
      var offset := start + |Payload(stream, rgb)|;
      if rgb && |stream| < HEADER then Collected(initial, data, start, length, stream + [b], rgb)
      else |data| == |initial| && Collected(initial, data[offset := b], start, length, stream + [b], rgb)
  {
    var p, q := Payload(stream, rgb), Payload(stream + [b], rgb);
    if !rgb || |stream| >= HEADER {
      assert q == p + [b];
      assert q[..CInt.Min(|q|, length - start)] == q && p[..CInt.Min(|p|, length - start)] == p;
    }
  }

  /** Once the collector has given up, further bytes change nothing that was promised. */
  lemma IgnoreBytes(initial: seq<int>, data: seq<int>, start: nat, length: nat, stream: seq<int>, rgb: bool,
      more: seq<int>)
    requires start <= length <= |initial| && Collected(initial, data, start, length, stream, rgb)
    requires |Payload(stream, rgb)| >= length - start
    ensures Collected(initial, data, start, length, stream + more, rgb)
  {
    var p, q := Payload(stream, rgb), Payload(stream + more, rgb);
    assert q[..length - start] == p[..length - start];
  }

  class UserData {
    const rgb: bool
    const data: array<int>
    const startingOffset: nat
    const length: nat
    var offset: nat
    var bufferPosition: nat
    var cameraBoard: bool       // the back pointer, cleared when the array turned out too small
    var posts: nat              // how often the waiting caller was woken

    ghost const initial: seq<int>
    ghost var stream: seq<int>  // every byte received so far

    ghost predicate Valid()
      reads this, data
    {
      && startingOffset <= length <= data.Length == |initial|
      && Collected(initial, data[..], startingOffset, length, stream, rgb)
      && (cameraBoard <==> |stream| <= Capacity(length - startingOffset, rgb))
      && (cameraBoard ==> offset == startingOffset + |Payload(stream, rgb)| <= length && bufferPosition == |stream|)
    }

    constructor (encodingRgb: bool, preallocated: array<int>, start: nat, len: nat)
      requires start <= len <= preallocated.Length
      ensures Valid() && stream == [] && data == preallocated && rgb == encodingRgb
      ensures startingOffset == start && length == len && posts == 0 && initial == preallocated[..]
    {
      rgb, data, startingOffset, length := encodingRgb, preallocated, start, len;
      offset, bufferPosition, cameraBoard, posts := start, 0, true, 0;
      initial, stream := preallocated[..], [];
    }

    /** One turn of the copy loop, while the array has room. */
    method CopyByte(b: int)
      requires Valid() && cameraBoard && offset < length
      modifies this`offset, this`bufferPosition, this`stream, data
      ensures Valid() && stream == old(stream) + [b]
    {
      hide Collected;
      ghost var was := data[..];
      StoreByte(initial, was, startingOffset, length, stream, rgb, b);
      if rgb {
        if bufferPosition >= HEADER {
          data[offset] := b;
          assert data[..] == was[offset := b];
          offset := offset + 1;
        }
      } else {
        data[offset] := b;
        assert data[..] == was[offset := b];
        offset := offset + 1;
      }
      bufferPosition := bufferPosition + 1;
      stream := stream + [b];
    }

    /** The copy loop of buffer_callback. */
    method CopyBytes(bytes: seq<int>)
      requires Valid() && cameraBoard
      modifies this`offset, this`bufferPosition, this`cameraBoard, this`stream, data
      ensures Valid() && stream == old(stream) + bytes
    {
      hide Collected;
      hide Payload;
      ghost var before := stream;
      var i := 0;
      while i < |bytes|
        invariant 0 <= i <= |bytes| && Valid() && cameraBoard && stream == before + bytes[..i]
      {
        if offset >= length {
          cameraBoard := false;
          GiveUp(before + bytes[..i], bytes[i..]);
          stream := before + bytes;
          assert before + bytes[..i] + bytes[i..] == before + bytes;
          break;
        }
        CopyByte(bytes[i]);
        assert bytes[..i + 1] == bytes[..i] + [bytes[i]];
        i := i + 1;
      }
    }

    lemma GiveUp(received: seq<int>, more: seq<int>)
      requires startingOffset <= length <= data.Length == |initial|
      requires Collected(initial, data[..], startingOffset, length, received, rgb)
      requires startingOffset + |Payload(received, rgb)| >= length && more != []
      requires |received| <= Capacity(length - startingOffset, rgb)
      ensures Collected(initial, data[..], startingOffset, length, received + more, rgb)
      ensures |received + more| > Capacity(length - startingOffset, rgb)
    {
      IgnoreBytes(initial, data[..], startingOffset, length, received, rgb, more);
    }

    /** buffer_callback: copy the bytes of a buffer, and wake the caller when the buffer ends the
        frame or reports a failure. A collector that has given up ignores the buffer. */
    method BufferCallback(bytes: seq<int>, endFlag: bool)
      requires Valid()
      modifies this`offset, this`bufferPosition, this`cameraBoard, this`stream, this`posts, data
      ensures Valid() && stream == old(stream) + bytes
      ensures posts == old(posts) + if endFlag && |old(stream)| <= Capacity(length - startingOffset, rgb) then 1 else 0
    {
      if !cameraBoard {
        IgnoredAll(bytes);
        stream := stream + bytes;
        return;
      }
      CopyBytes(bytes);
      if endFlag {
        posts := posts + 1;
      }
    }

    lemma IgnoredAll(bytes: seq<int>)
      requires Valid() && !cameraBoard
      ensures Collected(initial, data[..], startingOffset, length, stream + bytes, rgb)
    {
      IgnoreBytes(initial, data[..], startingOffset, length, stream, rgb, bytes);
    }
  }

  /** The whole stream that a list of buffers brings. */
  function Joined(buffers: seq<seq<int>>): seq<int> {
    if buffers == [] then [] else Joined(buffers[..|buffers| - 1]) + buffers[|buffers| - 1]
  }

  /** Whether takePicture returns, given the buffers up to the one that ends the frame: the caller is
      woken unless the collector has given up before the last buffer arrives. */
  predicate Woken(length: nat, rgb: bool, buffers: seq<seq<int>>)
    requires buffers != []
  {
    |Joined(buffers[..|buffers| - 1])| <= Capacity(length, rgb)
  }

  /** takePicture, from the buffers that arrive up to the one that ends the frame. The array gets the
      longest prefix of the image data that fits, however the stream was cut into buffers, and the
      caller is woken exactly when the array was not found too small before the last buffer. */
  method TakePicture(data: array<int>, length: nat, rgb: bool, buffers: seq<seq<int>>) returns (woken: bool)
    requires length <= data.Length && buffers != []
    modifies data
    ensures Collected(old(data[..]), data[..], 0, length, Joined(buffers), rgb)
    ensures woken <==> Woken(length, rgb, buffers)
  {
    var userdata := new UserData(rgb, data, 0, length);
    var i := 0;
    while i < |buffers|
      invariant 0 <= i <= |buffers| && userdata.Valid() && fresh(userdata)
      invariant userdata.data == data && userdata.length == length
      invariant userdata.startingOffset == 0 && userdata.rgb == rgb
      invariant userdata.initial == old(data[..]) && userdata.stream == Joined(buffers[..i])
      invariant userdata.posts ==
        if i == |buffers| && Woken(length, rgb, buffers) then 1 else 0
    {
      assert buffers[..i + 1][..i] == buffers[..i];
      userdata.BufferCallback(buffers[i], i == |buffers| - 1);
      i := i + 1;
    }
    assert buffers[..i] == buffers;
    woken := userdata.posts > 0;
  }

  /** Byte for byte: the array gets the stream, in RGB encoding from its 54th byte on, as far as both go, and
      keeps what it held behind that. */
  lemma StoredBytes(initial: seq<int>, data: seq<int>, length: nat, stream: seq<int>, rgb: bool)
    requires length <= |initial| && Collected(initial, data, 0, length, stream, rgb)
    ensures |data| == |initial|
    ensures forall i :: 0 <= i < |data| ==>
      var skipped := if rgb then 54 else 0;
      data[i] == if i < length && skipped + i < |stream| then stream[skipped + i] else initial[i]
  {
    var stored := Payload(stream, rgb)[..CInt.Min(|Payload(stream, rgb)|, length)];
    assert initial[..0] + stored == stored;
    forall i | 0 <= i < |stored|
      ensures stored[i] == stream[(if rgb then 54 else 0) + i]
    {
    }
  }

  /** In numbers: the caller is woken if and only if what came before the last buffer is at most the array, and
      in RGB encoding 54 bytes more, or nothing for an array without room. */
  lemma WokenMeans(length: nat, rgb: bool, buffers: seq<seq<int>>)
    requires buffers != []
    ensures
      var before := |Joined(buffers[..|buffers| - 1])|;
      Woken(length, rgb, buffers) <==> before == 0 || (length > 0 && before <= length + if rgb then 54 else 0)
  {
  }

  /** Two ways of cutting the same stream leave the same bytes. */
  lemma CutsDoNotMatter(
      initial: seq<int>, a: seq<int>, b: seq<int>, length: nat, rgb: bool, cutA: seq<seq<int>>, cutB: seq<seq<int>>)
    requires length <= |initial| && Joined(cutA) == Joined(cutB)
    requires Collected(initial, a, 0, length, Joined(cutA), rgb) && Collected(initial, b, 0, length, Joined(cutB), rgb)
    ensures a == b
    ensures |a| == |initial| && a[length..] == initial[length..]
  {
  }

  /** getImageBufferSize: room for a bitmap with its header. */
  function ImageBufferSize(width: nat, height: nat): nat {
    width * height * 3 + HEADER
  }

  /** An array of the advised size takes every image of at most that many bytes, in any encoding and
      any cut: all of the payload is stored and the caller is woken. */
  lemma AdvisedSizeSuffices(
      initial: seq<int>, data: seq<int>, width: nat, height: nat, rgb: bool, buffers: seq<seq<int>>)
    requires buffers != [] && |initial| == ImageBufferSize(width, height) >= |Joined(buffers)|
    requires Collected(initial, data, 0, ImageBufferSize(width, height), Joined(buffers), rgb)
    ensures Payload(Joined(buffers), rgb) <= data
    ensures Woken(ImageBufferSize(width, height), rgb, buffers)
  {
    var p := Payload(Joined(buffers), rgb);
    assert |p| <= |initial|;
    assert p[..CInt.Min(|p|, |initial|)] == p;
    assert data == p + initial[|p|..] by { assert initial[..0] == []; }
  }

  /** A bitmap with three bytes a pixel and its header fills an array of the advised size exactly. */
  lemma BitmapFillsAdvisedSize(initial: seq<int>, data: seq<int>, width: nat, height: nat, buffers: seq<seq<int>>)
    requires buffers != [] && |initial| == ImageBufferSize(width, height)
    requires |Joined(buffers)| == 54 + 3 * (width * height)
    requires Collected(initial, data, 0, ImageBufferSize(width, height), Joined(buffers), false)
    ensures data == Joined(buffers)
  {
    assert width * height * 3 == 3 * (width * height);
    StoredBytes(initial, data, |initial|, Joined(buffers), false);
  }

  /** Cutting does matter for waking the caller: when the same too-long stream ends in a buffer of
      its own, nobody wakes the caller, although it is woken when the stream comes in one piece. */
  lemma LateEndIsNotSeen(length: nat, rgb: bool, stream: seq<int>, last: seq<int>)
    requires |stream| > Capacity(length, rgb)
    ensures Joined([stream, last]) == Joined([stream + last])
    ensures !Woken(length, rgb, [stream, last]) && Woken(length, rgb, [stream + last])
  {
    assert [stream, last][..1] == [stream] && [stream][..0] == [] && [stream + last][..0] == [];
    assert Joined([stream]) == [] + stream == stream;
  }

  /** Only a stream that is too long for the array can leave its caller waiting, and then there is always
      such a cut: every cut wakes the caller exactly when the stream fits. */
  lemma EveryCutWakesIff(length: nat, rgb: bool, stream: seq<int>)
    ensures (forall buffers :: buffers != [] && Joined(buffers) == stream ==> Woken(length, rgb, buffers))
      <==> |stream| <= Capacity(length, rgb)
  {
    if |stream| <= Capacity(length, rgb) {
      forall buffers | buffers != [] && Joined(buffers) == stream
        ensures Woken(length, rgb, buffers)
      {
      }
    } else {
      LateEndIsNotSeen(length, rgb, stream, []);
      assert [stream, []][..1] == [stream] && [stream][..0] == [];
      assert Joined([stream, []]) == Joined([stream]) + [] == stream;
    }
  }
}
