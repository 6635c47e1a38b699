/** Raw video: frames of width x height BGR pixels cut from a byte pipe. */
module RawVideo {
  import opened Rectangles
  import opened Images
  import opened Options
  import opened RowMajor

  // ---------- frames as bytes ----------

  /** A decoded frame, row after row. */
  datatype RawFrame = RawFrame(width: nat, height: nat, pix: seq<Rgb>)

  /** The frame as an image. Outside its bounds the RGBA image type reads as transparent
      black, whose colour channels are zero. */
  function AsImage(f: RawFrame): Image {
    Image(Rect(0, 0, f.width, f.height),
          (x, y) => var i := y * f.width + x;
                    if Inside(Rect(0, 0, f.width, f.height), x, y) && 0 <= i < |f.pix| then f.pix[i] else Rgb(0, 0, 0))
  }

  function PixelAt(bytes: seq<Byte>, i: nat): Rgb
    requires 3 * i + 2 < |bytes|
  {
    Rgb(bytes[3 * i + 2], bytes[3 * i + 1], bytes[3 * i])
  }

  function Decode(bytes: seq<Byte>, n: nat): (pix: seq<Rgb>)
    requires 3 * n <= |bytes|
    ensures |pix| == n
  {
    seq(n, i requires 0 <= i < n => PixelAt(bytes, i))
  }

  function Encode(pix: seq<Rgb>): (bytes: seq<Byte>)
    ensures |bytes| == 3 * |pix|
  {
    if pix == [] then []
    else
      var k := |pix| - 1;
      Encode(pix[..k]) + [pix[k].b, pix[k].g, pix[k].r]
  }

  lemma {:induction false} EncodeAt(pix: seq<Rgb>, i: nat)
    requires i < |pix|
    ensures PixelAt(Encode(pix), i) == pix[i]
  {
    var k := |pix| - 1;
    if i < k {
      EncodeAt(pix[..k], i);
      assert Encode(pix)[..3 * k] == Encode(pix[..k]);
    }
  }

  /** Decoding an encoded frame gives the frame back. */
  lemma DecodeEncode(pix: seq<Rgb>)
    ensures Decode(Encode(pix), |pix|) == pix
  {
    forall i | 0 <= i < |pix|
      ensures Decode(Encode(pix), |pix|)[i] == pix[i]
    {
      EncodeAt(pix, i);
    }
  }

  /** Re-encoding a decoded frame gives exactly its bytes. */
  lemma {:induction false} EncodeDecode(bytes: seq<Byte>, n: nat)
    requires |bytes| == 3 * n
    ensures Encode(Decode(bytes, n)) == bytes
  {
    if n > 0 {
      var head := bytes[..3 * (n - 1)];
      EncodeDecode(head, n - 1);
      assert Decode(bytes, n)[..n - 1] == Decode(head, n - 1);
      assert bytes == head + [bytes[3 * n - 3], bytes[3 * n - 2], bytes[3 * n - 1]];
    }
  }

  // ---------- the pipe ----------

  /** The reading end of a pipe. How many bytes one read delivers is up to the system;
      an exhausted pipe reports the end of the stream. */
  class Pipe {
    var unread: seq<Byte>

    constructor (bytes: seq<Byte>)
      ensures unread == bytes
    {
      unread := bytes;
    }

    method Read(buf: array<Byte>, start: nat) returns (n: nat)
      requires start < buf.Length
      modifies this, buf
      ensures n == 0 <==> old(unread) == []
      ensures n <= |old(unread)| && start + n <= buf.Length
      ensures unread == old(unread)[n..]
      ensures buf[..] == old(buf[..start]) + old(unread)[..n] + old(buf[start..])[n..]
    {
      var room := if |unread| < buf.Length - start then |unread| else buf.Length - start;
      if room == 0 {
        n := 0;
      } else {
        n :| 1 <= n <= room;
      }
      forall i | 0 <= i < n {
        buf[start + i] := unread[i];
      }
      unread := unread[n..];
    }
  }

  /** Read until the buffer is full or the pipe is exhausted. The outcome does not
      depend on how the bytes arrive. */
  method ReadFull(pipe: Pipe, buf: array<Byte>) returns (ok: bool)
    modifies pipe, buf
    ensures ok <==> buf.Length <= |old(pipe.unread)|
    ensures ok ==> buf[..] == old(pipe.unread)[..buf.Length] && pipe.unread == old(pipe.unread)[buf.Length..]
    ensures !ok ==> pipe.unread == []
  {
    var n := 0;
    while n < buf.Length
      invariant 0 <= n <= buf.Length && n <= |old(pipe.unread)|
      invariant buf[..n] == old(pipe.unread)[..n] && pipe.unread == old(pipe.unread)[n..]
    {
      ghost var got, rest := buf[..n], pipe.unread;
      var nn := pipe.Read(buf, n);
      if nn == 0 {
        return false;
      }
      assert buf[..n + nn] == got + rest[..nn];
      n := n + nn;
    }
    assert buf[..n] == buf[..];
    return true;
  }

  // ---------- the frame reader ----------

  class RawVideoReader {
    const width: nat
    const height: nat
    const frameSize: nat

    constructor (width: nat, height: nat)
      ensures this.width == width && this.height == height && Valid()
    {
      ProductMonotone(0, width, height);
      this.width := width;
      this.height := height;
      frameSize := width * height * 3;
    }

    predicate Valid() {
      frameSize == width * height * 3
    }

    /** One round of the pixel loops. */
    method StorePixel(buf: array<Byte>, pix: array<Rgb>, x: nat, y: nat, ghost k: int)
      requires Valid() && x < width && y < height && buf.Length == frameSize && pix.Length == width * height
      requires k == y * width + x && pix.Length * 3 == buf.Length && 0 <= k < pix.Length
      requires pix[..k] == Decode(buf[..], pix.Length)[..k]
      modifies pix
      ensures pix[..k + 1] == Decode(buf[..], pix.Length)[..k + 1]
    {
      var offset := (y * width + x) * 3;
      var b := buf[offset];
      var g := buf[offset + 1];
      var r := buf[offset + 2];
      pix[y * width + x] := Rgb(r, g, b);
      assert pix[..k + 1] == old(pix[..k]) + [PixelAt(buf[..], k)];
    }

    /** The pixel loops. */
    method DecodeFrame(buf: array<Byte>) returns (frame: RawFrame)
      requires Valid() && buf.Length == frameSize
      ensures frame == RawFrame(width, height, Decode(buf[..], width * height))
    {
      ProductMonotone(0, width, height);
      var pix := new Rgb[width * height](_ => Rgb(0, 0, 0));
      for y := 0 to height
        invariant 0 <= y * width <= pix.Length
        invariant pix[..y * width] == Decode(buf[..], pix.Length)[..y * width]
      {
        NextRow(width, y);
        for x := 0 to width
          invariant 0 <= y * width + x <= pix.Length
          invariant pix[..y * width + x] == Decode(buf[..], pix.Length)[..y * width + x]
        {
          FlatInside(width, height, x, y);
          StorePixel(buf, pix, x, y, y * width + x);
        }
      }
      assert pix[..height * width] == pix[..];
      frame := RawFrame(width, height, pix[..]);
    }

    /** Read one frame, or fail without a frame when fewer bytes are left. */
    method ReadFrame(pipe: Pipe) returns (frame: Option<RawFrame>)
      requires Valid()
      modifies pipe
      ensures frame.Some? <==> frameSize <= |old(pipe.unread)|
      ensures frame.Some? ==> pipe.unread == old(pipe.unread)[frameSize..]
      ensures frame.Some? ==>
                frame.value == RawFrame(width, height, Decode(old(pipe.unread)[..frameSize], width * height))
      ensures frame == None ==> pipe.unread == []
    {
      var buf := new Byte[frameSize](_ => 0);
      var ok := ReadFull(pipe, buf);
      if !ok {
        return None;
      }
      var f := DecodeFrame(buf);
      return Some(f);
    }
  }

  // ---------- a whole stream ----------

  /** The frames a stream contains; the bytes of a trailing partial frame yield none. */
  function Frames(width: nat, height: nat, size: nat, bytes: seq<Byte>): seq<RawFrame>
    requires 0 < size == 3 * (width * height)
    decreases |bytes|
  {
    if |bytes| < size then []
    else [RawFrame(width, height, Decode(bytes[..size], width * height))] + Frames(width, height, size, bytes[size..])
  }

  function EncodeAll(frames: seq<RawFrame>): seq<Byte> {
    if frames == [] then [] else Encode(frames[0].pix) + EncodeAll(frames[1..])
  }

  /** The first k frames are exactly the first k * width * height * 3 bytes, and what is
      behind them is cut into the remaining frames. */
  lemma {:induction false} FramesConsume(width: nat, height: nat, size: nat, bytes: seq<Byte>, k: nat)
    requires 0 < size == 3 * (width * height) && k <= |Frames(width, height, size, bytes)|
    ensures 0 <= k * size <= |bytes|
    ensures EncodeAll(Frames(width, height, size, bytes)[..k]) == bytes[..k * size]
    ensures Frames(width, height, size, bytes)[k..] == Frames(width, height, size, bytes[k * size..])
    decreases k
  {
    if k == 0 {
      assert bytes[..0] == [] && bytes[0..] == bytes;
    } else {
      var first, rest := bytes[..size], bytes[size..];
      var frames := Frames(width, height, size, bytes);
      assert frames[1..] == Frames(width, height, size, rest);
      FramesConsume(width, height, size, rest, k - 1);
      NextRow(size, k - 1);
      FirstFrame(width, height, size, bytes, k);
      assert frames[k..] == frames[1..][k - 1..];
      SliceBehind(bytes, size, (k - 1) * size);
    }
  }

  lemma FirstFrame(width: nat, height: nat, size: nat, bytes: seq<Byte>, k: nat)
    requires 0 < size == 3 * (width * height) && 0 < k <= |Frames(width, height, size, bytes)|
    ensures size <= |bytes|
    ensures EncodeAll(Frames(width, height, size, bytes)[..k]) ==
            bytes[..size] + EncodeAll(Frames(width, height, size, bytes[size..])[..k - 1])
  {
    var frames := Frames(width, height, size, bytes);
    EncodeDecode(bytes[..size], width * height);
    assert frames[..k][1..] == Frames(width, height, size, bytes[size..])[..k - 1];
  }

  lemma SliceBehind(bytes: seq<Byte>, m: nat, n: nat)
    requires m + n <= |bytes|
    ensures bytes[..m] + bytes[m..][..n] == bytes[..n + m] && bytes[m..][n..] == bytes[n + m..]
  {
  }

  /** There is a k-th frame exactly if the bytes reach that far. */
  lemma {:induction false} FramesFit(width: nat, height: nat, size: nat, bytes: seq<Byte>, k: nat)
    requires 0 < size == 3 * (width * height)
    ensures k <= |Frames(width, height, size, bytes)| <==> k * size <= |bytes|
    decreases k
  {
    if k > 0 {
      NextRow(size, k - 1);
      if |bytes| >= size {
        FramesFit(width, height, size, bytes[size..], k - 1);
      } else {
        ProductMonotone(0, k - 1, size);
      }
    }
  }

  /** The frames cover the stream up to less than one frame: together they re-encode
      to a prefix of it. */
  lemma FramesCoverStream(width: nat, height: nat, size: nat, bytes: seq<Byte>)
    requires 0 < size == 3 * (width * height)
    ensures var covered := EncodeAll(Frames(width, height, size, bytes));
      covered <= bytes && |bytes| - |covered| < size
  {
    var frames := Frames(width, height, size, bytes);
    FramesConsume(width, height, size, bytes, |frames|);
    FramesFit(width, height, size, bytes, |frames| + 1);
    NextRow(size, |frames|);
    assert frames[..|frames|] == frames;
  }

  /** Read k frames, or fail at the first one that is not there. */
  method ReadFrames(reader: RawVideoReader, pipe: Pipe, k: nat) returns (frames: Option<seq<RawFrame>>)
    requires reader.Valid() && 0 < reader.frameSize
    modifies pipe
    ensures 0 <= k * reader.frameSize
    ensures frames.Some? <==> k * reader.frameSize <= |old(pipe.unread)|
    ensures frames.Some? ==> |frames.value| == k && pipe.unread == old(pipe.unread)[k * reader.frameSize..]
    ensures frames.Some? ==> EncodeAll(frames.value) == old(pipe.unread)[..k * reader.frameSize]
    ensures frames == None ==> pipe.unread == []
  {
    var got := [];
    ghost var all := Frames(reader.width, reader.height, reader.frameSize, pipe.unread);
    ProductMonotone(0, k, reader.frameSize);
    FramesFit(reader.width, reader.height, reader.frameSize, pipe.unread, k);
    for i := 0 to k
      invariant i <= |all| && got == all[..i]
      invariant all[i..] == Frames(reader.width, reader.height, reader.frameSize, pipe.unread)
      invariant 0 <= i * reader.frameSize <= |old(pipe.unread)|
      invariant pipe.unread == old(pipe.unread)[i * reader.frameSize..]
    {
      var frame := reader.ReadFrame(pipe);
      if frame == None {
        return None;
      }
      got := got + [frame.value];
      FramesConsume(reader.width, reader.height, reader.frameSize, old(pipe.unread), i + 1);
      NextRow(reader.frameSize, i);
    }
    FramesConsume(reader.width, reader.height, reader.frameSize, old(pipe.unread), k);
    return Some(got);
  }

  /** Reading frame after frame until the reader fails delivers exactly the frames of
      the stream, however the bytes arrive. */
  method ReadAll(reader: RawVideoReader, pipe: Pipe) returns (frames: seq<RawFrame>)
    requires reader.Valid() && 0 < reader.frameSize
    modifies pipe
    ensures frames == Frames(reader.width, reader.height, reader.frameSize, old(pipe.unread))
    ensures pipe.unread == []
  {
    frames := [];
    while true
      invariant Frames(reader.width, reader.height, reader.frameSize, old(pipe.unread)) ==
                frames + Frames(reader.width, reader.height, reader.frameSize, pipe.unread)
      decreases |pipe.unread|
    {
      var frame := reader.ReadFrame(pipe);
      if frame == None {
        return;
      }
      frames := frames + [frame.value];
    }
  }

  lemma FrameIsChunk(width: nat, height: nat, size: nat, bytes: seq<Byte>, k: nat)
    requires 0 < size == 3 * (width * height) && k < |Frames(width, height, size, bytes)|
    ensures 0 <= k * size && k * size + size <= |bytes|
    ensures Frames(width, height, size, bytes)[k] ==
            RawFrame(width, height, Decode(bytes[k * size..k * size + size], width * height))
  {
    var frames := Frames(width, height, size, bytes);
    FramesConsume(width, height, size, bytes, k);
    FramesFit(width, height, size, bytes, k + 1);
    NextRow(size, k);
    assert frames[k] == frames[k..][0];
    assert bytes[k * size..][..size] == bytes[k * size..k * size + size];
  }

  /** Where a pixel comes from: pixel (x, y) of frame k is made of the three bytes behind
      the frames, rows and pixels before it, blue first. */
  lemma PixelOfStream(width: nat, height: nat, size: nat, bytes: seq<Byte>, k: nat, x: nat, y: nat, offset: nat)
    requires 0 < size == 3 * (width * height) && k < |Frames(width, height, size, bytes)|
    requires x < width && y < height && offset == k * size + 3 * (y * width + x)
    ensures offset + 2 < |bytes|
    ensures var img := AsImage(Frames(width, height, size, bytes)[k]);
      && img.bounds == Rect(0, 0, width, height)
      && img.at(x, y) == Rgb(bytes[offset + 2], bytes[offset + 1], bytes[offset])
  {
    FrameIsChunk(width, height, size, bytes, k);
    FlatInside(width, height, x, y);
  }
}
