/**
 * The decoder worker's message handler: it takes the bytes the JPEG decoder
 * produced for one request (`readJpeg` is not part of this model, so those
 * bytes are a parameter), skips an 18-byte header and copies every
 * blue-green-red triple that follows into a tightly packed red-green-blue
 * buffer of `size * size * 3` bytes, which it posts back as one message.
 */
module JpegDecoder {

  newtype byte = x: int | 0 <= x < 256

  /** Bytes of header in front of the pixel data. */
  const HEADER_LENGTH: nat := 18

  /**
   * `data[k]` as the handler sees it: reading past the end of the decoded
   * data gives `undefined`, which a `Uint8Array` stores as 0.
   */
  function ByteAt(data: seq<byte>, k: nat): byte {
    if k < |data| then data[k] else 0
  }

  /** The red-green-blue triple written for the blue-green-red triple at offset `j`. */
  function Swapped(data: seq<byte>, j: nat): seq<byte> {
    [ByteAt(data, j + 2), ByteAt(data, j + 1), ByteAt(data, j)]
  }

  /** The first `p` packed pixels: pixel `q` comes from offset `HEADER_LENGTH + 3 * q`. */
  function PackedPrefix(data: seq<byte>, p: nat): seq<byte> {
    if p == 0 then [] else PackedPrefix(data, p - 1) + Swapped(data, HEADER_LENGTH + 3 * (p - 1))
  }

  /** The buffer the handler posts for a request of dimension `size`. */
  function Packed(data: seq<byte>, size: nat): seq<byte> {
    PackedPrefix(data, size * size)
  }

  /**
   * The handler's copy loop. `i` walks the output and `j` the input in
   * lockstep, so `j == i + HEADER_LENGTH` throughout and the loop runs once
   * per pixel; the buffer starts zero-filled like a fresh `ArrayBuffer`.
   */
  method RepackPixels(data: seq<byte>, size: nat) returns (v1: seq<byte>)
    ensures v1 == Packed(data, size)
  {
    ghost var pixels := size * size;
    var n := size * size * 3;
    var buffer := new byte[n];
    var i, j := 0, HEADER_LENGTH;
    ghost var p := 0;
    while i < n && j < n + HEADER_LENGTH
      invariant n == 3 * pixels && buffer.Length == n
      invariant i == 3 * p && 0 <= p <= pixels
      invariant j == i + HEADER_LENGTH
      invariant buffer[..i] == PackedPrefix(data, p)
    {
      ghost var done := buffer[..i];
      buffer[i + 0] := ByteAt(data, j + 2);
      buffer[i + 1] := ByteAt(data, j + 1);
      buffer[i + 2] := ByteAt(data, j + 0);
      assert buffer[..i] == done;
      assert buffer[..i + 3] == done + Swapped(data, j);
      i := i + 3;
      j := j + 3;
      p := p + 1;
    }
    assert buffer[..] == buffer[..i];
    v1 := buffer[..];
  }

  /** The packed buffer holds exactly `size * size * 3` bytes. */
  lemma {:induction false} PackedLength(data: seq<byte>, p: nat)
    ensures |PackedPrefix(data, p)| == 3 * p
  {
    if p > 0 {
      PackedLength(data, p - 1);
    }
  }

  /** Output pixel `q` is input triple `q` after the header, in reverse order. */
  lemma {:induction false} PackedAt(data: seq<byte>, p: nat, q: nat)
    requires q < p
    ensures |PackedPrefix(data, p)| == 3 * p
    ensures PackedPrefix(data, p)[3 * q] == ByteAt(data, HEADER_LENGTH + 3 * q + 2)
    ensures PackedPrefix(data, p)[3 * q + 1] == ByteAt(data, HEADER_LENGTH + 3 * q + 1)
    ensures PackedPrefix(data, p)[3 * q + 2] == ByteAt(data, HEADER_LENGTH + 3 * q)
  {
    PackedLength(data, p);
    PackedLength(data, p - 1);
    if q < p - 1 {
      PackedAt(data, p - 1, q);
    }
  }

  /** Changing the 18 header bytes never changes the packed buffer. */
  lemma {:induction false} HeaderIgnored(h1: seq<byte>, h2: seq<byte>, body: seq<byte>, p: nat)
    requires |h1| == |h2| == HEADER_LENGTH
    ensures PackedPrefix(h1 + body, p) == PackedPrefix(h2 + body, p)
  {
    if p > 0 {
      HeaderIgnored(h1, h2, body, p - 1);
      var j := HEADER_LENGTH + 3 * (p - 1);
      assert forall k: nat :: k >= HEADER_LENGTH ==> ByteAt(h1 + body, k) == ByteAt(h2 + body, k);
      assert Swapped(h1 + body, j) == Swapped(h2 + body, j);
    }
  }

  /** A pixel of the decoded image. */
  datatype Pixel = Pixel(r: byte, g: byte, b: byte)

  /** Pixels laid out blue, green, red, as the decoder produces them. */
  function BgrBytes(ps: seq<Pixel>): (r: seq<byte>)
    ensures |r| == 3 * |ps|
  {
    if ps == [] then [] else BgrBytes(ps[..|ps| - 1]) + [ps[|ps| - 1].b, ps[|ps| - 1].g, ps[|ps| - 1].r]
  }

  /** Pixels laid out red, green, blue, as the texture upload expects them. */
  function RgbBytes(ps: seq<Pixel>): (r: seq<byte>)
    ensures |r| == 3 * |ps|
  {
    if ps == [] then [] else RgbBytes(ps[..|ps| - 1]) + [ps[|ps| - 1].r, ps[|ps| - 1].g, ps[|ps| - 1].b]
  }

  /**
   * For a header followed by an image of `size * size` pixels in
   * blue-green-red order, the handler posts exactly that image in
   * red-green-blue order.
   */
  lemma {:induction false} BgrToRgb(header: seq<byte>, ps: seq<Pixel>, size: nat)
    requires |header| == HEADER_LENGTH && |ps| == size * size
    ensures Packed(header + BgrBytes(ps), size) == RgbBytes(ps)
  {
    PrefixBgrToRgb(header, ps, [], |ps|);
    assert ps[..|ps|] == ps;
    assert header + BgrBytes(ps) + [] == header + BgrBytes(ps);
  }

  lemma {:induction false} PrefixBgrToRgb(header: seq<byte>, ps: seq<Pixel>, more: seq<byte>, p: nat)
    requires |header| == HEADER_LENGTH && p <= |ps|
    ensures PackedPrefix(header + BgrBytes(ps[..p]) + more, p) == RgbBytes(ps[..p])
    decreases p
  {
    if p > 0 {
      var last := ps[p - 1];
      var tail := [last.b, last.g, last.r] + more;
      assert ps[..p][..p - 1] == ps[..p - 1];
      assert header + BgrBytes(ps[..p]) + more == header + BgrBytes(ps[..p - 1]) + tail;
      PrefixBgrToRgb(header, ps, tail, p - 1);
      var d := header + BgrBytes(ps[..p - 1]) + tail;
      var j := HEADER_LENGTH + 3 * (p - 1);
      assert d[j] == last.b && d[j + 1] == last.g && d[j + 2] == last.r;
    }
  }

  /** The worker thread: each request posts exactly one message, the packed buffer. */
  class DecoderWorker {
    var posted: seq<seq<byte>>

    constructor ()
      ensures posted == []
    {
      posted := [];
    }

    /** `onmessage`: `decoded` stands for `readJpeg(event.data.data)` and `size` for `event.data.size`. */
    method OnMessage(decoded: seq<byte>, size: nat)
      modifies this
      ensures posted == old(posted) + [Packed(decoded, size)]
    {
      var v1 := RepackPixels(decoded, size);
      posted := posted + [v1];
    }
  }
}
