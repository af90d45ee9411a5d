/** Length-prefixed frames on the serial line between VMM and guest, over any message codec. */
module Framing {
  import opened Bytes
  import opened Options

  const FRAME_HEADER_SIZE: nat := 2
  const MAX_MESSAGE_SIZE: nat := 2200

  /** A message encoding and its decoder; encoding fails when the message does not fit the fixed buffer. */
  datatype Codec<!M> = Codec(encode: M -> Option<seq<byte>>, decode: seq<byte> -> Option<M>)

  /** The one law the framing relies on. */
  ghost predicate Lawful<M(!new)>(codec: Codec<M>) {
    forall m :: codec.encode(m).Some? ==>
                  |codec.encode(m).value| <= MAX_MESSAGE_SIZE && codec.decode(codec.encode(m).value) == Some(m)
  }

  /** The frame of a message. */
  function EncodeFramed<M>(codec: Codec<M>, m: M): Option<seq<byte>> {
    match codec.encode(m)
    case None => None
    case Some(body) => if |body| >= U16 then None else Some(LE(2, |body|) + body)
  }

  /** Writes a frame to the front of a caller's buffer; None leaves the buffer alone. */
  method EncodeInto<M>(codec: Codec<M>, m: M, buf: array<byte>) returns (r: Option<nat>)
    modifies buf
    ensures r.Some? <==> EncodeFramed(codec, m).Some? && |EncodeFramed(codec, m).value| <= buf.Length
    ensures r.Some? ==> var frame := EncodeFramed(codec, m).value;
                        r.value == |frame| && buf[..] == frame + old(buf[|frame|..])
    ensures r.None? ==> buf[..] == old(buf[..])
  {
    if buf.Length < FRAME_HEADER_SIZE {
      return None;
    }
    var encoded := codec.encode(m);
    if encoded.None? || |encoded.value| >= U16 {
      return None;
    }
    var body := encoded.value;
    var total := FRAME_HEADER_SIZE + |body|;
    if buf.Length < total {
      return None;
    }
    var lenBytes := LE(2, |body|);
    buf[0] := lenBytes[0];
    buf[1] := lenBytes[1];
    for k := 0 to |body|
      invariant buf[..2] == lenBytes
      invariant forall p :: 2 <= p < buf.Length ==> buf[p] == if p < 2 + k then body[p - 2] else old(buf[p])
    {
      buf[2 + k] := body[k];
    }
    assert buf[..] == (lenBytes + body) + old(buf[total..]);
    return Some(total);
  }

  /** The first frame of a buffer and how many bytes it took; None while it is incomplete or undecodable. */
  function DecodeFramed<M>(codec: Codec<M>, buf: seq<byte>): (r: Option<(M, nat)>)
    ensures r.Some? ==> 2 <= r.value.1 <= |buf|
  {
    if |buf| < FRAME_HEADER_SIZE then None else
    var total := FRAME_HEADER_SIZE + GetLE(buf, 0, 2);
    if |buf| < total then None else
    match codec.decode(buf[FRAME_HEADER_SIZE..total])
    case None => None
    case Some(m) => Some((m, total))
  }

  lemma FrameLength(body: seq<byte>, rest: seq<byte>)
    requires |body| < U16
    ensures GetLE(LE(2, |body|) + body + rest, 0, 2) == |body|
  {
    WidthLimits();
    LERoundTrip(2, |body|);
    assert (LE(2, |body|) + body + rest)[0..2] == LE(2, |body|);
  }

  /** A frame decodes to its message and its own length, whatever follows it. */
  lemma FrameRoundTrip<M(!new)>(codec: Codec<M>, m: M, rest: seq<byte>)
    requires Lawful(codec) && EncodeFramed(codec, m).Some?
    ensures var frame := EncodeFramed(codec, m).value; DecodeFramed(codec, frame + rest) == Some((m, |frame|))
  {
    var body := codec.encode(m).value;
    var buf := LE(2, |body|) + body + rest;
    FrameLength(body, rest);
    assert buf[2..2 + |body|] == body;
  }

  /** A frame that has not fully arrived decodes to nothing. */
  lemma PartialFrame<M(!new)>(codec: Codec<M>, m: M, k: nat)
    requires EncodeFramed(codec, m).Some? && k < |EncodeFramed(codec, m).value|
    ensures DecodeFramed(codec, EncodeFramed(codec, m).value[..k]) == None
  {
    if k >= 2 {
      var body := codec.encode(m).value;
      FrameLength(body, []);
      assert (LE(2, |body|) + body)[..k][0..2] == (LE(2, |body|) + body + [])[0..2];
    }
  }

  /** No frame is a proper prefix of another, so a stream splits into frames in one way only. */
  lemma PrefixFree<M(!new)>(codec: Codec<M>, a: M, b: M)
    requires Lawful(codec) && EncodeFramed(codec, a).Some? && EncodeFramed(codec, b).Some?
    requires EncodeFramed(codec, a).value <= EncodeFramed(codec, b).value
    ensures a == b
  {
    var f, g := EncodeFramed(codec, a).value, EncodeFramed(codec, b).value;
    FrameRoundTrip(codec, a, g[|f|..]);
    FrameRoundTrip(codec, b, []);
    assert f + g[|f|..] == g && g + [] == g;
  }

  // ----- streams -----

  predicate Encodable<M>(codec: Codec<M>, ms: seq<M>) {
    forall k :: 0 <= k < |ms| ==> EncodeFramed(codec, ms[k]).Some?
  }

  function Stream<M>(codec: Codec<M>, ms: seq<M>): seq<byte>
    requires Encodable(codec, ms)
  {
    if ms == [] then [] else EncodeFramed(codec, ms[0]).value + Stream(codec, ms[1..])
  }

  /** Decodes frame after frame; the rest is what remains when no further frame can be taken. */
  function DecodeStream<M>(codec: Codec<M>, buf: seq<byte>): (r: (seq<M>, seq<byte>))
    decreases |buf|
  {
    match DecodeFramed(codec, buf)
    case None => ([], buf)
    case Some((m, n)) =>
      var (ms, rest) := DecodeStream(codec, buf[n..]);
      ([m] + ms, rest)
  }

  /** Whatever is sent is received: a stream of frames, cut anywhere inside the next frame, decodes to what was sent. */
  lemma {:induction false} StreamRoundTrip<M(!new)>(codec: Codec<M>, ms: seq<M>, tail: seq<byte>)
    requires Lawful(codec) && Encodable(codec, ms) && DecodeFramed(codec, tail) == None
    ensures DecodeStream(codec, Stream(codec, ms) + tail) == (ms, tail)
  {
    if ms == [] {
      assert Stream(codec, ms) + tail == tail;
    } else {
      var frame := EncodeFramed(codec, ms[0]).value;
      var rest := Stream(codec, ms[1..]) + tail;
      assert Stream(codec, ms) + tail == frame + rest;
      FrameRoundTrip(codec, ms[0], rest);
      assert (frame + rest)[|frame|..] == rest;
      StreamRoundTrip(codec, ms[1..], tail);
      assert [ms[0]] + ms[1..] == ms;
    }
  }

  /** A frame, byte by byte: the low byte of the length, its high byte, then the message. */
  lemma FrameBytes<M>(codec: Codec<M>, m: M)
    requires EncodeFramed(codec, m).Some?
    ensures var frame, body := EncodeFramed(codec, m).value, codec.encode(m).value;
            && |frame| == 2 + |body| && frame[0] == |body| % 256 && frame[1] == |body| / 256 && frame[2..] == body
  {
    var n := |codec.encode(m).value|;
    assert LE(1, n / 256) == [n / 256 % 256] + LE(0, n / 256 / 256);
    assert LE(2, n) == [n % 256] + LE(1, n / 256);
  }
}
