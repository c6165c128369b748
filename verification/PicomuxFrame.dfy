/** The picomux frame: an eight-byte header followed by a body, and its wire format. */
module PicomuxFrame {
  import opened Common

  type StreamId = u32

  const CMD_SYN: byte := 0
  const CMD_FIN: byte := 1
  const CMD_PSH: byte := 2
  const CMD_NOP: byte := 3
  const CMD_MORE: byte := 4
  const CMD_PING: byte := 0xa0
  const CMD_PONG: byte := 0xa1

  const HEADER_SIZE := 8

  datatype Header = Header(version: byte, command: byte, bodyLen: u16, streamId: StreamId)

  datatype Frame = Frame(header: Header, body: seq<byte>)

  /** `Frame::new`: the body length is cast to 16 bits. */
  function NewFrame(streamId: StreamId, command: byte, body: seq<byte>): Frame {
    Frame(Header(1, command, |body| % 0x1_0000, streamId), body)
  }

  predicate WellFormed(f: Frame) {
    f.header.bodyLen == |f.body|
  }

  function HeaderBytes(h: Header): (s: seq<byte>)
    ensures |s| == HEADER_SIZE
  {
    [h.version, h.command] + LittleEndian(h.bodyLen, 2) + LittleEndian(h.streamId, 4)
  }

  function ParseHeader(s: seq<byte>): Header
    requires |s| == HEADER_SIZE
  {
    PowerValues();
    Header(s[0], s[1], FromLittleEndian(s[2..4]), FromLittleEndian(s[4..8]))
  }

  function Encode(f: Frame): (s: seq<byte>)
    ensures |s| == HEADER_SIZE + |f.body|
  {
    HeaderBytes(f.header) + f.body
  }

  /** `Frame::read` on the bytes available so far; `None` while `read_exact` is still waiting. */
  function ReadFrame(s: seq<byte>): (r: Option<(Frame, seq<byte>)>)
    ensures r.Some? ==> |r.value.1| < |s|
  {
    if |s| < HEADER_SIZE then
      None
    else
      var h := ParseHeader(s[..HEADER_SIZE]);
      var rest := s[HEADER_SIZE..];
      if |rest| < h.bodyLen then None else Some((Frame(h, rest[..h.bodyLen]), rest[h.bodyLen..]))
  }

  lemma HeaderRoundTrip(h: Header)
    ensures ParseHeader(HeaderBytes(h)) == h
  {
    var s := HeaderBytes(h);
    PowerValues();
    assert s[2..4] == LittleEndian(h.bodyLen, 2);
    assert s[4..8] == LittleEndian(h.streamId, 4);
    LittleEndianRoundTrip(h.bodyLen, 2);
    LittleEndianRoundTrip(h.streamId, 4);
  }

  /**
   The wire format, byte by byte: version, command, body length and stream id, the two numbers
   with their low bytes first, and then the body.
   */
  lemma FrameLayout(f: Frame)
    ensures var s := Encode(f);
            && |s| == 8 + |f.body|
            && s[0] == f.header.version && s[1] == f.header.command
            && s[2] as int + 0x100 * s[3] as int == f.header.bodyLen
            && s[4] as int + 0x100 * s[5] as int + 0x1_0000 * s[6] as int + 0x100_0000 * s[7] as int
               == f.header.streamId
            && s[8..] == f.body
  {
    var s, h := Encode(f), f.header;
    HeaderRoundTrip(h);
    assert s[..8] == HeaderBytes(h);
    var len, id := LittleEndian(h.bodyLen, 2), LittleEndian(h.streamId, 4);
    assert s[..8][2..4] == len == [s[2], s[3]];
    assert s[..8][4..8] == id == [s[4], s[5], s[6], s[7]];
    LittleEndianValues(s[2], s[3], 0, 0);
    LittleEndianValues(s[4], s[5], s[6], s[7]);
  }

  /** What the constructors put in the header: version one and the length modulo 65536. */
  lemma NewFrameHeader(streamId: StreamId, command: byte, body: seq<byte>)
    ensures var f := NewFrame(streamId, command, body);
            && f.body == body
            && f.header.version == 1 && f.header.command == command && f.header.streamId == streamId
            && exists k: nat :: f.header.bodyLen + 65536 * k == |body|
  {
    assert |body| % 0x1_0000 + 65536 * (|body| / 65536) == |body|;
  }

  /** Reading an encoded frame gives it back and stops exactly at its end. */
  lemma FrameRoundTrip(f: Frame, rest: seq<byte>)
    requires WellFormed(f)
    ensures ReadFrame(Encode(f) + rest) == Some((f, rest))
  {
    var s := Encode(f) + rest;
    assert s[..HEADER_SIZE] == HeaderBytes(f.header);
    HeaderRoundTrip(f.header);
    assert s[HEADER_SIZE..] == f.body + rest;
  }

  /** The format is unambiguous: whatever was read is the only frame those bytes encode. */
  lemma FrameReadIsExact(s: seq<byte>)
    requires ReadFrame(s).Some?
    ensures var (f, rest) := ReadFrame(s).value; WellFormed(f) && Encode(f) + rest == s
  {
    var (f, rest) := ReadFrame(s).value;
    var head := s[..HEADER_SIZE];
    LittleEndianOnto(head[2..4]);
    LittleEndianOnto(head[4..8]);
    assert HeaderBytes(f.header) == head;
  }

  /**
   A frame made by `NewFrame` survives the wire for every continuation exactly when its body
   is shorter than 65536 bytes; a longer SYN metadata is cut at the wrong place.
   */
  lemma NewFrameRoundTrip(streamId: StreamId, command: byte, body: seq<byte>)
    ensures (forall rest: seq<byte> ::
               var f := NewFrame(streamId, command, body);
               ReadFrame(Encode(f) + rest) == Some((f, rest)))
            <==> |body| < 0x1_0000
  {
    var f := NewFrame(streamId, command, body);
    if |body| < 0x1_0000 {
      forall rest: seq<byte>
        ensures ReadFrame(Encode(f) + rest) == Some((f, rest))
      {
        FrameRoundTrip(f, rest);
      }
    } else {
      var none: seq<byte> := [];
      var r := ReadFrame(Encode(f) + none);
      if r == Some((f, none)) {
        FrameReadIsExact(Encode(f) + none);
        assert false;
      }
    }
  }

  // ----- a whole connection

  function EncodeAll(fs: seq<Frame>): seq<byte> {
    if fs == [] then [] else Encode(fs[0]) + EncodeAll(fs[1..])
  }

  /** The frames the read loop has produced from the bytes received so far, and what is left over. */
  function ReadAll(s: seq<byte>): (seq<Frame>, seq<byte>)
    decreases |s|
  {
    match ReadFrame(s)
    case None => ([], s)
    case Some((f, rest)) => var (fs, left) := ReadAll(rest); ([f] + fs, left)
  }

  lemma {:induction false} EncodeAllAppend(a: seq<Frame>, b: seq<Frame>)
    ensures EncodeAll(a + b) == EncodeAll(a) + EncodeAll(b)
  {
    if a == [] {
      assert a + b == b;
    } else {
      assert (a + b)[1..] == a[1..] + b;
      EncodeAllAppend(a[1..], b);
    }
  }

  /** More bytes never change a frame that has already been read. */
  lemma ReadFrameExtends(a: seq<byte>, b: seq<byte>)
    requires ReadFrame(a).Some?
    ensures ReadFrame(a + b) == Some((ReadFrame(a).value.0, ReadFrame(a).value.1 + b))
  {
    FrameReadIsExact(a);
    var (f, rest) := ReadFrame(a).value;
    assert a + b == Encode(f) + (rest + b);
    FrameRoundTrip(f, rest + b);
  }

  /** Reading is incremental: bytes received later are read from the leftover of earlier ones. */
  lemma {:induction false} ReadAllIncremental(a: seq<byte>, b: seq<byte>)
    ensures ReadAll(a + b) ==
            (ReadAll(a).0 + ReadAll(ReadAll(a).1 + b).0, ReadAll(ReadAll(a).1 + b).1)
    decreases |a|
  {
    hide ReadFrame;
    if ReadFrame(a).Some? {
      var (f, rest) := ReadFrame(a).value;
      ReadFrameExtends(a, b);
      ReadAllIncremental(rest, b);
      assert [f] + (ReadAll(rest).0 + ReadAll(ReadAll(rest).1 + b).0)
          == ([f] + ReadAll(rest).0) + ReadAll(ReadAll(rest).1 + b).0;
    } else {
      assert [] + ReadAll(a + b).0 == ReadAll(a + b).0;
    }
  }

  /** A frame is not read before its last byte has arrived. */
  lemma PartialFrameWaits(f: Frame, arrived: nat)
    requires WellFormed(f) && arrived < |Encode(f)|
    ensures ReadFrame(Encode(f)[..arrived]).None?
  {
    var s, missing := Encode(f)[..arrived], Encode(f)[arrived..];
    if ReadFrame(s).Some? {
      ReadFrameExtends(s, missing);
      assert s + missing == Encode(f) + [];
      FrameRoundTrip(f, []);
      assert false;
    }
  }

  lemma ReadAllCons(f: Frame, rest: seq<byte>)
    requires WellFormed(f)
    ensures ReadAll(Encode(f) + rest) == ([f] + ReadAll(rest).0, ReadAll(rest).1)
  {
    FrameRoundTrip(f, rest);
  }

  /**
   The byte pipe is a queue of frames: however many bytes of the encoding of `fs` have
   arrived, the frames read from them are a prefix of `fs`, and all of `fs` once all have.
   */
  lemma {:induction false} WireIsFrameQueue(fs: seq<Frame>, arrived: nat)
    requires forall f :: f in fs ==> WellFormed(f)
    requires arrived <= |EncodeAll(fs)|
    ensures ReadAll(EncodeAll(fs)[..arrived]).0 <= fs
    ensures arrived == |EncodeAll(fs)| ==> ReadAll(EncodeAll(fs)[..arrived]) == (fs, [])
  {
    hide ReadFrame, Encode;
    if fs == [] {
      assert EncodeAll(fs)[..arrived] == [];
    } else {
      var size := |Encode(fs[0])|;
      if arrived < size {
        assert EncodeAll(fs)[..arrived] == Encode(fs[0])[..arrived];
        PartialFrameWaits(fs[0], arrived);
      } else {
        var tail := EncodeAll(fs[1..])[..arrived - size];
        assert EncodeAll(fs)[..arrived] == Encode(fs[0]) + tail;
        ReadAllCons(fs[0], tail);
        WireIsFrameQueue(fs[1..], arrived - size);
        assert fs == [fs[0]] + fs[1..];
      }
    }
  }

  /** `Frame::bytes`: a zeroed buffer filled in two pieces. */
  method ToBytes(f: Frame) returns (buf: array<byte>)
    ensures fresh(buf)
    ensures buf[..] == Encode(f)
  {
    buf := new byte[|f.body| + HEADER_SIZE];
    var head := HeaderBytes(f.header);
    forall i | 0 <= i < HEADER_SIZE {
      buf[i] := head[i];
    }
    forall i | 0 <= i < |f.body| {
      buf[HEADER_SIZE + i] := f.body[i];
    }
    assert buf[..HEADER_SIZE] == head;
    assert buf[HEADER_SIZE..] == f.body;
    assert buf[..] == buf[..HEADER_SIZE] + buf[HEADER_SIZE..];
  }
}
