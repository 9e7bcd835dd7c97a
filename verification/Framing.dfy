/** Reassembly of frames from a TCP byte stream, and what each complete frame leads to. */
module Framing {
  import opened Bytes
  import opened Payloads
  import opened Codec

  const HEADER_SIZE: nat := 16
  const MAX_FRAME_BUF_SIZE: nat := 4 * 1024 * 1024
  const LASER_DATA: u16 := 0x8001
  const VIBRATION_DATA: u16 := 0x8002

  function Length(low: int, high: int): int {
    low + 256 * high
  }

  /** The length field the session looks at: bytes 12 and 13. */
  function FrameTotal(buf: seq<byte>): (n: nat)
    requires |buf| >= HEADER_SIZE
    ensures HEADER_SIZE <= n <= HEADER_SIZE + 65535
  {
    HEADER_SIZE + Length(buf[12], buf[13])
  }

  predicate HasFrame(buf: seq<byte>) {
    |buf| >= HEADER_SIZE && FrameTotal(buf) <= |buf|
  }

  datatype Cutting = Cutting(frames: seq<seq<byte>>, rest: seq<byte>)

  /** All complete frames at the front of a buffer, and what is left. */
  function Cut(buf: seq<byte>): Cutting
    decreases |buf|
  {
    if HasFrame(buf) then
      var n := FrameTotal(buf);
      var c := Cut(buf[n..]);
      Cutting([buf[..n]] + c.frames, c.rest)
    else Cutting([], buf)
  }

  function Join(frames: seq<seq<byte>>): seq<byte> {
    if frames == [] then [] else frames[0] + Join(frames[1..])
  }

  ghost predicate SelfSized(frame: seq<byte>) {
    |frame| >= HEADER_SIZE && FrameTotal(frame) == |frame|
  }

  /** Cutting loses and invents nothing, every frame has the length it announces, and the
      leftover is shorter than the longest frame. */
  lemma {:induction false} CutPartitions(buf: seq<byte>)
    ensures var c := Cut(buf);
      && Join(c.frames) + c.rest == buf
      && !HasFrame(c.rest) && |c.rest| < HEADER_SIZE + 65535
      && forall i :: 0 <= i < |c.frames| ==> SelfSized(c.frames[i])
  {
    CutJoins(buf);
    CutFramesSized(buf);
  }

  lemma JoinCons(frame: seq<byte>, frames: seq<seq<byte>>)
    ensures Join([frame] + frames) == frame + Join(frames)
  {
    assert ([frame] + frames)[1..] == frames;
  }

  lemma AppendThrice(a: seq<byte>, b: seq<byte>, c: seq<byte>)
    ensures a + b + c == a + (b + c)
  {
  }

  lemma {:induction false} CutJoins(buf: seq<byte>)
    ensures Join(Cut(buf).frames) + Cut(buf).rest == buf
    decreases |buf|
  {
    CutHere(buf);
    hide *;
    if HasFrame(buf) {
      var n := FrameTotal(buf);
      var c := Cut(buf[n..]);
      CutJoins(buf[n..]);
      JoinCons(buf[..n], c.frames);
      AppendThrice(buf[..n], Join(c.frames), c.rest);
      assert buf[..n] + buf[n..] == buf;
    }
  }

  /** One pass of the cutting loop. */
  lemma CutHere(buf: seq<byte>)
    ensures HasFrame(buf) ==>
      var n := FrameTotal(buf);
      0 < n <= |buf| && Cut(buf) == Cutting([buf[..n]] + Cut(buf[n..]).frames, Cut(buf[n..]).rest)
    ensures !HasFrame(buf) ==> Join(Cut(buf).frames) + Cut(buf).rest == buf
  {
    if !HasFrame(buf) { assert [] + buf == buf; }
  }

  lemma {:induction false} CutFramesSized(buf: seq<byte>)
    ensures !HasFrame(Cut(buf).rest)
    ensures forall i :: 0 <= i < |Cut(buf).frames| ==> SelfSized(Cut(buf).frames[i])
    decreases |buf|
  {
    if HasFrame(buf) {
      CutFramesSized(buf[FrameTotal(buf)..]);
    }
  }

  /** Cutting may be done piecemeal: what is left over waits for what comes next. */
  lemma {:induction false} CutAppend(a: seq<byte>, b: seq<byte>)
    ensures Cut(a + b) == Cutting(Cut(a).frames + Cut(Cut(a).rest + b).frames, Cut(Cut(a).rest + b).rest)
    decreases |a|
  {
    if HasFrame(a) {
      var n := FrameTotal(a);
      assert FrameTotal(a + b) == n && (a + b)[..n] == a[..n] && (a + b)[n..] == a[n..] + b;
      CutAppend(a[n..], b);
      var first, later := Cut(a[n..]).frames, Cut(Cut(a[n..]).rest + b).frames;
      assert ([a[..n]] + first) + later == [a[..n]] + (first + later);
    } else {
      assert [] + Cut(a + b).frames == Cut(a + b).frames;
    }
  }

  /** There is only one way to cut a buffer into frames that announce their own length. */
  lemma {:induction false} CutUnique(frames: seq<seq<byte>>, rest: seq<byte>)
    requires !HasFrame(rest)
    requires forall i :: 0 <= i < |frames| ==> SelfSized(frames[i])
    ensures Cut(Join(frames) + rest) == Cutting(frames, rest)
    decreases |frames|
  {
    if frames == [] {
      assert Join(frames) + rest == rest;
    } else {
      var f, tail := frames[0], Join(frames[1..]) + rest;
      var buf := Join(frames) + rest;
      assert buf == f + tail;
      assert FrameTotal(buf) == |f| && buf[..|f|] == f && buf[|f|..] == tail;
      CutUnique(frames[1..], rest);
      assert [f] + frames[1..] == frames;
    }
  }

  // ----- What a frame leads to

  datatype Packet = Packet(frameId: u16, payload: seq<byte>)

  /** The frame parser: it takes the payload length from byte 18 and the payload from byte 20. */
  function Parse(data: seq<byte>): Result<Packet> {
    if |data| < HEADER_SIZE then Err(TooSmall)
    else
      var frameId :- ReadU16(data, 0);
      var status :- ReadU16(data, 16);
      var length :- ReadU16(data, 18);
      var offset := HEADER_SIZE + 4;
      if |data| >= offset + length then Ok(Packet(frameId, data[offset..offset + length]))
      else Err(Incomplete)
  }

  datatype Event =
    | LaserDelivered(packet: Packet, laser: Laser)
    | VibrationDelivered(packet: Packet, vibration: Vibration)
    | Acknowledged(cycleCounter: u32)
    | Discarded(error: Error)

  /** The callbacks and the acknowledgement for one complete frame; any failure discards the frame. */
  function Handle(frame: seq<byte>, jsonOk: seq<byte> -> bool): seq<Event> {
    match Parse(frame)
    case Err(e) => [Discarded(e)]
    case Ok(packet) =>
      if packet.frameId == LASER_DATA then
        match DecodeLaser(packet.payload, jsonOk)
        case Err(e) => [Discarded(e)]
        case Ok(l) => [LaserDelivered(packet, l.0)] + Acknowledge(frame)
      else if packet.frameId == VIBRATION_DATA then
        match DecodeVibration(packet.payload, jsonOk)
        case Err(e) => [Discarded(e)]
        case Ok(v) => [VibrationDelivered(packet, v.0)] + Acknowledge(frame)
      else Acknowledge(frame)
  }

  function Acknowledge(frame: seq<byte>): seq<Event> {
    match ReadU32(frame, 4)
    case Ok(c) => [Acknowledged(c)]
    case Err(e) => [Discarded(e)]
  }

  function HandleAll(frames: seq<seq<byte>>, jsonOk: seq<byte> -> bool): seq<Event> {
    if frames == [] then []
    else HandleAll(frames[..|frames| - 1], jsonOk) + Handle(frames[|frames| - 1], jsonOk)
  }

  lemma {:induction false} HandleAppend(a: seq<seq<byte>>, b: seq<seq<byte>>, jsonOk: seq<byte> -> bool)
    ensures HandleAll(a + b, jsonOk) == HandleAll(a, jsonOk) + HandleAll(b, jsonOk)
    decreases |b|
  {
    hide Handle;
    if b == [] {
      assert a + b == a;
      assert HandleAll(a, jsonOk) + [] == HandleAll(a, jsonOk);
    } else {
      HandleAppend(a, b[..|b| - 1], jsonOk);
      assert (a + b)[..|a + b| - 1] == a + b[..|b| - 1];
    }
  }

  lemma HandleOneMore(frames: seq<seq<byte>>, frame: seq<byte>, jsonOk: seq<byte> -> bool)
    ensures HandleAll(frames + [frame], jsonOk) == HandleAll(frames, jsonOk) + Handle(frame, jsonOk)
  {
    assert (frames + [frame])[..|frames|] == frames;
  }

  lemma CutStep(buf: seq<byte>, frames: seq<seq<byte>>)
    requires HasFrame(buf)
    ensures var n := FrameTotal(buf);
      && frames + [buf[..n]] + Cut(buf[n..]).frames == frames + Cut(buf).frames
      && Cut(buf[n..]).rest == Cut(buf).rest
  {
    var n := FrameTotal(buf);
    assert Cut(buf).frames == [buf[..n]] + Cut(buf[n..]).frames;
    assert frames + [buf[..n]] + Cut(buf[n..]).frames == frames + ([buf[..n]] + Cut(buf[n..]).frames);
  }

  /** One connection: the buffer of bytes not yet cut, and the events so far. */
  class TcpSession {
    var frameBuf: seq<byte>
    var events: seq<Event>
    var resets: nat
    const jsonOk: seq<byte> -> bool

    constructor (jsonOk: seq<byte> -> bool)
      ensures frameBuf == [] && events == [] && resets == 0 && this.jsonOk == jsonOk
    {
      this.jsonOk := jsonOk;
      frameBuf, events, resets := [], [], 0;
    }

    /** A frame is handled and erased whether or not its parse fails. The overflow check at the
        end can never fire, because less than one frame is ever left over. */
    method TryParseFrames()
      modifies this
      ensures frameBuf == Cut(old(frameBuf)).rest
      ensures events == old(events) + HandleAll(Cut(old(frameBuf)).frames, jsonOk)
      ensures resets == old(resets)
    {
      hide Handle;
      ghost var start, frames: seq<seq<byte>> := frameBuf, [];
      assert frames + Cut(frameBuf).frames == Cut(frameBuf).frames;
      while HasFrame(frameBuf)
        invariant frames + Cut(frameBuf).frames == Cut(start).frames
        invariant Cut(frameBuf).rest == Cut(start).rest
        invariant events == old(events) + HandleAll(frames, jsonOk) && resets == old(resets)
        decreases |frameBuf|
      {
        ghost var buf := frameBuf;
        ghost var n := FrameTotal(buf);
        CutOneFrame();
        CutStep(buf, frames);
        HandleOneMore(frames, buf[..n], jsonOk);
        frames := frames + [buf[..n]];
      }
      CutPartitions(frameBuf);
      assert frames == Cut(start).frames;
      ResetOnOverflow();
    }

    /** One turn of the loop: the frame is copied out, handled, and erased from the front. */
    method CutOneFrame()
      requires HasFrame(frameBuf)
      modifies this
      ensures frameBuf == old(frameBuf)[FrameTotal(old(frameBuf))..]
      ensures events == old(events) + Handle(old(frameBuf)[..FrameTotal(old(frameBuf))], jsonOk)
      ensures resets == old(resets)
    {
      var total := FrameTotal(frameBuf);
      var outcome := HandleFrame(frameBuf[..total], jsonOk);
      events := events + outcome;
      frameBuf := frameBuf[total..];
    }

    method ResetOnOverflow()
      modifies this
      ensures events == old(events)
      ensures if old(|frameBuf|) > 4 * 1024 * 1024 then frameBuf == [] && resets == old(resets) + 1
        else frameBuf == old(frameBuf) && resets == old(resets)
    {
      if |frameBuf| > MAX_FRAME_BUF_SIZE {
        frameBuf := [];
        resets := resets + 1;
      }
    }

    /** A completed read of some bytes. */
    method OnRead(bytes: seq<byte>)
      modifies this
      ensures var c := Cut(old(frameBuf) + bytes);
        frameBuf == c.rest && events == old(events) + HandleAll(c.frames, jsonOk) && resets == old(resets)
    {
      frameBuf := frameBuf + bytes;
      TryParseFrames();
    }
  }

  method HandleFrame(frame: seq<byte>, jsonOk: seq<byte> -> bool) returns (events: seq<Event>)
    ensures events == Handle(frame, jsonOk)
  {
    var packet := Parse(frame);
    if packet.Err? {
      return [Discarded(packet.error)];
    }
    events := [];
    if packet.value.frameId == LASER_DATA {
      var laser := ParseLaserData(packet.value.payload, jsonOk);
      if laser.Err? {
        return [Discarded(laser.error)];
      }
      events := [LaserDelivered(packet.value, laser.value.0)];
    } else if packet.value.frameId == VIBRATION_DATA {
      var vibration := ParseVibrationData(packet.value.payload, jsonOk);
      if vibration.Err? {
        return [Discarded(vibration.error)];
      }
      events := [VibrationDelivered(packet.value, vibration.value.0)];
    }
    events := events + Acknowledge(frame);
  }

  function Concat(chunks: seq<seq<byte>>): seq<byte> {
    if chunks == [] then [] else Concat(chunks[..|chunks| - 1]) + chunks[|chunks| - 1]
  }

  /** A whole session: however the stream is split into reads, the events and the leftover
      bytes are those of a single read of the whole stream, and the buffer is never reset. */
  method RunSession(session: TcpSession, chunks: seq<seq<byte>>)
    requires session.frameBuf == [] && session.events == [] && session.resets == 0
    modifies session
    ensures session.frameBuf == Cut(Concat(chunks)).rest
    ensures session.events == HandleAll(Cut(Concat(chunks)).frames, session.jsonOk)
    ensures session.resets == 0 && |session.frameBuf| < HEADER_SIZE + 65535
    ensures Join(Cut(Concat(chunks)).frames) + session.frameBuf == Concat(chunks)
  {
    var i := 0;
    while i < |chunks|
      invariant i <= |chunks| && session.resets == 0
      invariant session.frameBuf == Cut(Concat(chunks[..i])).rest
      invariant session.events == HandleAll(Cut(Concat(chunks[..i])).frames, session.jsonOk)
    {
      ghost var before, stream := session.frameBuf, Concat(chunks[..i]);
      session.OnRead(chunks[i]);
      assert chunks[..i + 1][..i] == chunks[..i];
      CutAppend(stream, chunks[i]);
      HandleAppend(Cut(stream).frames, Cut(before + chunks[i]).frames, session.jsonOk);
      i := i + 1;
    }
    assert chunks[..|chunks|] == chunks;
    CutPartitions(Concat(chunks));
  }

  /** The outcome of a session as a function of its reads, one read after the other. */
  function Reassemble(chunks: seq<seq<byte>>): Cutting {
    if chunks == [] then Cutting([], [])
    else
      var before := Reassemble(chunks[..|chunks| - 1]);
      var c := Cut(before.rest + chunks[|chunks| - 1]);
      Cutting(before.frames + c.frames, c.rest)
  }

  lemma {:induction false} ReassembleIsCut(chunks: seq<seq<byte>>)
    ensures Reassemble(chunks) == Cut(Concat(chunks))
  {
    if chunks != [] {
      ReassembleIsCut(chunks[..|chunks| - 1]);
      CutAppend(Concat(chunks[..|chunks| - 1]), chunks[|chunks| - 1]);
    }
  }

  /** Any two ways of splitting the same stream give the same frames and the same leftover. */
  lemma ChunkingIrrelevant(chunks: seq<seq<byte>>, chunks': seq<seq<byte>>)
    requires Concat(chunks) == Concat(chunks')
    ensures Reassemble(chunks) == Reassemble(chunks')
    ensures Join(Reassemble(chunks).frames) + Reassemble(chunks).rest == Concat(chunks)
  {
    ReassembleIsCut(chunks);
    ReassembleIsCut(chunks');
    CutPartitions(Concat(chunks));
  }

  // ----- Where sender and receiver disagree

  /** The packet as the sensor side builds it, with a 24-byte header. */
  function BuildPacket(frameId: u16, cycle: u32, timestamp: u64, payload: seq<byte>): (p: seq<byte>)
    ensures |p| == 24 + |payload|
  {
    ToLE(frameId, 2) + [1, 1] + ToLE(cycle, 4) + ToLE(timestamp, 8) + ToLE(1, 2) +
    ToLE(|payload| % 0x1_0000, 2) + [0, 0, 0, 0] + payload
  }

  lemma ToLE8Bytes(v: nat)
    ensures ToLE(v, 8)[4] == v / 0x1_0000_0000 % 256 && ToLE(v, 8)[5] == v / 0x1_0000_0000 / 256 % 256
  {
    ByteOfLE(v, 8, 4);
    ByteOfLE(v, 8, 5);
    var a := v / 256 / 256 / 256;
    assert ShiftBytes(v, 4) == ShiftBytes(v / 256, 3) == ShiftBytes(v / 256 / 256, 2) == ShiftBytes(a, 1);
    assert ShiftBytes(v, 5) == ShiftBytes(v / 256, 4) == ShiftBytes(v / 256 / 256, 3) == ShiftBytes(a, 2);
    assert ShiftBytes(a, 2) == ShiftBytes(a / 256, 1) == ShiftBytes(a / 256 / 256, 0);
    assert ShiftBytes(a, 1) == a / 256 && ShiftBytes(a, 2) == a / 256 / 256;
    TwoBytesOff(v);
    TwoBytesOff(v / 0x1_0000);
    assert v / 0x1_0000 / 0x1_0000 == v / 0x1_0000_0000;
  }

  lemma TwoBytesOff(v: nat)
    ensures v / 256 / 256 == v / 0x1_0000
  {
  }

  /** The session reads its length out of the timestamp (bits 32 to 47), so a packet on its own is
      cut off as one frame exactly when those bits happen to equal the payload length plus 8. */
  lemma PacketIsOneFrameExactly(frameId: u16, cycle: u32, timestamp: u64, payload: seq<byte>)
    ensures var p := BuildPacket(frameId, cycle, timestamp, payload);
      Cut(p) == Cutting([p], []) <==> timestamp / 0x1_0000_0000 % 0x1_0000 == |payload| + 8
  {
    var p := BuildPacket(frameId, cycle, timestamp, payload);
    PacketLengthField(frameId, cycle, timestamp, payload);
    OneFrameExactly(p);
  }

  lemma PacketLengthField(frameId: u16, cycle: u32, timestamp: u64, payload: seq<byte>)
    ensures FrameTotal(BuildPacket(frameId, cycle, timestamp, payload)) ==
      HEADER_SIZE + timestamp / 0x1_0000_0000 % 0x1_0000
  {
    hide ToLE;
    var p := BuildPacket(frameId, cycle, timestamp, payload);
    var t := ToLE(timestamp, 8);
    assert p[12] == t[4] && p[13] == t[5];
    ToLE8Bytes(timestamp);
    TwoBytes(timestamp / 0x1_0000_0000);
  }

  lemma TwoBytes(v: nat)
    ensures v % 256 + 256 * (v / 256 % 256) == v % 0x1_0000
  {
    TwoBytesOff(v);
    var q, high := v / 256, v / 0x1_0000;
    assert v == 256 * q + v % 256 && q == 256 * high + q % 256;
    assert v == 0x1_0000 * high + v % 0x1_0000;
  }

  lemma OneFrameExactly(p: seq<byte>)
    requires |p| >= HEADER_SIZE
    ensures Cut(p) == Cutting([p], []) <==> FrameTotal(p) == |p|
  {
    hide FrameTotal;
    if FrameTotal(p) == |p| {
      assert p[..|p|] == p && p[|p|..] == [];
      assert Cut([]) == Cutting([], []);
      assert [p] + [] == [p];
    } else if HasFrame(p) {
      assert Cut(p).frames[0] == p[..FrameTotal(p)];
      assert |Cut(p).frames[0]| != |p|;
    }
  }

  lemma PacketFields(frameId: u16, cycle: u32, timestamp: u64, payload: seq<byte>)
    ensures var p := BuildPacket(frameId, cycle, timestamp, payload);
      && ReadU16(p, 0) == Ok(frameId) && ReadU16(p, 16).Ok?
      && ReadU16(p, 18) == Ok(|payload| % 0x1_0000)
      && p[20..] == [0, 0, 0, 0] + payload
  {
    var p := BuildPacket(frameId, cycle, timestamp, payload);
    Pow256Values();
    assert p[0..2] == ToLE(frameId, 2);
    assert p[18..20] == ToLE(|payload| % 0x1_0000, 2);
    FromToLE(frameId, 2);
    FromToLE(|payload| % 0x1_0000, 2);
  }

  /** The parser looks for the payload four bytes before the sensor side puts it, and knows its length
      up to 65535 only: of any packet it passes on that many bytes of four zero bytes and the payload. */
  lemma ParsedPayloadIsShifted(frameId: u16, cycle: u32, timestamp: u64, payload: seq<byte>)
    ensures Parse(BuildPacket(frameId, cycle, timestamp, payload)) ==
      Ok(Packet(frameId, ([0, 0, 0, 0] + payload)[..|payload| % 0x1_0000]))
  {
    var p := BuildPacket(frameId, cycle, timestamp, payload);
    var n := |payload| % 0x1_0000;
    PacketFields(frameId, cycle, timestamp, payload);
    hide BuildPacket;
    assert n <= |payload|;
    assert p[20..20 + n] == p[20..][..n];
  }

  predicate AllZero(b: seq<byte>) {
    forall i :: 0 <= i < |b| ==> b[i] == 0
  }

  /** A byte string is its own shift by four zeros exactly when it is zero throughout. */
  lemma ShiftKeepsExactly(b: seq<byte>)
    ensures ([0, 0, 0, 0] + b)[..|b|] == b <==> AllZero(b)
  {
    var shifted := ([0, 0, 0, 0] + b)[..|b|];
    if shifted == b {
      forall i | 0 <= i < |b| ensures b[i] == 0 {
        ShiftedByteZero(b, i);
      }
    }
  }

  lemma {:induction false} ShiftedByteZero(b: seq<byte>, i: nat)
    requires i < |b| && ([0, 0, 0, 0] + b)[..|b|] == b
    ensures b[i] == 0
    decreases i
  {
    assert b[i] == ([0, 0, 0, 0] + b)[..|b|][i] == ([0, 0, 0, 0] + b)[i];
    if i >= 4 {
      assert ([0, 0, 0, 0] + b)[i] == b[i - 4];
      ShiftedByteZero(b, i - 4);
    }
  }

  /** The parser hands on the payload that the sensor side sent exactly when the payload fits the
      length field and consists of zeros. */
  lemma ParsedIntactExactly(frameId: u16, cycle: u32, timestamp: u64, payload: seq<byte>)
    ensures Parse(BuildPacket(frameId, cycle, timestamp, payload)) == Ok(Packet(frameId, payload)) <==>
      |payload| < 0x1_0000 && AllZero(payload)
  {
    ParsedPayloadIsShifted(frameId, cycle, timestamp, payload);
    hide BuildPacket, Parse, AllZero;
    var n := |payload| % 0x1_0000;
    assert |([0, 0, 0, 0] + payload)[..n]| == n;
    ShiftKeepsExactly(payload);
  }

  /** A packet sent on its own is cut as one frame and its payload handed on as sent exactly when the
      payload is zero throughout and bits 32 to 47 of the timestamp are its length plus 8. */
  lemma ReceivedAsSentExactly(frameId: u16, cycle: u32, timestamp: u64, payload: seq<byte>)
    ensures var p := BuildPacket(frameId, cycle, timestamp, payload);
      Cut(p) == Cutting([p], []) && Parse(p) == Ok(Packet(frameId, payload)) <==>
        timestamp / 0x1_0000_0000 % 0x1_0000 == |payload| + 8 && AllZero(payload)
  {
    PacketIsOneFrameExactly(frameId, cycle, timestamp, payload);
    ParsedIntactExactly(frameId, cycle, timestamp, payload);
    hide BuildPacket, Cut, Parse, AllZero;
  }

  lemma {:induction false} ZerosAreZero(b: seq<byte>)
    requires AllZero(b)
    ensures FromLE(b) == 0
    decreases |b|
  {
    if b != [] { ZerosAreZero(b[1..]); }
  }

  lemma ZerosRead(data: seq<byte>, offset: nat, n: nat)
    requires AllZero(data) && offset + n <= |data|
    ensures ReadLE(data, offset, n) == Ok(0)
  {
    ZerosAreZero(data[offset..offset + n]);
  }

  lemma {:induction false} ZeroWordsRead(data: seq<byte>, offset: nat, n: nat)
    requires AllZero(data) && ReadWords(data, offset, n).Ok?
    ensures forall i :: 0 <= i < n ==> ReadWords(data, offset, n).value[i] == 0
  {
    hide AllZero;
    if n > 0 {
      ZeroWordsRead(data, offset, n - 1);
      ZerosRead(data, offset + 8 * (n - 1), 8);
    }
  }

  /** An encoded laser record that covers an area is not zero throughout, so it never arrives as sent,
      whatever the time. */
  lemma LaserNeverReceivedAsSent(frameId: u16, cycle: u32, timestamp: u64, r: Laser, i: nat)
    requires |r.scanArea| == 4 && i < 4 && r.scanArea[i] != 0
    ensures Parse(BuildPacket(frameId, cycle, timestamp, EncodeLaser(r))) != Ok(Packet(frameId, EncodeLaser(r)))
  {
    var data := EncodeLaser(r);
    ParsedIntactExactly(frameId, cycle, timestamp, data);
    var words := r.scanArea + [r.resolution];
    hide BuildPacket, Parse, AllZero, EncodeLaser, EncodeLaserHead, EncodeWords, ReadWords, EncodeCracks, EncodeJson;
    assert At(data, 0, EncodeLaser(r)) by { WholeAt(data); }
    LaserSplit(data, r);
    HeadSplit(data, r);
    WordsReadBack(data, 16, words);
    assert words[i] != 0;
    if AllZero(data) {
      ZeroWordsRead(data, 16, 5);
    }
  }

  /** Nor does a vibration record with amplitudes. */
  lemma VibrationNeverReceivedAsSent(frameId: u16, cycle: u32, timestamp: u64, r: Vibration)
    requires 0 < |r.amplitude| < 0x1_0000_0000
    ensures Parse(BuildPacket(frameId, cycle, timestamp, EncodeVibration(r))) != Ok(Packet(frameId, EncodeVibration(r)))
  {
    var data := EncodeVibration(r);
    ParsedIntactExactly(frameId, cycle, timestamp, data);
    hide BuildPacket, Parse, AllZero, EncodeVibration, EncodeWords, EncodeJson, ReadLE;
    assert At(data, 0, EncodeVibration(r)) by { WholeAt(data); }
    VibrationSplit(data, r);
    Pow256Values();
    ReadBack(data, 48, |r.amplitude|, 4);
    if AllZero(data) {
      ZerosRead(data, 48, 4);
    }
  }

  lemma WholeAt(data: seq<byte>)
    ensures At(data, 0, data)
  {
    assert data[0..|data|] == data;
  }
}
