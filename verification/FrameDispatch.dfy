/** What a frame means to the receiver, byte by byte. */
module FrameDispatch {
  import opened Bytes
  import opened Payloads
  import opened Framing

  /** The number in two bytes, the low one first. */
  function TwoBytes(data: seq<byte>, at: nat): int
    requires at + 2 <= |data|
  {
    var low: int, high: int := data[at], data[at + 1];
    low + 256 * high
  }

  /** A frame parses exactly when it has 20 bytes and the payload that bytes 18 and 19 announce behind
      them; its type is in bytes 0 and 1. */
  lemma ParsesExactly(data: seq<byte>)
    ensures Parse(data).Ok? <==> |data| >= 20 && |data| >= 20 + TwoBytes(data, 18)
    ensures Parse(data).Ok? ==>
      Parse(data).value.frameId == TwoBytes(data, 0)
      && Parse(data).value.payload == data[20..20 + TwoBytes(data, 18)]
    ensures Parse(data).Err? ==>
      Parse(data).error == (if |data| < 16 then TooSmall else if |data| < 20 then OutOfRange else Incomplete)
  {
    if |data| >= 20 {
      ReadsTwo(data, 0);
      ReadsTwo(data, 16);
      ReadsTwo(data, 18);
    }
  }

  lemma ReadsTwo(data: seq<byte>, at: nat)
    requires at + 2 <= |data|
    ensures ReadU16(data, at) == Ok(TwoBytes(data, at))
  {
    var word := data[at..at + 2];
    assert word == [data[at], data[at + 1]] && word[1..] == [data[at + 1]] && word[1..][1..] == [];
    assert FromLE(word[1..]) == data[at + 1];
    FromLEBound(word);
    Pow256Values();
  }

  /** Type 0x8001 goes to the laser decoder and its callback, type 0x8002 to the vibration decoder and
      its callback, any other to none; a frame that decodes is acknowledged, and one that does not is not. */
  lemma DispatchExactly(frame: seq<byte>, jsonOk: seq<byte> -> bool)
    requires Parse(frame).Ok?
    ensures var packet, events := Parse(frame).value, Handle(frame, jsonOk);
      var laser, vibration := DecodeLaser(packet.payload, jsonOk), DecodeVibration(packet.payload, jsonOk);
      events ==
        if packet.frameId == 0x8001 then
          if laser.Ok? then [LaserDelivered(packet, laser.value.0)] + Acknowledgement(frame)
          else [Discarded(laser.error)]
        else if packet.frameId == 0x8002 then
          if vibration.Ok? then [VibrationDelivered(packet, vibration.value.0)] + Acknowledgement(frame)
          else [Discarded(vibration.error)]
        else Acknowledgement(frame)
  {
    ParsesExactly(frame);
    AcknowledgesCycle(frame);
  }

  /** The acknowledgement carries the number in bytes 4 to 7, the lowest first. */
  function Acknowledgement(frame: seq<byte>): seq<Event>
    requires |frame| >= 8
  {
    [Acknowledged(TwoBytes(frame, 4) + 0x1_0000 * TwoBytes(frame, 6))]
  }

  lemma AcknowledgesCycle(frame: seq<byte>)
    requires |frame| >= 8
    ensures Acknowledge(frame) == Acknowledgement(frame)
  {
    var word := frame[4..8];
    assert word[1..] == [frame[5], frame[6], frame[7]] && word[1..][1..] == [frame[6], frame[7]];
    assert word[1..][1..][1..] == [frame[7]] && word[1..][1..][1..][1..] == [];
    assert FromLE(word[1..][1..][1..]) == frame[7];
    assert FromLE(word[1..][1..]) == TwoBytes(frame, 6);
    assert FromLE(word[1..]) == frame[5] + 256 * TwoBytes(frame, 6);
    FromLEBound(word);
    Pow256Values();
  }

  /** A frame with an encoded laser record where the receiver looks for it delivers that record. */
  lemma LaserFrameDelivered(frame: seq<byte>, r: Laser, jsonOk: seq<byte> -> bool)
    requires EncodableLaser(r, jsonOk) && Parse(frame) == Ok(Packet(0x8001, EncodeLaser(r)))
    ensures Handle(frame, jsonOk) == [LaserDelivered(Packet(0x8001, EncodeLaser(r)), r)] + Acknowledge(frame)
  {
    WholeAt(EncodeLaser(r));
    LaserRoundTrip(EncodeLaser(r), r, jsonOk);
    hide DecodeLaser, EncodeLaser, Parse, Acknowledge;
  }

  /** And one with an encoded vibration record, that. */
  lemma VibrationFrameDelivered(frame: seq<byte>, r: Vibration, jsonOk: seq<byte> -> bool)
    requires |r.amplitude| < 0x1_0000_0000 && EncodableJson(r.spectrum, jsonOk)
    requires Parse(frame) == Ok(Packet(0x8002, EncodeVibration(r)))
    ensures Handle(frame, jsonOk) ==
      [VibrationDelivered(Packet(0x8002, EncodeVibration(r)), r)] + Acknowledge(frame)
  {
    WholeAt(EncodeVibration(r));
    VibrationRoundTrip(EncodeVibration(r), r, jsonOk);
    hide DecodeVibration, EncodeVibration, Parse, Acknowledge;
  }
}
