/** The encoder and the parser as they run: buffers that grow, and a cursor that moves.

    Each method is tied to the function it computes in Payloads, where the two sides are shown to
    undo each other. A loop that fails stops there; the lemmas about functions that keep failing
    say that the specification, which is defined from the end, then fails the same way whatever
    the number of items still to come. */
module Codec {
  import opened Options
  import opened Bytes
  import opened Payloads

  // ----- The sensor side

  method AppendWords(buf: seq<byte>, ws: seq<u64>) returns (out: seq<byte>)
    ensures out == buf + EncodeWords(ws)
  {
    hide ToLE;
    out := buf;
    var i := 0;
    while i < |ws|
      invariant i <= |ws| && out == buf + EncodeWords(ws[..i])
    {
      out := AppendLE(out, ws[i], 8);
      EncodeOneMoreWord(ws, i);
      i := i + 1;
    }
    assert ws[..|ws|] == ws;
  }

  method AppendJson(buf: seq<byte>, json: Option<seq<byte>>) returns (out: seq<byte>)
    ensures out == buf + EncodeJson(json)
  {
    out := AppendLE(buf, |JsonBytes(json)|, 4);
    out := out + JsonBytes(json);
    assert out == buf + EncodeJson(json);
  }

  method AppendCrack(buf: seq<byte>, c: Crack) returns (out: seq<byte>)
    ensures out == buf + EncodeCrack(c)
  {
    hide ToLE, EncodeWords;
    var head := [c.maxDepth, c.maxWidth, c.totalLength];
    out := AppendWords(buf, head);
    out := AppendLE(out, |c.points|, 4);
    var j := 0;
    while j < |c.points|
      invariant j <= |c.points|
      invariant out == buf + EncodeWords(head) + ToLE(|c.points|, 4) + EncodePoints(c.points[..j])
    {
      out := AppendWords(out, PointWords(c.points[j]));
      assert c.points[..j + 1] == c.points[..j] + [c.points[j]];
      EncodeOneMorePoint(c.points[..j], c.points[j]);
      j := j + 1;
    }
    assert c.points[..|c.points|] == c.points;
    assert out == buf + EncodeCrack(c);
  }

  method BuildLaserHead(r: Laser) returns (payload: seq<byte>)
    ensures payload == EncodeLaserHead(r)
  {
    var flag: seq<byte> := [if r.crackDetected then 1 else 0];
    payload := AppendLE([], Unsigned(r.sensorId), 4);
    payload := AppendLE(payload, Unsigned(r.porcelainId), 4);
    payload := AppendLE(payload, r.timestamp, 8);
    payload := AppendWords(payload, r.scanArea + [r.resolution]);
    payload := payload + flag;
    payload := AppendLE(payload, Unsigned(r.crackCount), 4);
    Regroup(ToLE(Unsigned(r.sensorId), 4), ToLE(Unsigned(r.porcelainId), 4), ToLE(r.timestamp, 8),
            EncodeWords(r.scanArea + [r.resolution]), flag, ToLE(Unsigned(r.crackCount), 4), []);
  }

  /** Appending parts one by one gives their nested concatenation. */
  lemma Regroup(a: seq<byte>, b: seq<byte>, c: seq<byte>, d: seq<byte>, e: seq<byte>, f: seq<byte>, g: seq<byte>)
    ensures [] + a + b + c + d + e + f == a + (b + (c + (d + (e + f))))
    ensures [] + a + b + c + d + e + f + g == a + (b + (c + (d + (e + (f + g)))))
  {
    assert (e + f) + g == e + (f + g);
    assert (d + e) + f == d + (e + f) && (d + e + f) + g == d + (e + (f + g));
    assert (c + d + e) + f == c + (d + (e + f)) && (c + d + e + f) + g == c + (d + (e + (f + g)));
    assert (b + c + d + e) + f == b + (c + (d + (e + f)));
    assert (b + c + d + e + f) + g == b + (c + (d + (e + (f + g))));
    assert [] + a + b + c + d + e + f == a + (b + c + d + e + f);
  }

  method BuildLaserPayload(r: Laser) returns (payload: seq<byte>)
    ensures payload == EncodeLaser(r)
  {
    hide EncodeLaserHead, EncodeCrack, EncodeJson;
    payload := BuildLaserHead(r);
    var i := 0;
    while i < |r.cracks|
      invariant i <= |r.cracks| && payload == EncodeLaserHead(r) + EncodeCracks(r.cracks[..i])
    {
      payload := AppendCrack(payload, r.cracks[i]);
      assert r.cracks[..i + 1] == r.cracks[..i] + [r.cracks[i]];
      EncodeOneMore(r.cracks[..i], r.cracks[i]);
      i := i + 1;
    }
    assert r.cracks[..|r.cracks|] == r.cracks;
    payload := AppendJson(payload, r.processed);
    assert payload == EncodeLaser(r);
  }

  method BuildVibrationPayload(r: Vibration) returns (payload: seq<byte>)
    ensures payload == EncodeVibration(r)
  {
    hide ToLE, EncodeVibrationHead, EncodeWords;
    payload := BuildVibrationHead(r);
    payload := AppendWords(payload, r.amplitude);
    payload := AppendJson(payload, r.spectrum);
  }

  method BuildVibrationHead(r: Vibration) returns (payload: seq<byte>)
    ensures payload == EncodeVibrationHead(r)
  {
    payload := AppendLE([], Unsigned(r.sensorId), 4);
    payload := AppendLE(payload, Unsigned(r.porcelainId), 4);
    payload := AppendLE(payload, r.timestamp, 8);
    payload := AppendWords(payload, [r.rms, r.peak, r.dominantFrequency]);
    payload := AppendLE(payload, r.temperature, 4);
    payload := AppendLE(payload, r.humidity, 4);
    payload := AppendLE(payload, |r.amplitude|, 4);
    Regroup(ToLE(Unsigned(r.sensorId), 4), ToLE(Unsigned(r.porcelainId), 4), ToLE(r.timestamp, 8),
            EncodeWords([r.rms, r.peak, r.dominantFrequency]), ToLE(r.temperature, 4), ToLE(r.humidity, 4),
            ToLE(|r.amplitude|, 4));
  }

  // ----- The parser

  /** Once a read has failed, so does every longer run of reads. */
  lemma {:induction false} WordsKeepFailing(data: seq<byte>, offset: nat, j: nat, n: nat)
    requires j <= n && ReadWords(data, offset, j).Err?
    ensures ReadWords(data, offset, n) == ReadWords(data, offset, j)
    decreases n
  {
    if j < n {
      WordsKeepFailing(data, offset, j, n - 1);
    }
  }

  method ParseWords(data: seq<byte>, offset: nat, n: nat) returns (r: Result<seq<u64>>)
    ensures r == ReadWords(data, offset, n)
  {
    var ws: seq<u64> := [];
    var i := 0;
    while i < n
      invariant i <= n && ReadWords(data, offset, i) == Ok(ws)
    {
      var w := ReadU64(data, offset + 8 * i);
      if w.Err? {
        assert ReadWords(data, offset, i + 1) == Err(w.error);
        WordsKeepFailing(data, offset, i + 1, n);
        return Err(w.error);
      }
      ws := ws + [w.value];
      i := i + 1;
    }
    return Ok(ws);
  }

  lemma {:induction false} PointsKeepFailing(data: seq<byte>, offset: nat, j: nat, n: nat)
    requires j <= n && DecodePoints(data, offset, j).Err?
    ensures DecodePoints(data, offset, n) == DecodePoints(data, offset, j)
    decreases n
  {
    if j < n {
      PointsKeepFailing(data, offset, j, n - 1);
    }
  }

  lemma {:induction false} CracksKeepFailing(data: seq<byte>, offset: nat, j: nat, n: nat, porcelainId: int32)
    requires j <= n && DecodeCracks(data, offset, j, porcelainId).Err?
    ensures DecodeCracks(data, offset, n, porcelainId) == DecodeCracks(data, offset, j, porcelainId)
    decreases n
  {
    hide DecodeCrack;
    if j < n {
      CracksKeepFailing(data, offset, j, n - 1, porcelainId);
    }
  }

  method ParsePoints(data: seq<byte>, start: nat, n: nat) returns (r: Result<seq<Point>>)
    ensures r == DecodePoints(data, start, n)
  {
    hide ReadWords, PointOf;
    var points: seq<Point> := [];
    var offset := start;
    var j := 0;
    while j < n
      invariant j <= n && offset == start + 72 * j && DecodePoints(data, start, j) == Ok(points)
    {
      var ws := ParseWords(data, offset, 9);
      if ws.Err? {
        assert DecodePoints(data, start, j + 1) == Err(ws.error);
        PointsKeepFailing(data, start, j + 1, n);
        return Err(ws.error);
      }
      offset := offset + 72;
      points := points + [PointOf(ws.value)];
      j := j + 1;
    }
    return Ok(points);
  }

  method ParseCrack(data: seq<byte>, offset: nat, porcelainId: int32) returns (r: Result<(Crack, nat)>)
    ensures r == DecodeCrack(data, offset, porcelainId)
  {
    var head := ParseWords(data, offset, 3);
    if head.Err? {
      return Err(head.error);
    }
    var n: nat :- ReadU32(data, offset + 24);
    var points := ParsePoints(data, offset + 28, n);
    if points.Err? {
      return Err(points.error);
    }
    return Ok((Crack(porcelainId, head.value[0], head.value[1], head.value[2], points.value), offset + 28 + 72 * n));
  }

  method ParseCracks(data: seq<byte>, start: nat, n: nat, porcelainId: int32) returns (r: Result<(seq<Crack>, nat)>)
    ensures r == DecodeCracks(data, start, n, porcelainId)
  {
    var cracks: seq<Crack> := [];
    var offset := start;
    var i := 0;
    while i < n
      invariant i <= n && DecodeCracks(data, start, i, porcelainId) == Ok((cracks, offset))
    {
      var c := ParseCrack(data, offset, porcelainId);
      if c.Err? {
        assert DecodeCracks(data, start, i + 1, porcelainId) == Err(c.error);
        CracksKeepFailing(data, start, i + 1, n, porcelainId);
        return Err(c.error);
      }
      cracks := cracks + [c.value.0];
      offset := c.value.1;
      i := i + 1;
    }
    return Ok((cracks, offset));
  }

  method ParseLaserData(payload: seq<byte>, jsonOk: seq<byte> -> bool) returns (r: Result<(Laser, nat)>)
    ensures r == DecodeLaser(payload, jsonOk)
    ensures forall x: Laser :: EncodableLaser(x, jsonOk) && At(payload, 0, EncodeLaser(x)) ==>
      r == Ok((x, |EncodeLaser(x)|))
  {
    forall x: Laser | EncodableLaser(x, jsonOk) && At(payload, 0, EncodeLaser(x))
      ensures DecodeLaser(payload, jsonOk) == Ok((x, |EncodeLaser(x)|))
    {
      LaserRoundTrip(payload, x, jsonOk);
    }
    r := ParseLaserParts(payload, jsonOk);
  }

  method ParseLaserParts(payload: seq<byte>, jsonOk: seq<byte> -> bool) returns (r: Result<(Laser, nat)>)
    ensures r == DecodeLaser(payload, jsonOk)
  {
    var head := DecodeLaserHead(payload);
    if head.Err? {
      return Err(head.error);
    }
    var cracks := ParseCracks(payload, 61, LoopCount(head.value.crackCount), head.value.porcelainId);
    if cracks.Err? {
      return Err(cracks.error);
    }
    var json := DecodeJson(payload, cracks.value.1, jsonOk);
    if json.Err? {
      return Err(json.error);
    }
    return Ok((head.value.(cracks := cracks.value.0, processed := json.value.0), json.value.1));
  }

  method ParseVibrationData(payload: seq<byte>, jsonOk: seq<byte> -> bool) returns (r: Result<(Vibration, nat)>)
    ensures r == DecodeVibration(payload, jsonOk)
  {
    var sensor :- ReadU32(payload, 0);
    var porcelain :- ReadU32(payload, 4);
    var timestamp :- ReadU64(payload, 8);
    var ws := ParseWords(payload, 16, 3);
    if ws.Err? {
      return Err(ws.error);
    }
    var temperature :- ReadU32(payload, 40);
    var humidity :- ReadU32(payload, 44);
    var n: nat :- ReadU32(payload, 48);
    var amplitude := ParseWords(payload, 52, n);
    if amplitude.Err? {
      return Err(amplitude.error);
    }
    var json :- DecodeJson(payload, 52 + 8 * n, jsonOk);
    return Ok((Vibration(Signed(sensor), Signed(porcelain), timestamp, ws.value[0], ws.value[1], ws.value[2],
                         temperature, humidity, amplitude.value, json.0), json.1));
  }
}
