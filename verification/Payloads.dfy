/** The laser and vibration payloads: what the sensor side writes and what the parser reads back. */
module Payloads {
  import opened Options
  import opened Bytes

  // Floating-point values are carried as the 32- or 64-bit words that hold them, JSON as opaque
  // bytes that a given predicate accepts or rejects.

  datatype Point = Point(
    x: u64, y: u64, z: u64, depth: u64, width: u64,
    normalX: u64, normalY: u64, normalZ: u64, curvature: u64)

  datatype Crack = Crack(porcelainId: int32, maxDepth: u64, maxWidth: u64, totalLength: u64, points: seq<Point>)

  datatype Laser = Laser(
    sensorId: int32, porcelainId: int32, timestamp: u64,
    scanArea: seq<u64>, resolution: u64,
    crackDetected: bool, crackCount: int32, cracks: seq<Crack>,
    processed: Option<seq<byte>>)

  datatype Vibration = Vibration(
    sensorId: int32, porcelainId: int32, timestamp: u64,
    rms: u64, peak: u64, dominantFrequency: u64, temperature: u32, humidity: u32,
    amplitude: seq<u64>,
    spectrum: Option<seq<byte>>)

  // ----- The trailing JSON

  function JsonBytes(json: Option<seq<byte>>): seq<byte> {
    if json.Some? then json.value else []
  }

  function EncodeJson(json: Option<seq<byte>>): seq<byte> {
    ToLE(|JsonBytes(json)|, 4) + JsonBytes(json)
  }

  /** A length beyond the end of the payload leaves the field empty; text that does not parse is an error. */
  function DecodeJson(data: seq<byte>, offset: nat, jsonOk: seq<byte> -> bool): Result<(Option<seq<byte>>, nat)> {
    var length :- ReadU32(data, offset);
    var start := offset + 4;
    if length > 0 && start + length <= |data| then
      var text := data[start..start + length];
      if jsonOk(text) then Ok((Some(text), start + length)) else Err(BadJson)
    else Ok((None, start))
  }

  ghost predicate EncodableJson(json: Option<seq<byte>>, jsonOk: seq<byte> -> bool) {
    json.Some? ==> 0 < |json.value| < 0x1_0000_0000 && jsonOk(json.value)
  }

  lemma JsonReadsBack(data: seq<byte>, offset: nat, json: Option<seq<byte>>, jsonOk: seq<byte> -> bool)
    requires EncodableJson(json, jsonOk) && At(data, offset, EncodeJson(json))
    ensures DecodeJson(data, offset, jsonOk) == Ok((json, offset + |EncodeJson(json)|))
  {
    hide ToLE, ReadLE;
    Pow256Values();
    AtSplit(data, offset, ToLE(|JsonBytes(json)|, 4), JsonBytes(json));
    ReadBack(data, offset, |JsonBytes(json)|, 4);
  }

  lemma JsonStands(data: seq<byte>, offset: nat, jsonOk: seq<byte> -> bool)
    requires DecodeJson(data, offset, jsonOk).Ok?
    ensures var (json, end) := DecodeJson(data, offset, jsonOk).value;
      ReadU32(data, offset) == Ok(|JsonBytes(json)|) ==>
        At(data, offset, EncodeJson(json)) && end == offset + |EncodeJson(json)|
  {
    var (json, end) := DecodeJson(data, offset, jsonOk).value;
    if ReadU32(data, offset) == Ok(|JsonBytes(json)|) {
      Pow256Values();
      ReadBack(data, offset, |JsonBytes(json)|, 4);
      AtSplit(data, offset, ToLE(|JsonBytes(json)|, 4), JsonBytes(json));
    }
  }

  /** The JSON ends right behind its text. */
  lemma JsonEnd(data: seq<byte>, offset: nat, jsonOk: seq<byte> -> bool)
    requires DecodeJson(data, offset, jsonOk).Ok?
    ensures var (json, end) := DecodeJson(data, offset, jsonOk).value; end == offset + 4 + |JsonBytes(json)|
  {
  }

  // ----- Points and cracks

  function PointWords(p: Point): (ws: seq<u64>)
    ensures |ws| == 9
  {
    [p.x, p.y, p.z, p.depth, p.width, p.normalX, p.normalY, p.normalZ, p.curvature]
  }

  function PointOf(ws: seq<u64>): Point
    requires |ws| == 9
  {
    Point(ws[0], ws[1], ws[2], ws[3], ws[4], ws[5], ws[6], ws[7], ws[8])
  }

  function EncodePoints(ps: seq<Point>): (b: seq<byte>)
    ensures |b| == 72 * |ps|
  {
    if ps == [] then [] else EncodePoints(ps[..|ps| - 1]) + EncodeWords(PointWords(ps[|ps| - 1]))
  }

  function DecodePoints(data: seq<byte>, offset: nat, n: nat): (r: Result<seq<Point>>)
    ensures r.Ok? ==> |r.value| == n
  {
    if n == 0 then Ok([])
    else
      var ps :- DecodePoints(data, offset, n - 1);
      var ws :- ReadWords(data, offset + 72 * (n - 1), 9);
      Ok(ps + [PointOf(ws)])
  }

  function EncodeCrack(c: Crack): seq<byte> {
    EncodeWords([c.maxDepth, c.maxWidth, c.totalLength]) + (ToLE(|c.points|, 4) + EncodePoints(c.points))
  }

  function DecodeCrack(data: seq<byte>, offset: nat, porcelainId: int32): Result<(Crack, nat)> {
    var ws :- ReadWords(data, offset, 3);
    var n :- ReadU32(data, offset + 24);
    var ps :- DecodePoints(data, offset + 28, n);
    Ok((Crack(porcelainId, ws[0], ws[1], ws[2], ps), offset + 28 + 72 * n))
  }

  function EncodeCracks(cs: seq<Crack>): seq<byte> {
    if cs == [] then [] else EncodeCracks(cs[..|cs| - 1]) + EncodeCrack(cs[|cs| - 1])
  }

  function DecodeCracks(data: seq<byte>, offset: nat, n: nat, porcelainId: int32): (r: Result<(seq<Crack>, nat)>)
    ensures r.Ok? ==> |r.value.0| == n
  {
    if n == 0 then Ok(([], offset))
    else
      var (cs, next) :- DecodeCracks(data, offset, n - 1, porcelainId);
      var (c, end) :- DecodeCrack(data, next, porcelainId);
      Ok((cs + [c], end))
  }

  lemma EmptyPoints(data: seq<byte>, offset: nat)
    ensures EncodePoints([]) == [] && DecodePoints(data, offset, 0) == Ok([])
  {
  }

  lemma EncodeOneMorePoint(ps: seq<Point>, p: Point)
    ensures EncodePoints(ps + [p]) == EncodePoints(ps) + EncodeWords(PointWords(p))
  {
    assert (ps + [p])[..|ps|] == ps;
  }

  lemma DecodeOneMorePoint(data: seq<byte>, offset: nat, ps: seq<Point>, p: Point)
    requires DecodePoints(data, offset, |ps|) == Ok(ps)
    requires ReadWords(data, offset + 72 * |ps|, 9) == Ok(PointWords(p))
    ensures DecodePoints(data, offset, |ps| + 1) == Ok(ps + [p])
  {
  }

  lemma {:induction false} PointsReadBack(data: seq<byte>, offset: nat, ps: seq<Point>)
    requires At(data, offset, EncodePoints(ps))
    ensures DecodePoints(data, offset, |ps|) == Ok(ps)
  {
    hide At, EncodePoints, DecodePoints, EncodeWords, ReadWords;
    EmptyPoints(data, offset);
    if ps != [] {
      var init, last := ps[..|ps| - 1], ps[|ps| - 1];
      assert ps == init + [last];
      EncodeOneMorePoint(init, last);
      assert At(data, offset, EncodePoints(init)) && At(data, offset + 72 * |init|, EncodeWords(PointWords(last))) by {
        AtSplit(data, offset, EncodePoints(init), EncodeWords(PointWords(last)));
      }
      PointsReadBack(data, offset, init);
      WordsReadBack(data, offset + 72 * |init|, PointWords(last));
      DecodeOneMorePoint(data, offset, init, last);
    }
  }

  lemma {:induction false} PointsStand(data: seq<byte>, offset: nat, n: nat)
    requires offset <= |data| && DecodePoints(data, offset, n).Ok?
    ensures At(data, offset, EncodePoints(DecodePoints(data, offset, n).value))
  {
    hide At, EncodeWords, ReadWords;
    AtEmpty(data, offset);
    if n > 0 {
      PointsStand(data, offset, n - 1);
      var ps := DecodePoints(data, offset, n).value;
      var ws := ReadWords(data, offset + 72 * (n - 1), 9).value;
      assert PointWords(PointOf(ws)) == ws;
      AtFits(data, offset, EncodePoints(DecodePoints(data, offset, n - 1).value));
      ReadWordsStand(data, offset + 72 * (n - 1), 9);
      assert ps[..n - 1] == DecodePoints(data, offset, n - 1).value;
      AtSplit(data, offset, EncodePoints(ps[..n - 1]), EncodeWords(ws));
    }
  }

  lemma CrackReadsBack(data: seq<byte>, offset: nat, c: Crack)
    requires |c.points| < 0x1_0000_0000 && At(data, offset, EncodeCrack(c))
    ensures DecodeCrack(data, offset, c.porcelainId) == Ok((c, offset + |EncodeCrack(c)|))
  {
    hide EncodePoints, DecodePoints, EncodeWords, ReadWords, At, ToLE, ReadLE;
    var head := [c.maxDepth, c.maxWidth, c.totalLength];
    AtSplit(data, offset, EncodeWords(head), ToLE(|c.points|, 4) + EncodePoints(c.points));
    AtSplit(data, offset + 24, ToLE(|c.points|, 4), EncodePoints(c.points));
    WordsReadBack(data, offset, head);
    Pow256Values();
    ReadBack(data, offset + 24, |c.points|, 4);
    PointsReadBack(data, offset + 28, c.points);
  }

  lemma CrackStands(data: seq<byte>, offset: nat, porcelainId: int32)
    requires offset <= |data| && DecodeCrack(data, offset, porcelainId).Ok?
    ensures var (c, end) := DecodeCrack(data, offset, porcelainId).value;
      At(data, offset, EncodeCrack(c)) && end == offset + |EncodeCrack(c)|
  {
    var (c, end) := DecodeCrack(data, offset, porcelainId).value;
    var ws := ReadWords(data, offset, 3).value;
    assert [c.maxDepth, c.maxWidth, c.totalLength] == ws;
    ReadWordsStand(data, offset, 3);
    Pow256Values();
    ReadBack(data, offset + 24, |c.points|, 4);
    PointsStand(data, offset + 28, |c.points|);
    AtSplit(data, offset + 24, ToLE(|c.points|, 4), EncodePoints(c.points));
    AtSplit(data, offset, EncodeWords(ws), ToLE(|c.points|, 4) + EncodePoints(c.points));
  }

  ghost predicate EncodableCracks(cs: seq<Crack>, porcelainId: int32) {
    forall i :: 0 <= i < |cs| ==> cs[i].porcelainId == porcelainId && |cs[i].points| < 0x1_0000_0000
  }

  lemma {:induction false} CracksReadBack(data: seq<byte>, offset: nat, cs: seq<Crack>, porcelainId: int32)
    requires EncodableCracks(cs, porcelainId) && At(data, offset, EncodeCracks(cs))
    ensures DecodeCracks(data, offset, |cs|, porcelainId) == Ok((cs, offset + |EncodeCracks(cs)|))
  {
    hide At, EncodeCracks, DecodeCracks, EncodeCrack, DecodeCrack;
    EncodeNone();
    DecodeNone(data, offset, porcelainId);
    if cs != [] {
      var init, last := cs[..|cs| - 1], cs[|cs| - 1];
      assert cs == init + [last];
      EncodeOneMore(init, last);
      var next := offset + |EncodeCracks(init)|;
      var end := next + |EncodeCrack(last)|;
      assert At(data, offset, EncodeCracks(init)) && At(data, next, EncodeCrack(last)) by {
        AtSplit(data, offset, EncodeCracks(init), EncodeCrack(last));
      }
      assert DecodeCracks(data, offset, |init|, porcelainId) == Ok((init, next)) by {
        CracksReadBack(data, offset, init, porcelainId);
      }
      assert DecodeCrack(data, next, porcelainId) == Ok((last, end)) by {
        CrackReadsBack(data, next, last);
      }
      DecodeOneMore(data, offset, init, next, last, end, porcelainId);
    }
  }

  lemma EncodeNone()
    ensures EncodeCracks([]) == []
  {
  }

  lemma EncodeOneMore(cs: seq<Crack>, c: Crack)
    ensures EncodeCracks(cs + [c]) == EncodeCracks(cs) + EncodeCrack(c)
  {
    assert (cs + [c])[..|cs|] == cs;
  }

  lemma DecodeNone(data: seq<byte>, offset: nat, porcelainId: int32)
    ensures DecodeCracks(data, offset, 0, porcelainId) == Ok(([], offset))
  {
  }

  lemma DecodeOneMore(data: seq<byte>, offset: nat, cs: seq<Crack>, next: nat, c: Crack, end: nat, porcelainId: int32)
    requires DecodeCracks(data, offset, |cs|, porcelainId) == Ok((cs, next))
    requires DecodeCrack(data, next, porcelainId) == Ok((c, end))
    ensures DecodeCracks(data, offset, |cs| + 1, porcelainId) == Ok((cs + [c], end))
  {
  }

  lemma {:induction false} CracksStand(data: seq<byte>, offset: nat, n: nat, porcelainId: int32)
    requires offset <= |data| && DecodeCracks(data, offset, n, porcelainId).Ok?
    ensures var (cs, end) := DecodeCracks(data, offset, n, porcelainId).value;
      At(data, offset, EncodeCracks(cs)) && end == offset + |EncodeCracks(cs)|
  {
    hide At, EncodeCrack, DecodeCrack;
    AtEmpty(data, offset);
    if n > 0 {
      CracksStand(data, offset, n - 1, porcelainId);
      var (init, next) := DecodeCracks(data, offset, n - 1, porcelainId).value;
      var (cs, end) := DecodeCracks(data, offset, n, porcelainId).value;
      AtFits(data, offset, EncodeCracks(init));
      CrackStands(data, next, porcelainId);
      assert cs[..n - 1] == init;
      AtSplit(data, offset, EncodeCracks(init), EncodeCrack(cs[n - 1]));
    }
  }

  // ----- Laser records

  function EncodeLaserHead(r: Laser): seq<byte> {
    ToLE(Unsigned(r.sensorId), 4) + (ToLE(Unsigned(r.porcelainId), 4) + (ToLE(r.timestamp, 8) +
    (EncodeWords(r.scanArea + [r.resolution]) +
    ([if r.crackDetected then 1 else 0] + ToLE(Unsigned(r.crackCount), 4)))))
  }

  function EncodeLaser(r: Laser): seq<byte> {
    EncodeLaserHead(r) + (EncodeCracks(r.cracks) + EncodeJson(r.processed))
  }

  function DecodeLaserHead(data: seq<byte>): Result<Laser> {
    var sensor :- ReadU32(data, 0);
    var porcelain :- ReadU32(data, 4);
    var timestamp :- ReadU64(data, 8);
    var ws :- ReadWords(data, 16, 5);
    if |data| <= 56 then Err(OutOfRange)
    else
      var count :- ReadU32(data, 57);
      Ok(Laser(Signed(sensor), Signed(porcelain), timestamp, ws[..4], ws[4], data[56] != 0, Signed(count), [], None))
  }

  /** The crack count is stored as a signed integer; a negative one makes the loop run zero times. */
  function LoopCount(count: int32): nat {
    if count < 0 then 0 else count
  }

  function DecodeLaser(data: seq<byte>, jsonOk: seq<byte> -> bool): Result<(Laser, nat)> {
    var head :- DecodeLaserHead(data);
    var (cracks, next) :- DecodeCracks(data, 61, LoopCount(head.crackCount), head.porcelainId);
    var (json, end) :- DecodeJson(data, next, jsonOk);
    Ok((head.(cracks := cracks, processed := json), end))
  }

  ghost predicate EncodableLaser(r: Laser, jsonOk: seq<byte> -> bool) {
    && |r.scanArea| == 4 && r.crackCount == |r.cracks|
    && EncodableCracks(r.cracks, r.porcelainId) && EncodableJson(r.processed, jsonOk)
  }

  lemma HeadSplit(data: seq<byte>, r: Laser)
    requires |r.scanArea| == 4
    ensures |EncodeLaserHead(r)| == 61
    ensures At(data, 0, EncodeLaserHead(r)) <==>
      && At(data, 0, ToLE(Unsigned(r.sensorId), 4)) && At(data, 4, ToLE(Unsigned(r.porcelainId), 4))
      && At(data, 8, ToLE(r.timestamp, 8)) && At(data, 16, EncodeWords(r.scanArea + [r.resolution]))
      && At(data, 56, [if r.crackDetected then 1 else 0]) && At(data, 57, ToLE(Unsigned(r.crackCount), 4))
  {
    var count := ToLE(Unsigned(r.crackCount), 4);
    var e: seq<byte> := [if r.crackDetected then 1 else 0];
    var d := EncodeWords(r.scanArea + [r.resolution]);
    var c := ToLE(r.timestamp, 8);
    var b := ToLE(Unsigned(r.porcelainId), 4);
    AtSplit(data, 0, ToLE(Unsigned(r.sensorId), 4), b + (c + (d + (e + count))));
    AtSplit(data, 4, b, c + (d + (e + count)));
    AtSplit(data, 8, c, d + (e + count));
    AtSplit(data, 16, d, e + count);
    AtSplit(data, 56, e, count);
  }

  /** What stands in the fixed part of a payload, as the parser reads it. */
  ghost predicate HeadReads(data: seq<byte>, r: Laser) {
    && ReadU32(data, 0).Ok? && Signed(ReadU32(data, 0).value) == r.sensorId
    && ReadU32(data, 4).Ok? && Signed(ReadU32(data, 4).value) == r.porcelainId
    && ReadU64(data, 8) == Ok(r.timestamp)
    && ReadWords(data, 16, 5) == Ok(r.scanArea + [r.resolution])
    && |data| > 56 && data[56] == (if r.crackDetected then 1 else 0)
    && ReadU32(data, 57).Ok? && Signed(ReadU32(data, 57).value) == r.crackCount
  }

  lemma HeadStandsAsRead(data: seq<byte>, r: Laser)
    requires |r.scanArea| == 4
    ensures At(data, 0, EncodeLaserHead(r)) <==> HeadReads(data, r)
  {
    HeadSplit(data, r);
    I32ReadBack(data, 0, r.sensorId);
    I32ReadBack(data, 4, r.porcelainId);
    U64ReadBack(data, 8, r.timestamp);
    WordsReadBack(data, 16, r.scanArea + [r.resolution]);
    if ReadWords(data, 16, 5) == Ok(r.scanArea + [r.resolution]) && |data| > 56 {
      ReadWordsStand(data, 16, 5);
    }
    I32ReadBack(data, 57, r.crackCount);
    FlagStands(data, 56, if r.crackDetected then 1 else 0);
  }

  lemma FlagStands(data: seq<byte>, offset: nat, flag: byte)
    ensures At(data, offset, [flag]) <==> offset < |data| && data[offset] == flag
  {
    if offset < |data| {
      assert data[offset..offset + 1] == [data[offset]];
    }
  }

  lemma HeadDecodes(data: seq<byte>, r: Laser)
    requires |r.scanArea| == 4 && HeadReads(data, r)
    ensures DecodeLaserHead(data) == Ok(r.(cracks := [], processed := None))
  {
    assert (r.scanArea + [r.resolution])[..4] == r.scanArea;
  }

  /** The three parts of an encoded record, with the offsets where they stand. */
  lemma LaserSplit(data: seq<byte>, r: Laser)
    requires |r.scanArea| == 4
    ensures At(data, 0, EncodeLaser(r)) <==>
      && At(data, 0, EncodeLaserHead(r)) && At(data, 61, EncodeCracks(r.cracks))
      && At(data, 61 + |EncodeCracks(r.cracks)|, EncodeJson(r.processed))
    ensures |EncodeLaser(r)| == 61 + |EncodeCracks(r.cracks)| + |EncodeJson(r.processed)|
  {
    HeadSplit(data, r);
    AtSplit(data, 0, EncodeLaserHead(r), EncodeCracks(r.cracks) + EncodeJson(r.processed));
    AtSplit(data, 61, EncodeCracks(r.cracks), EncodeJson(r.processed));
  }

  lemma LaserHeadPart(data: seq<byte>, r: Laser)
    requires |r.scanArea| == 4 && At(data, 0, EncodeLaser(r))
    ensures DecodeLaserHead(data) == Ok(r.(cracks := [], processed := None))
  {
    hide At, EncodeLaser, EncodeLaserHead, DecodeLaserHead, HeadReads;
    assert At(data, 0, EncodeLaserHead(r)) by {
      LaserSplit(data, r);
    }
    HeadStandsAsRead(data, r);
    HeadDecodes(data, r);
  }

  lemma LaserCracksPart(data: seq<byte>, r: Laser)
    requires |r.scanArea| == 4 && EncodableCracks(r.cracks, r.porcelainId) && At(data, 0, EncodeLaser(r))
    ensures DecodeCracks(data, 61, |r.cracks|, r.porcelainId) == Ok((r.cracks, 61 + |EncodeCracks(r.cracks)|))
  {
    hide At, EncodeLaser, EncodeCracks, EncodeLaserHead, EncodeJson, DecodeCracks;
    assert At(data, 61, EncodeCracks(r.cracks)) by {
      LaserSplit(data, r);
    }
    CracksReadBack(data, 61, r.cracks, r.porcelainId);
  }

  lemma LaserJsonPart(data: seq<byte>, r: Laser, jsonOk: seq<byte> -> bool)
    requires |r.scanArea| == 4 && EncodableJson(r.processed, jsonOk) && At(data, 0, EncodeLaser(r))
    ensures DecodeJson(data, 61 + |EncodeCracks(r.cracks)|, jsonOk) == Ok((r.processed, |EncodeLaser(r)|))
  {
    hide At, EncodeLaser, EncodeLaserHead, EncodeCracks, EncodeJson, DecodeJson;
    LaserSplit(data, r);
    JsonReadsBack(data, 61 + |EncodeCracks(r.cracks)|, r.processed, jsonOk);
  }

  /** A laser record at the front of a buffer decodes to itself, and the cursor ends right behind it. */
  lemma LaserRoundTrip(data: seq<byte>, r: Laser, jsonOk: seq<byte> -> bool)
    requires EncodableLaser(r, jsonOk) && At(data, 0, EncodeLaser(r))
    ensures DecodeLaser(data, jsonOk) == Ok((r, |EncodeLaser(r)|))
  {
    hide At, EncodeLaser, EncodeCracks, DecodeLaser, DecodeCracks, DecodeLaserHead, DecodeJson;
    LaserHeadPart(data, r);
    LaserCracksPart(data, r);
    LaserJsonPart(data, r, jsonOk);
    LaserAssembles(data, r, 61 + |EncodeCracks(r.cracks)|, |EncodeLaser(r)|, jsonOk);
  }

  lemma LaserAssembles(data: seq<byte>, r: Laser, next: nat, end: nat, jsonOk: seq<byte> -> bool)
    requires DecodeLaserHead(data) == Ok(r.(cracks := [], processed := None)) && r.crackCount == |r.cracks|
    requires DecodeCracks(data, 61, |r.cracks|, r.porcelainId) == Ok((r.cracks, next))
    requires DecodeJson(data, next, jsonOk) == Ok((r.processed, end))
    ensures DecodeLaser(data, jsonOk) == Ok((r, end))
  {
  }

  /** The parts that a successful decoding went through. */
  lemma LaserDisassembles(data: seq<byte>, jsonOk: seq<byte> -> bool)
    requires DecodeLaser(data, jsonOk).Ok?
    ensures var (r, end) := DecodeLaser(data, jsonOk).value;
      && DecodeLaserHead(data) == Ok(r.(cracks := [], processed := None))
      && DecodeCracks(data, 61, LoopCount(r.crackCount), r.porcelainId).Ok?
      && DecodeCracks(data, 61, LoopCount(r.crackCount), r.porcelainId).value.0 == r.cracks
      && DecodeJson(data, DecodeCracks(data, 61, LoopCount(r.crackCount), r.porcelainId).value.1, jsonOk) ==
           Ok((r.processed, end))
  {
    var head := DecodeLaserHead(data).value;
    assert head.cracks == [] && head.processed == None;
  }

  /** Whether the loose spots of the format hold what the encoder writes: a 0 or 1 flag, a
      non-negative count, and a JSON length that was not cut off. */
  ghost predicate CanonicalLaser(data: seq<byte>, r: Laser, end: nat) {
    && |data| > 56 && data[56] <= 1 && r.crackCount >= 0
    && end >= 4 + |JsonBytes(r.processed)|
    && ReadU32(data, end - 4 - |JsonBytes(r.processed)|) == Ok(|JsonBytes(r.processed)|)
  }

  lemma DecodedHeadReads(data: seq<byte>)
    requires DecodeLaserHead(data).Ok? && data[56] <= 1
    ensures |data| >= 61 && |DecodeLaserHead(data).value.scanArea| == 4
    ensures HeadReads(data, DecodeLaserHead(data).value)
  {
    var r := DecodeLaserHead(data).value;
    assert r.scanArea + [r.resolution] == ReadWords(data, 16, 5).value;
  }

  /** Conversely, encoding what a canonical payload decodes to gives the payload back. */
  lemma {:induction false} LaserReencodes(data: seq<byte>, jsonOk: seq<byte> -> bool)
    requires DecodeLaser(data, jsonOk).Ok?
    ensures var (r, end) := DecodeLaser(data, jsonOk).value;
      CanonicalLaser(data, r, end) ==> At(data, 0, EncodeLaser(r)) && end == |EncodeLaser(r)|
  {
    hide At, EncodeLaser, EncodeCracks, EncodeLaserHead, EncodeJson, DecodeCracks, DecodeLaserHead, DecodeJson;
    var (r, end) := DecodeLaser(data, jsonOk).value;
    if CanonicalLaser(data, r, end) {
      LaserDisassembles(data, jsonOk);
      var next := 61 + |EncodeCracks(r.cracks)|;
      assert |data| >= 61 && |r.scanArea| == 4 && At(data, 0, EncodeLaserHead(r)) by {
        DecodedHeadReads(data);
        assert HeadReads(data, r);
        HeadStandsAsRead(data, r);
      }
      assert At(data, 61, EncodeCracks(r.cracks)) && DecodeJson(data, next, jsonOk) == Ok((r.processed, end)) by {
        CracksStand(data, 61, r.crackCount, r.porcelainId);
      }
      assert At(data, next, EncodeJson(r.processed)) && end == next + |EncodeJson(r.processed)| by {
        JsonEnd(data, next, jsonOk);
        JsonStands(data, next, jsonOk);
      }
      LaserSplit(data, r);
    }
  }

  // ----- Vibration records

  function EncodeVibrationHead(r: Vibration): seq<byte> {
    ToLE(Unsigned(r.sensorId), 4) + (ToLE(Unsigned(r.porcelainId), 4) + (ToLE(r.timestamp, 8) +
    (EncodeWords([r.rms, r.peak, r.dominantFrequency]) + (ToLE(r.temperature, 4) + (ToLE(r.humidity, 4) +
    ToLE(|r.amplitude|, 4))))))
  }

  function EncodeVibration(r: Vibration): seq<byte> {
    EncodeVibrationHead(r) + (EncodeWords(r.amplitude) + EncodeJson(r.spectrum))
  }

  function DecodeVibration(data: seq<byte>, jsonOk: seq<byte> -> bool): Result<(Vibration, nat)> {
    var sensor :- ReadU32(data, 0);
    var porcelain :- ReadU32(data, 4);
    var timestamp :- ReadU64(data, 8);
    var ws :- ReadWords(data, 16, 3);
    var temperature :- ReadU32(data, 40);
    var humidity :- ReadU32(data, 44);
    var n :- ReadU32(data, 48);
    var amplitude :- ReadWords(data, 52, n);
    var (json, end) :- DecodeJson(data, 52 + 8 * n, jsonOk);
    Ok((Vibration(Signed(sensor), Signed(porcelain), timestamp, ws[0], ws[1], ws[2],
                  temperature, humidity, amplitude, json), end))
  }

  lemma VibrationSplit(data: seq<byte>, r: Vibration)
    ensures |EncodeVibration(r)| == 52 + 8 * |r.amplitude| + |EncodeJson(r.spectrum)|
    ensures At(data, 0, EncodeVibration(r)) <==>
      && At(data, 0, ToLE(Unsigned(r.sensorId), 4)) && At(data, 4, ToLE(Unsigned(r.porcelainId), 4))
      && At(data, 8, ToLE(r.timestamp, 8)) && At(data, 16, EncodeWords([r.rms, r.peak, r.dominantFrequency]))
      && At(data, 40, ToLE(r.temperature, 4)) && At(data, 44, ToLE(r.humidity, 4))
      && At(data, 48, ToLE(|r.amplitude|, 4)) && At(data, 52, EncodeWords(r.amplitude))
      && At(data, 52 + 8 * |r.amplitude|, EncodeJson(r.spectrum))
  {
    hide At, ToLE, EncodeWords, EncodeJson;
    var b, c := ToLE(Unsigned(r.porcelainId), 4), ToLE(r.timestamp, 8);
    var d := EncodeWords([r.rms, r.peak, r.dominantFrequency]);
    var e, f, n := ToLE(r.temperature, 4), ToLE(r.humidity, 4), ToLE(|r.amplitude|, 4);
    AtSplit(data, 0, EncodeVibrationHead(r), EncodeWords(r.amplitude) + EncodeJson(r.spectrum));
    AtSplit(data, 52, EncodeWords(r.amplitude), EncodeJson(r.spectrum));
    AtSplit(data, 0, ToLE(Unsigned(r.sensorId), 4), b + (c + (d + (e + (f + n)))));
    AtSplit(data, 4, b, c + (d + (e + (f + n))));
    AtSplit(data, 8, c, d + (e + (f + n)));
    AtSplit(data, 16, d, e + (f + n));
    AtSplit(data, 40, e, f + n);
    AtSplit(data, 44, f, n);
  }

  /** What stands in the part of a payload before the JSON, as the parser reads it. */
  ghost predicate VibrationReads(data: seq<byte>, r: Vibration) {
    && ReadU32(data, 0).Ok? && Signed(ReadU32(data, 0).value) == r.sensorId
    && ReadU32(data, 4).Ok? && Signed(ReadU32(data, 4).value) == r.porcelainId
    && ReadU64(data, 8) == Ok(r.timestamp)
    && ReadWords(data, 16, 3) == Ok([r.rms, r.peak, r.dominantFrequency])
    && ReadU32(data, 40) == Ok(r.temperature) && ReadU32(data, 44) == Ok(r.humidity)
    && ReadU32(data, 48) == Ok(|r.amplitude|) && ReadWords(data, 52, |r.amplitude|) == Ok(r.amplitude)
  }

  lemma VibrationStandsAsRead(data: seq<byte>, r: Vibration)
    requires |r.amplitude| < 0x1_0000_0000 && |data| >= 52
    ensures VibrationReads(data, r) <==>
      && At(data, 0, ToLE(Unsigned(r.sensorId), 4)) && At(data, 4, ToLE(Unsigned(r.porcelainId), 4))
      && At(data, 8, ToLE(r.timestamp, 8)) && At(data, 16, EncodeWords([r.rms, r.peak, r.dominantFrequency]))
      && At(data, 40, ToLE(r.temperature, 4)) && At(data, 44, ToLE(r.humidity, 4))
      && At(data, 48, ToLE(|r.amplitude|, 4)) && At(data, 52, EncodeWords(r.amplitude))
  {
    I32ReadBack(data, 0, r.sensorId);
    I32ReadBack(data, 4, r.porcelainId);
    U64ReadBack(data, 8, r.timestamp);
    WordsReadBack(data, 16, [r.rms, r.peak, r.dominantFrequency]);
    ReadWordsStand(data, 16, 3);
    U32ReadBack(data, 40, r.temperature);
    U32ReadBack(data, 44, r.humidity);
    U32ReadBack(data, 48, |r.amplitude|);
    WordsReadBack(data, 52, r.amplitude);
    ReadWordsStand(data, 52, |r.amplitude|);
  }

  /** A vibration record at the front of a buffer decodes to itself, and the cursor ends right behind it. */
  lemma VibrationRoundTrip(data: seq<byte>, r: Vibration, jsonOk: seq<byte> -> bool)
    requires |r.amplitude| < 0x1_0000_0000 && EncodableJson(r.spectrum, jsonOk)
    requires At(data, 0, EncodeVibration(r))
    ensures DecodeVibration(data, jsonOk) == Ok((r, |EncodeVibration(r)|))
  {
    hide At, EncodeVibration, EncodeJson, DecodeVibration, DecodeJson, VibrationReads, EncodeWords, ToLE;
    var next := 52 + 8 * |r.amplitude|;
    var end := next + |EncodeJson(r.spectrum)|;
    assert At(data, next, EncodeJson(r.spectrum)) && end == |EncodeVibration(r)| by {
      VibrationSplit(data, r);
    }
    assert DecodeJson(data, next, jsonOk) == Ok((r.spectrum, end)) by {
      JsonReadsBack(data, next, r.spectrum, jsonOk);
    }
    assert VibrationReads(data, r) by {
      VibrationSplit(data, r);
      AtFits(data, 48, ToLE(|r.amplitude|, 4));
      VibrationStandsAsRead(data, r);
    }
    VibrationAssembles(data, r, end, jsonOk);
  }

  lemma VibrationAssembles(data: seq<byte>, r: Vibration, end: nat, jsonOk: seq<byte> -> bool)
    requires VibrationReads(data, r)
    requires DecodeJson(data, 52 + 8 * |r.amplitude|, jsonOk) == Ok((r.spectrum, end))
    ensures DecodeVibration(data, jsonOk) == Ok((r, end))
  {
  }

  lemma DecodedVibrationReads(data: seq<byte>, jsonOk: seq<byte> -> bool)
    requires DecodeVibration(data, jsonOk).Ok?
    ensures VibrationReads(data, DecodeVibration(data, jsonOk).value.0) && |data| >= 52
    ensures var (r, end) := DecodeVibration(data, jsonOk).value;
      |r.amplitude| < 0x1_0000_0000 && DecodeJson(data, 52 + 8 * |r.amplitude|, jsonOk) == Ok((r.spectrum, end))
  {
    var r := DecodeVibration(data, jsonOk).value.0;
    assert [r.rms, r.peak, r.dominantFrequency] == ReadWords(data, 16, 3).value;
  }

  /** Conversely, encoding what a payload decodes to gives the payload back, unless its JSON length was cut off. */
  lemma VibrationReencodes(data: seq<byte>, jsonOk: seq<byte> -> bool)
    requires DecodeVibration(data, jsonOk).Ok?
    ensures var (r, end) := DecodeVibration(data, jsonOk).value;
      ReadU32(data, 52 + 8 * |r.amplitude|) == Ok(|JsonBytes(r.spectrum)|) ==>
        At(data, 0, EncodeVibration(r)) && end == |EncodeVibration(r)|
  {
    hide At, EncodeVibration, EncodeJson, VibrationReads, DecodeVibration, DecodeJson, ReadWords, EncodeWords, ToLE;
    var (r, end) := DecodeVibration(data, jsonOk).value;
    var next := 52 + 8 * |r.amplitude|;
    DecodedVibrationReads(data, jsonOk);
    if ReadU32(data, next) == Ok(|JsonBytes(r.spectrum)|) {
      assert At(data, next, EncodeJson(r.spectrum)) && end == next + |EncodeJson(r.spectrum)| by {
        JsonStands(data, next, jsonOk);
      }
      VibrationStandsAsRead(data, r);
      VibrationSplit(data, r);
    }
  }
}
