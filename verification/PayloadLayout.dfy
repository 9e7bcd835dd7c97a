/** Where each field of a record stands in the bytes that are sent. */
module PayloadLayout {
  import opened Bytes
  import opened Payloads

  /** Signed numbers travel modulo 2^32 and come back. */
  lemma TwosComplement(i: int32)
    ensures Unsigned(i) == i % 0x1_0000_0000 && Signed(Unsigned(i)) == i
  {
  }

  lemma {:induction false} WordPlace(data: seq<byte>, offset: nat, ws: seq<u64>, k: nat)
    requires At(data, offset, EncodeWords(ws)) && k < |ws|
    ensures At(data, offset + 8 * k, ToLE(ws[k], 8))
  {
    hide At, ToLE;
    var init, last := ws[..|ws| - 1], ws[|ws| - 1];
    AtSplit(data, offset, EncodeWords(init), ToLE(last, 8));
    if k < |init| {
      WordPlace(data, offset, init, k);
    }
  }

  /** A point is nine 8-byte words: place, depth, width, normal, curvature. */
  ghost predicate PointAt(data: seq<byte>, offset: nat, p: Point) {
    && At(data, offset, ToLE(p.x, 8)) && At(data, offset + 8, ToLE(p.y, 8)) && At(data, offset + 16, ToLE(p.z, 8))
    && At(data, offset + 24, ToLE(p.depth, 8)) && At(data, offset + 32, ToLE(p.width, 8))
    && At(data, offset + 40, ToLE(p.normalX, 8)) && At(data, offset + 48, ToLE(p.normalY, 8))
    && At(data, offset + 56, ToLE(p.normalZ, 8)) && At(data, offset + 64, ToLE(p.curvature, 8))
  }

  lemma PointPlaces(data: seq<byte>, offset: nat, p: Point)
    requires At(data, offset, EncodeWords(PointWords(p)))
    ensures PointAt(data, offset, p)
  {
    var ws := PointWords(p);
    hide At, ToLE, EncodeWords;
    WordPlace(data, offset, ws, 0);
    WordPlace(data, offset, ws, 1);
    WordPlace(data, offset, ws, 2);
    WordPlace(data, offset, ws, 3);
    WordPlace(data, offset, ws, 4);
    WordPlace(data, offset, ws, 5);
    WordPlace(data, offset, ws, 6);
    WordPlace(data, offset, ws, 7);
    WordPlace(data, offset, ws, 8);
  }

  lemma {:induction false} PointsPlace(data: seq<byte>, offset: nat, ps: seq<Point>, j: nat)
    requires At(data, offset, EncodePoints(ps)) && j < |ps|
    ensures PointAt(data, offset + 72 * j, ps[j])
  {
    hide At, EncodeWords, PointAt, PointWords;
    var init, last := ps[..|ps| - 1], ps[|ps| - 1];
    AtSplit(data, offset, EncodePoints(init), EncodeWords(PointWords(last)));
    if j < |init| {
      PointsPlace(data, offset, init, j);
    } else {
      PointPlaces(data, offset + 72 * j, last);
    }
  }

  /** A crack is its three measures, the number of its points in 4 bytes, and the points. */
  ghost predicate CrackAt(data: seq<byte>, offset: nat, c: Crack) {
    && At(data, offset, ToLE(c.maxDepth, 8)) && At(data, offset + 8, ToLE(c.maxWidth, 8))
    && At(data, offset + 16, ToLE(c.totalLength, 8)) && At(data, offset + 24, ToLE(|c.points|, 4))
    && forall j :: 0 <= j < |c.points| ==> PointAt(data, offset + 28 + 72 * j, c.points[j])
  }

  lemma CrackPlaces(data: seq<byte>, offset: nat, c: Crack)
    requires At(data, offset, EncodeCrack(c))
    ensures CrackAt(data, offset, c)
  {
    hide At, ToLE, EncodeWords, EncodePoints, PointAt;
    var head := [c.maxDepth, c.maxWidth, c.totalLength];
    AtSplit(data, offset, EncodeWords(head), ToLE(|c.points|, 4) + EncodePoints(c.points));
    AtSplit(data, offset + 24, ToLE(|c.points|, 4), EncodePoints(c.points));
    WordPlace(data, offset, head, 0);
    WordPlace(data, offset, head, 1);
    WordPlace(data, offset, head, 2);
    forall j | 0 <= j < |c.points| ensures PointAt(data, offset + 28 + 72 * j, c.points[j]) {
      PointsPlace(data, offset + 28, c.points, j);
    }
  }

  /** Where crack k begins when the first stands at the offset. */
  function CrackPlace(cs: seq<Crack>, k: nat, offset: nat): nat
    requires k <= |cs|
  {
    if k == 0 then offset else CrackPlace(cs, k - 1, offset) + 28 + 72 * |cs[k - 1].points|
  }

  lemma {:induction false} CracksEnd(cs: seq<Crack>, offset: nat)
    ensures CrackPlace(cs, |cs|, offset) == offset + |EncodeCracks(cs)|
  {
    if cs != [] {
      var init, last := cs[..|cs| - 1], cs[|cs| - 1];
      CracksEnd(init, offset);
      SamePlace(cs, init, |init|, offset);
      CrackSize(last);
      hide EncodeCrack;
    }
  }

  lemma CrackSize(c: Crack)
    ensures |EncodeCrack(c)| == 28 + 72 * |c.points|
  {
  }

  lemma {:induction false} CracksPlace(data: seq<byte>, offset: nat, cs: seq<Crack>, k: nat)
    requires At(data, offset, EncodeCracks(cs)) && k < |cs|
    ensures CrackAt(data, CrackPlace(cs, k, offset), cs[k])
  {
    hide At, EncodeCrack, CrackAt, CrackPlace;
    var init, last := cs[..|cs| - 1], cs[|cs| - 1];
    AtSplit(data, offset, EncodeCracks(init), EncodeCrack(last));
    SamePlace(cs, init, k, offset);
    if k < |init| {
      CracksPlace(data, offset, init, k);
    } else {
      CracksEnd(init, offset);
      CrackPlaces(data, offset + |EncodeCracks(init)|, last);
    }
  }

  lemma {:induction false} SamePlace(cs: seq<Crack>, init: seq<Crack>, k: nat, offset: nat)
    requires init <= cs && k <= |init|
    ensures CrackPlace(cs, k, offset) == CrackPlace(init, k, offset)
  {
    if k > 0 {
      SamePlace(cs, init, k - 1, offset);
    }
  }

  /** The fixed part of a laser record: ids, time, the scan area, resolution, the crack flag and the
      number of cracks. */
  ghost predicate LaserHeadAt(data: seq<byte>, r: Laser)
    requires |r.scanArea| == 4
  {
    && At(data, 0, ToLE(Unsigned(r.sensorId), 4)) && At(data, 4, ToLE(Unsigned(r.porcelainId), 4))
    && At(data, 8, ToLE(r.timestamp, 8))
    && (forall k :: 0 <= k < 4 ==> At(data, 16 + 8 * k, ToLE(r.scanArea[k], 8)))
    && At(data, 48, ToLE(r.resolution, 8))
    && |data| > 60 && data[56] == (if r.crackDetected then 1 else 0)
    && At(data, 57, ToLE(Unsigned(r.crackCount), 4))
  }

  lemma HeadPlaces(data: seq<byte>, r: Laser)
    requires |r.scanArea| == 4 && At(data, 0, EncodeLaserHead(r))
    ensures LaserHeadAt(data, r)
  {
    hide ToLE, EncodeWords, EncodeLaserHead;
    HeadSplit(data, r);
    FlagByte(data, if r.crackDetected then 1 else 0);
    var words := r.scanArea + [r.resolution];
    forall k | 0 <= k < 4 ensures At(data, 16 + 8 * k, ToLE(r.scanArea[k], 8)) {
      WordPlace(data, 16, words, k);
    }
    WordPlace(data, 16, words, 4);
  }

  /** A laser record is its fixed part, the cracks, and the JSON text behind its length. */
  lemma LaserPlaces(r: Laser)
    requires |r.scanArea| == 4
    ensures var data := EncodeLaser(r);
      && LaserHeadAt(data, r)
      && (forall k :: 0 <= k < |r.cracks| ==> CrackAt(data, CrackPlace(r.cracks, k, 61), r.cracks[k]))
      && var json, end := JsonBytes(r.processed), CrackPlace(r.cracks, |r.cracks|, 61);
         At(data, end, ToLE(|json|, 4)) && At(data, end + 4, json) && |data| == end + 4 + |json|
  {
    hide At, ToLE, LaserHeadAt, EncodeCracks, EncodeLaser, EncodeLaserHead, CrackAt, CrackPlace, JsonBytes;
    var data := EncodeLaser(r);
    WholeHere(data);
    LaserSplit(data, r);
    HeadPlaces(data, r);
    CracksEnd(r.cracks, 61);
    forall k | 0 <= k < |r.cracks| ensures CrackAt(data, CrackPlace(r.cracks, k, 61), r.cracks[k]) {
      CracksPlace(data, 61, r.cracks, k);
    }
    AtSplit(data, 61 + |EncodeCracks(r.cracks)|, ToLE(|JsonBytes(r.processed)|, 4), JsonBytes(r.processed));
  }

  lemma WholeHere(data: seq<byte>)
    ensures At(data, 0, data)
  {
    assert data[0..|data|] == data;
  }

  lemma FlagByte(data: seq<byte>, b: byte)
    requires At(data, 56, [b])
    ensures |data| > 56 && data[56] == b
  {
    assert data[56..57] == [b];
    assert data[56..57][0] == b;
  }

  /** A vibration record: ids, time, three measures, temperature and humidity in 4 bytes each, the number
      of amplitudes, the amplitudes, and the JSON text behind its length. */
  lemma VibrationPlaces(r: Vibration)
    ensures var data := EncodeVibration(r);
      && At(data, 0, ToLE(Unsigned(r.sensorId), 4)) && At(data, 4, ToLE(Unsigned(r.porcelainId), 4))
      && At(data, 8, ToLE(r.timestamp, 8)) && At(data, 16, ToLE(r.rms, 8)) && At(data, 24, ToLE(r.peak, 8))
      && At(data, 32, ToLE(r.dominantFrequency, 8))
      && At(data, 40, ToLE(r.temperature, 4)) && At(data, 44, ToLE(r.humidity, 4))
      && At(data, 48, ToLE(|r.amplitude|, 4))
      && (forall k :: 0 <= k < |r.amplitude| ==> At(data, 52 + 8 * k, ToLE(r.amplitude[k], 8)))
      && var json, end := JsonBytes(r.spectrum), 52 + 8 * |r.amplitude|;
         At(data, end, ToLE(|json|, 4)) && At(data, end + 4, json) && |data| == end + 4 + |json|
  {
    var data := EncodeVibration(r);
    WholeHere(data);
    VibrationSplit(data, r);
    hide At, ToLE, EncodeWords, EncodeVibration, JsonBytes;
    var words := [r.rms, r.peak, r.dominantFrequency];
    WordPlace(data, 16, words, 0);
    WordPlace(data, 16, words, 1);
    WordPlace(data, 16, words, 2);
    forall k | 0 <= k < |r.amplitude| ensures At(data, 52 + 8 * k, ToLE(r.amplitude[k], 8)) {
      WordPlace(data, 52, r.amplitude, k);
    }
    AtSplit(data, 52 + 8 * |r.amplitude|, ToLE(|JsonBytes(r.spectrum)|, 4), JsonBytes(r.spectrum));
  }
}
