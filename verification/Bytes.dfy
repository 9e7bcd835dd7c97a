/** Little-endian words in byte buffers.

    A word of n bytes is a natural number below 256^n, least significant byte first. Reading past
    the end of a buffer is an error, as in the parser; a word stands at an offset when its bytes do.
    Reading gives back a word exactly when it stands there, and a run of words likewise, so that
    encoders and decoders can be compared record by record. */
module Bytes {

  type byte = x: int | 0 <= x < 256
  type u16 = x: int | 0 <= x < 0x1_0000
  type u32 = x: int | 0 <= x < 0x1_0000_0000
  type u64 = x: int | 0 <= x < 0x1_0000_0000_0000_0000
  type int32 = x: int | -0x8000_0000 <= x < 0x8000_0000

  datatype Error = OutOfRange | TooSmall | Incomplete | BadJson

  datatype Result<+T> = Ok(value: T) | Err(error: Error) {
    predicate IsFailure() {
      Err?
    }

    function PropagateFailure<U>(): (r: Result<U>)
      requires Err?
    {
      Err(error)
    }

    function Extract(): (v: T)
      requires Ok?
    {
      value
    }
  }

  /** Conversion of a signed to an unsigned 32-bit integer and back. */
  function Unsigned(i: int32): u32 {
    if i < 0 then i + 0x1_0000_0000 else i
  }

  function Signed(u: u32): int32 {
    if u < 0x8000_0000 then u else u - 0x1_0000_0000
  }

  function Pow256(n: nat): (p: nat)
    ensures p > 0
  {
    if n == 0 then 1 else 256 * Pow256(n - 1)
  }

  /** The n low-order bytes of v, the lowest first. */
  function ToLE(v: nat, n: nat): (b: seq<byte>)
    ensures |b| == n
  {
    if n == 0 then [] else [v % 256] + ToLE(v / 256, n - 1)
  }

  function FromLE(b: seq<byte>): nat {
    if b == [] then 0 else b[0] + 256 * FromLE(b[1..])
  }

  lemma {:induction false} FromToLE(v: nat, n: nat)
    requires v < Pow256(n)
    ensures FromLE(ToLE(v, n)) == v
  {
    if n > 0 {
      FromToLE(v / 256, n - 1);
      assert ToLE(v, n)[1..] == ToLE(v / 256, n - 1);
    }
  }

  lemma {:induction false} FromLEBound(b: seq<byte>)
    ensures FromLE(b) < Pow256(|b|)
  {
    if b != [] {
      FromLEBound(b[1..]);
    }
  }

  lemma {:induction false} ToFromLE(b: seq<byte>)
    ensures ToLE(FromLE(b), |b|) == b
  {
    if b != [] {
      ToFromLE(b[1..]);
      assert FromLE(b) / 256 == FromLE(b[1..]) && FromLE(b) % 256 == b[0];
    }
  }

  lemma Pow256Values()
    ensures Pow256(1) == 256 && Pow256(2) == 0x1_0000 && Pow256(4) == 0x1_0000_0000
    ensures Pow256(8) == 0x1_0000_0000_0000_0000
  {
    assert Pow256(3) == 0x100_0000 && Pow256(4) == 0x1_0000_0000;
    assert Pow256(5) == 0x100_0000_0000 && Pow256(6) == 0x1_0000_0000_0000;
    assert Pow256(7) == 0x100_0000_0000_0000;
  }

  /** v shifted right by i bytes. */
  function ShiftBytes(v: nat, i: nat): nat {
    if i == 0 then v else ShiftBytes(v / 256, i - 1)
  }

  /** Byte i of the little-endian form. */
  lemma {:induction false} ByteOfLE(v: nat, n: nat, i: nat)
    requires i < n
    ensures ToLE(v, n)[i] == ShiftBytes(v, i) % 256
  {
    if i > 0 {
      ByteOfLE(v / 256, n - 1, i - 1);
    }
  }

  /** append_u16, append_u32, append_u64: pushes the low-order bytes one at a time. */
  method AppendLE(buf: seq<byte>, v: nat, n: nat) returns (out: seq<byte>)
    ensures out == buf + ToLE(v, n)
  {
    out := buf;
    var i := 0;
    while i < n
      invariant i <= n && out == buf + ToLE(v, n)[..i]
    {
      ByteOfLE(v, n, i);
      out := out + [ShiftBytes(v, i) % 256];
      assert ToLE(v, n)[..i + 1] == ToLE(v, n)[..i] + [ToLE(v, n)[i]];
      i := i + 1;
    }
    assert ToLE(v, n)[..n] == ToLE(v, n);
  }

  /** read_u16, read_u32, read_u64 and the floating-point readers over them. */
  function ReadLE(data: seq<byte>, offset: nat, n: nat): (r: Result<nat>)
    ensures r.Ok? <==> offset + n <= |data|
    ensures r.Ok? ==> r.value < Pow256(n)
  {
    if offset + n > |data| then Err(OutOfRange)
    else
      FromLEBound(data[offset..offset + n]);
      Ok(FromLE(data[offset..offset + n]))
  }

  function ReadU16(data: seq<byte>, offset: nat): Result<u16> {
    Pow256Values();
    var v :- ReadLE(data, offset, 2);
    Ok(v)
  }

  function ReadU32(data: seq<byte>, offset: nat): Result<u32> {
    Pow256Values();
    var v :- ReadLE(data, offset, 4);
    Ok(v)
  }

  function ReadU64(data: seq<byte>, offset: nat): Result<u64> {
    Pow256Values();
    var v :- ReadLE(data, offset, 8);
    Ok(v)
  }

  // ----- Reading back what was written

  /** The bytes b stand in data at the given offset. */
  predicate At(data: seq<byte>, offset: nat, b: seq<byte>) {
    offset + |b| <= |data| && data[offset..offset + |b|] == b
  }

  lemma AtEmpty(data: seq<byte>, offset: nat)
    requires offset <= |data|
    ensures At(data, offset, [])
  {
  }

  lemma AtFits(data: seq<byte>, offset: nat, b: seq<byte>)
    requires At(data, offset, b)
    ensures offset + |b| <= |data|
  {
  }

  lemma AtSplit(data: seq<byte>, offset: nat, a: seq<byte>, b: seq<byte>)
    ensures At(data, offset, a + b) <==> At(data, offset, a) && At(data, offset + |a|, b)
  {
    if At(data, offset, a + b) {
      var whole := data[offset..offset + |a + b|];
      assert whole == a + b;
      assert data[offset..offset + |a|] == whole[..|a|] == a;
      assert data[offset + |a|..offset + |a| + |b|] == whole[|a|..] == b;
    }
    if At(data, offset, a) && At(data, offset + |a|, b) {
      assert data[offset..offset + |a + b|] == data[offset..offset + |a|] + data[offset + |a|..offset + |a| + |b|];
    }
  }

  /** A word reads back as itself, and what is read is what stands there. */
  lemma {:induction false} ReadBack(data: seq<byte>, offset: nat, v: nat, n: nat)
    requires v < Pow256(n)
    ensures At(data, offset, ToLE(v, n)) <==> ReadLE(data, offset, n) == Ok(v)
  {
    hide Pow256, ToLE, FromLE;
    FromToLE(v, n);
    if offset + n <= |data| {
      ToFromLE(data[offset..offset + n]);
    }
  }

  lemma U32ReadBack(data: seq<byte>, offset: nat, v: u32)
    ensures At(data, offset, ToLE(v, 4)) <==> ReadU32(data, offset) == Ok(v)
  {
    Pow256Values();
    ReadBack(data, offset, v, 4);
  }

  lemma I32ReadBack(data: seq<byte>, offset: nat, i: int32)
    ensures At(data, offset, ToLE(Unsigned(i), 4)) <==>
      ReadU32(data, offset).Ok? && Signed(ReadU32(data, offset).value) == i
  {
    U32ReadBack(data, offset, Unsigned(i));
  }

  lemma U64ReadBack(data: seq<byte>, offset: nat, v: u64)
    ensures At(data, offset, ToLE(v, 8)) <==> ReadU64(data, offset) == Ok(v)
  {
    Pow256Values();
    ReadBack(data, offset, v, 8);
  }

  function EncodeWords(ws: seq<u64>): (b: seq<byte>)
    ensures |b| == 8 * |ws|
  {
    if ws == [] then [] else EncodeWords(ws[..|ws| - 1]) + ToLE(ws[|ws| - 1], 8)
  }

  lemma EncodeOneMoreWord(ws: seq<u64>, i: nat)
    requires i < |ws|
    ensures EncodeWords(ws[..0]) == []
    ensures EncodeWords(ws[..i + 1]) == EncodeWords(ws[..i]) + ToLE(ws[i], 8)
  {
    assert ws[..i + 1][..i] == ws[..i];
  }

  /** n doubles read one after the other, as 64-bit words. */
  function ReadWords(data: seq<byte>, offset: nat, n: nat): (r: Result<seq<u64>>)
    ensures r.Ok? ==> |r.value| == n
  {
    if n == 0 then Ok([])
    else
      var ws :- ReadWords(data, offset, n - 1);
      var w :- ReadU64(data, offset + 8 * (n - 1));
      Ok(ws + [w])
  }

  lemma {:induction false} WordsReadBack(data: seq<byte>, offset: nat, ws: seq<u64>)
    ensures At(data, offset, EncodeWords(ws)) ==> ReadWords(data, offset, |ws|) == Ok(ws)
  {
    hide At, ToLE, FromLE, ReadLE, Pow256;
    if ws != [] {
      var init, last := ws[..|ws| - 1], ws[|ws| - 1];
      AtSplit(data, offset, EncodeWords(init), ToLE(last, 8));
      WordsReadBack(data, offset, init);
      U64ReadBack(data, offset + 8 * |init|, last);
      assert ws == init + [last];
    }
  }

  /** Conversely, the words read are the ones that stand there. */
  lemma {:induction false} ReadWordsStand(data: seq<byte>, offset: nat, n: nat)
    requires offset <= |data|
    ensures var r := ReadWords(data, offset, n); r.Ok? ==> At(data, offset, EncodeWords(r.value))
  {
    hide At, ToLE, FromLE, Pow256;
    AtEmpty(data, offset);
    if n > 0 && ReadWords(data, offset, n).Ok? {
      ReadWordsStand(data, offset, n - 1);
      var ws := ReadWords(data, offset, n).value;
      U64ReadBack(data, offset + 8 * (n - 1), ws[n - 1]);
      AtSplit(data, offset, EncodeWords(ws[..n - 1]), ToLE(ws[n - 1], 8));
    }
  }
}
