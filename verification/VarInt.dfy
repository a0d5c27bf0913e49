/**
 Variable-length unsigned integers of CoAP option values (section 3.2 of RFC 7252), as coded
 for 16, 32 and 64 bits; `width` counts bytes.
 */
module VarInt {
  import opened Sequences

  type byte = x: int | 0 <= x < 0x100
  type u16 = x: int | 0 <= x < 0x1_0000
  type u32 = x: int | 0 <= x < 0x1_0000_0000

  function Pow256(n: nat): (r: nat)
    ensures r > 0
  {
    if n == 0 then 1 else 256 * Pow256(n - 1)
  }

  /** `to_be_bytes` of an integer of `width` bytes. */
  function ToBigEndian(width: nat, v: nat): (r: seq<byte>)
    requires v < Pow256(width)
    ensures |r| == width
  {
    if width == 0 then [] else ToBigEndian(width - 1, v / 256) + [v % 256]
  }

  /** `from_be_bytes`. */
  function FromBigEndian(bytes: seq<byte>): (r: nat)
    ensures r < Pow256(|bytes|)
  {
    if bytes == [] then 0 else 256 * FromBigEndian(bytes[..|bytes| - 1]) + bytes[|bytes| - 1]
  }

  /** Number of bits up to and including the highest set one. */
  function BitLength(v: nat): nat {
    if v == 0 then 0 else 1 + BitLength(v / 2)
  }

  /** `leading_zeros` of an integer of `bits` bits. */
  function LeadingZeros(bits: nat, v: nat): nat
    requires BitLength(v) <= bits
  {
    bits - BitLength(v)
  }

  /** The value bytes of an integer: big-endian, with `leading_zeros() / 8` bytes drained. */
  function Encode(width: nat, v: nat): seq<byte>
    requires v < Pow256(width)
  {
    BitLengthBounds(width, v);
    ToBigEndian(width, v)[LeadingZeros(8 * width, v) / 8..]
  }

  function Zeros(n: nat): (r: seq<byte>)
    ensures |r| == n && forall i :: 0 <= i < n ==> r[i] == 0
  {
    if n == 0 then [] else [0] + Zeros(n - 1)
  }

  /** The integer behind `bytes`; None where the source panics because they do not fit. */
  function Decode(width: nat, bytes: seq<byte>): (r: Option<nat>)
    ensures r.Some? <==> |bytes| <= width
    ensures r.Some? ==> r.value < Pow256(width)
  {
    if |bytes| > width then None else Some(FromBigEndian(Zeros(width - |bytes|) + bytes))
  }

  /** Right-aligns `val` in a zeroed buffer of `n` bytes, panicking when it is too long. */
  method ConvertToFixedSizeSlice(n: nat, val: seq<byte>) returns (r: Option<seq<byte>>)
    ensures r == if |val| > n then None else Some(Zeros(n - |val|) + val)
  {
    if |val| > n {
      return None;
    }
    var buffer := new byte[n](_ => 0);
    var offset := n - |val|;
    for i := 0 to |val|
      invariant buffer[..offset] == Zeros(offset)
      invariant buffer[offset..offset + i] == val[..i]
    {
      buffer[offset + i] := val[i];
      assert buffer[offset..offset + i + 1] == buffer[offset..offset + i] + [val[i]];
    }
    assert val[..|val|] == val && buffer[..] == buffer[..offset] + buffer[offset..offset + |val|];
    return Some(buffer[..]);
  }

  /** The conversion of a slice into an array of `n` bytes, which demands that very length. */
  function TryIntoArray(n: nat, slice: seq<byte>): Option<seq<byte>> {
    if |slice| == n then Some(slice) else None
  }

  /** Pads to `pad` bytes and reads an array of `width` bytes; None where one of the steps panics. */
  function DecodeAs(pad: nat, width: nat, bytes: seq<byte>): (r: Option<nat>)
    ensures r.Some? ==> r.value < Pow256(width)
  {
    if |bytes| > pad then None
    else
      var fixed := Zeros(pad - |bytes|) + bytes;
      match TryIntoArray(width, fixed[..pad])
      case None => None
      case Some(a) => Some(FromBigEndian(a))
  }

  /** Decoding succeeds exactly when the padding has the width of the integer that is read. */
  lemma DecodeAsSucceeds(pad: nat, width: nat, bytes: seq<byte>)
    ensures DecodeAs(pad, width, bytes).Some? <==> |bytes| <= pad && pad == width
    ensures DecodeAs(width, width, bytes) == Decode(width, bytes)
  {
    if |bytes| <= width {
      var fixed := Zeros(width - |bytes|) + bytes;
      assert fixed[..width] == fixed;
    }
  }

  /**
   `decode_var_len_u16`, `_u32` and `_u64`, where both lengths are the width of the integer, and
   `decode_var_len_u8`, which pads to one byte and reads two.
   */
  method DecodeVarLen(pad: nat, width: nat, val: seq<byte>) returns (r: Option<nat>)
    ensures r == DecodeAs(pad, width, val)
    ensures r.Some? <==> |val| <= pad && pad == width
    ensures pad == width ==> r == Decode(width, val)
  {
    DecodeAsSucceeds(pad, width, val);
    var fixed := ConvertToFixedSizeSlice(pad, val);
    if fixed == None {
      return None;
    }
    var a := TryIntoArray(width, fixed.value[..pad]);
    if a == None {
      return None;
    }
    return Some(FromBigEndian(a.value));
  }

  /** `bytes` without its leading zero bytes. */
  function StripZeros(bytes: seq<byte>): (r: seq<byte>) {
    if bytes == [] || bytes[0] != 0 then bytes else StripZeros(bytes[1..])
  }

  // ---------------------------------------------------------------- bit and byte lengths

  function ByteLength(v: nat): nat {
    if v == 0 then 0 else 1 + ByteLength(v / 256)
  }

  lemma BitLengthShift(v: nat)
    requires v >= 256
    ensures BitLength(v) == 8 + BitLength(v / 256)
  {
    var a := v / 2; var b := a / 2; var c := b / 2; var d := c / 2;
    var e := d / 2; var f := e / 2; var g := f / 2;
    assert g / 2 == v / 256;
    assert BitLength(v) == 2 + BitLength(b) && BitLength(b) == 2 + BitLength(d);
    assert BitLength(d) == 2 + BitLength(f) && BitLength(f) == 2 + BitLength(g / 2);
  }

  lemma BitLengthSmall(v: nat, k: nat, bound: nat)
    requires 0 < v < bound && bound == Pow2(k)
    ensures 1 <= BitLength(v) <= k
  {
    if v > 1 {
      BitLengthSmall(v / 2, k - 1, bound / 2);
    }
  }

  function Pow2(n: nat): nat {
    if n == 0 then 1 else 2 * Pow2(n - 1)
  }

  /** The bit length lies in the byte given by the byte length. */
  lemma {:induction false} BitLengthOfBytes(v: nat)
    requires v > 0
    ensures 8 * (ByteLength(v) - 1) < BitLength(v) <= 8 * ByteLength(v)
  {
    if v >= 256 {
      BitLengthOfBytes(v / 256);
      BitLengthShift(v);
    } else {
      assert Pow2(8) == 256 by { assert Pow2(4) == 16; assert Pow2(6) == 64; }
      BitLengthSmall(v, 8, 256);
      assert ByteLength(v / 256) == 0;
    }
  }

  lemma {:induction false} ByteLengthBound(width: nat, v: nat)
    requires v < Pow256(width)
    ensures ByteLength(v) <= width
  {
    if v > 0 {
      ByteLengthBound(width - 1, v / 256);
    }
  }

  lemma BitLengthBounds(width: nat, v: nat)
    requires v < Pow256(width)
    ensures BitLength(v) <= 8 * width
    ensures LeadingZeros(8 * width, v) / 8 == width - ByteLength(v)
  {
    ByteLengthBound(width, v);
    if v > 0 {
      BitLengthOfBytes(v);
    }
  }

  // ---------------------------------------------------------------- main results

  lemma StripZerosConcat(a: seq<byte>, b: seq<byte>)
    ensures StripZeros(a) != [] ==> StripZeros(a + b) == StripZeros(a) + b
    ensures StripZeros(a) == [] ==> StripZeros(a + b) == StripZeros(b)
  {
    if a == [] {
      assert a + b == b;
    } else if a[0] == 0 {
      assert (a + b)[1..] == a[1..] + b;
      StripZerosConcat(a[1..], b);
    }
  }

  lemma {:induction false} ToBigEndianZeros(width: nat, v: nat)
    requires v < Pow256(width)
    ensures ByteLength(v) <= width
    ensures StripZeros(ToBigEndian(width, v)) == ToBigEndian(width, v)[width - ByteLength(v)..]
  {
    ByteLengthBound(width, v);
    if width > 0 {
      var high := ToBigEndian(width - 1, v / 256);
      ToBigEndianZeros(width - 1, v / 256);
      StripZerosConcat(high, [v % 256]);
      assert StripZeros([v % 256]) == if v % 256 == 0 then [] else [v % 256];
    }
  }

  lemma {:induction false} ToBigEndianValue(width: nat, v: nat)
    requires v < Pow256(width)
    ensures FromBigEndian(ToBigEndian(width, v)) == v
  {
    if width > 0 {
      var high := ToBigEndian(width - 1, v / 256);
      ToBigEndianValue(width - 1, v / 256);
      assert (high + [v % 256])[..width - 1] == high;
    }
  }

  /** `leading_zeros() / 8` counts the leading zero bytes, so draining that many strips exactly them. */
  lemma EncodeStrips(width: nat, v: nat)
    requires v < Pow256(width)
    ensures Encode(width, v) == StripZeros(ToBigEndian(width, v))
  {
    BitLengthBounds(width, v);
    ToBigEndianZeros(width, v);
  }

  lemma {:induction false} StripKeepsValue(bytes: seq<byte>)
    ensures FromBigEndian(StripZeros(bytes)) == FromBigEndian(bytes)
    ensures |StripZeros(bytes)| <= |bytes|
    ensures StripZeros(bytes) != [] ==> StripZeros(bytes)[0] != 0
  {
    if bytes != [] && bytes[0] == 0 {
      StripKeepsValue(bytes[1..]);
      PrependZero(bytes[1..]);
      assert bytes == [0] + bytes[1..];
    }
  }

  /** What is stripped is zeros, and all the leading ones. */
  lemma {:induction false} StripZerosExact(bytes: seq<byte>)
    ensures |StripZeros(bytes)| <= |bytes|
    ensures bytes == Zeros(|bytes| - |StripZeros(bytes)|) + StripZeros(bytes)
  {
    if bytes != [] && bytes[0] == 0 {
      StripZerosExact(bytes[1..]);
      assert bytes == [0] + bytes[1..];
    }
  }

  lemma {:induction false} PrependZero(bytes: seq<byte>)
    ensures FromBigEndian([0] + bytes) == FromBigEndian(bytes)
  {
    if bytes != [] {
      PrependZero(bytes[..|bytes| - 1]);
      assert ([0] + bytes)[..|bytes|] == [0] + bytes[..|bytes| - 1];
    } else {
      assert [0] + bytes == [0];
    }
  }

  lemma {:induction false} PadKeepsValue(n: nat, bytes: seq<byte>)
    ensures FromBigEndian(Zeros(n) + bytes) == FromBigEndian(bytes)
    ensures StripZeros(Zeros(n) + bytes) == StripZeros(bytes)
  {
    if n == 0 {
      assert Zeros(n) + bytes == bytes;
    } else {
      var rest := Zeros(n - 1) + bytes;
      PadKeepsValue(n - 1, bytes);
      assert Zeros(n) + bytes == [0] + rest;
      PrependZero(rest);
      assert ([0] + rest)[1..] == rest;
    }
  }

  /** The encoding is the shortest one: empty for zero, and never starting with a zero byte. */
  lemma EncodeShortest(width: nat, v: nat, bytes: seq<byte>)
    requires v < Pow256(width)
    ensures |Encode(width, v)| == ByteLength(v) <= width
    ensures Encode(width, v) != [] ==> Encode(width, v)[0] != 0
    ensures FromBigEndian(bytes) == v ==> |Encode(width, v)| <= |bytes|
  {
    BitLengthBounds(width, v);
    ByteLengthBound(width, v);
    EncodeStrips(width, v);
    StripKeepsValue(ToBigEndian(width, v));
    if FromBigEndian(bytes) == v {
      ByteLengthBound(|bytes|, v);
    }
  }

  /** Decoding undoes encoding. */
  lemma DecodeEncode(width: nat, v: nat)
    requires v < Pow256(width)
    ensures Decode(width, Encode(width, v)) == Some(v)
  {
    var bytes := Encode(width, v);
    assert |bytes| <= width by { EncodeShortest(width, v, []); }
    assert FromBigEndian(bytes) == v by {
      EncodeStrips(width, v);
      ToBigEndianValue(width, v);
      StripKeepsValue(ToBigEndian(width, v));
    }
    PadKeepsValue(width - |bytes|, bytes);
  }

  lemma {:induction false} BigEndianInverse(bytes: seq<byte>)
    ensures ToBigEndian(|bytes|, FromBigEndian(bytes)) == bytes
  {
    if bytes != [] {
      BigEndianInverse(bytes[..|bytes| - 1]);
    }
  }

  lemma EncodeOfBigEndian(width: nat, bytes: seq<byte>)
    requires |bytes| == width
    ensures Encode(width, FromBigEndian(bytes)) == StripZeros(bytes)
  {
    BigEndianInverse(bytes);
    EncodeStrips(width, FromBigEndian(bytes));
  }

  /** Encoding after decoding takes away zero bytes at the front, and all of them. */
  lemma EncodeDecode(width: nat, bytes: seq<byte>)
    requires |bytes| <= width
    ensures var r := Encode(width, Decode(width, bytes).value);
            && r == StripZeros(bytes) && |r| <= |bytes|
            && bytes == Zeros(|bytes| - |r|) + r && (r == [] || r[0] != 0)
  {
    StripZerosExact(bytes);
    StripKeepsValue(bytes);
    var padded := Zeros(width - |bytes|) + bytes;
    assert Decode(width, bytes) == Some(FromBigEndian(padded));
    assert StripZeros(padded) == StripZeros(bytes) by { PadKeepsValue(width - |bytes|, bytes); }
    EncodeOfBigEndian(width, padded);
  }
}
