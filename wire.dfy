/**
  Wire-level building blocks shared by every ZCL foundation codec: octets,
  16-bit unsigned integers, the decoder result type, and the little-endian
  fixed-width integer codec that every primitive value, attribute id and
  manufacturer code goes through.
 */
module Wire {

  /** One octet of a frame. */
  type byte = x: int | 0 <= x < 0x100

  /** An unsigned 16-bit integer (attribute ids, manufacturer codes, intervals). */
  type uint16 = x: int | 0 <= x < 0x1_0000

  datatype Option<+T> = None | Some(value: T)

  /**
    Why a decoder gave up: the buffer ended before the field did
    (InsufficientDataError), a type discriminant is not in the registry
    (UnknownTypeError), or a closed enumeration got a byte outside its range.
   */
  datatype Error = InsufficientData | UnknownType | InvalidEnum

  /** A decoder's outcome; usable with `:-`. */
  datatype Result<+T> = Ok(value: T) | Err(error: Error) {
    predicate IsFailure() {
      Err?
    }

    function PropagateFailure<U>(): Result<U>
      requires Err?
    {
      Err(error)
    }

    function Extract(): T
      requires Ok?
    {
      value
    }
  }

  /** 256 to the power w: the number of values a w-byte field can hold. */
  function Pow256(w: nat): (r: nat)
    ensures r >= 1
  {
    if w == 0 then 1 else 0x100 * Pow256(w - 1)
  }

  lemma Pow256Small()
    ensures Pow256(1) == 0x100 && Pow256(2) == 0x1_0000
  {
  }

  /** The w-byte little-endian encoding of n (least significant byte first). */
  function EncodeLE(n: nat, w: nat): (r: seq<byte>)
    requires n < Pow256(w)
    ensures |r| == w
  {
    if w == 0 then [] else [n % 0x100] + EncodeLE(n / 0x100, w - 1)
  }

  /** The number whose little-endian encoding is s. */
  function DecodeLE(s: seq<byte>): (n: nat)
    ensures n < Pow256(|s|)
  {
    if s == [] then 0 else s[0] + 0x100 * DecodeLE(s[1..])
  }

  /** Decoding an encoding gives the number back. */
  lemma {:induction false} DecodeEncodeLE(n: nat, w: nat)
    requires n < Pow256(w)
    ensures DecodeLE(EncodeLE(n, w)) == n
  {
    if w > 0 {
      var s := EncodeLE(n, w);
      assert s[1..] == EncodeLE(n / 0x100, w - 1);
      DecodeEncodeLE(n / 0x100, w - 1);
    }
  }

  /** Every byte string is the encoding of the number it decodes to. */
  lemma {:induction false} EncodeDecodeLE(s: seq<byte>)
    ensures EncodeLE(DecodeLE(s), |s|) == s
  {
    if s != [] {
      EncodeDecodeLE(s[1..]);
      var n := DecodeLE(s);
      assert n % 0x100 == s[0] && n / 0x100 == DecodeLE(s[1..]);
    }
  }

  /** Two numbers that fit in w bytes with the same encoding are equal. */
  lemma EncodeLEInjective(m: nat, n: nat, w: nat)
    requires m < Pow256(w) && n < Pow256(w)
    requires EncodeLE(m, w) == EncodeLE(n, w)
    ensures m == n
  {
    DecodeEncodeLE(m, w);
    DecodeEncodeLE(n, w);
  }

  /**
    Reads a w-byte little-endian unsigned integer from the front of data;
    fails only when fewer than w bytes remain, and the bytes it consumed are
    exactly the encoding of what it returns.
   */
  function ReadUInt(data: seq<byte>, w: nat): (r: Result<(nat, seq<byte>)>)
    ensures r.Err? <==> |data| < w
    ensures r.Err? ==> r.error == InsufficientData
    ensures r.Ok? ==> r.value.0 < Pow256(w) && data == EncodeLE(r.value.0, w) + r.value.1
  {
    if |data| < w then Err(InsufficientData)
    else
      EncodeDecodeLE(data[..w]);
      assert data == data[..w] + data[w..];
      Ok((DecodeLE(data[..w]), data[w..]))
  }

  /** Reading an encoded number gives it back and leaves what follows untouched. */
  lemma ReadUIntEncoded(n: nat, w: nat, rest: seq<byte>)
    requires n < Pow256(w)
    ensures ReadUInt(EncodeLE(n, w) + rest, w) == Ok((n, rest))
  {
    var data := EncodeLE(n, w) + rest;
    assert data[..w] == EncodeLE(n, w);
    assert data[w..] == rest;
    DecodeEncodeLE(n, w);
  }

  /** One octet (`uint8_t`). */
  function ReadByte(data: seq<byte>): (r: Result<(byte, seq<byte>)>)
    ensures r.Err? <==> data == []
    ensures r.Ok? ==> data == [r.value.0] + r.value.1
  {
    if data == [] then Err(InsufficientData) else Ok((data[0], data[1..]))
  }

  /** The two-byte little-endian encoding of a `uint16_t`. */
  function EncodeU16(x: uint16): (r: seq<byte>)
    ensures |r| == 2 && r[0] == x % 0x100 && r[1] == x / 0x100
  {
    Pow256Small();
    assert EncodeLE(x / 0x100, 1) == [x / 0x100] + EncodeLE(x / 0x100 / 0x100, 0);
    EncodeLE(x, 2)
  }

  /** A little-endian `uint16_t` from the front of data. */
  function ReadU16(data: seq<byte>): (r: Result<(uint16, seq<byte>)>)
    ensures r.Err? <==> |data| < 2
    ensures r.Err? ==> r.error == InsufficientData
    ensures r.Ok? ==> data == EncodeU16(r.value.0) + r.value.1
  {
    Pow256Small();
    var p :- ReadUInt(data, 2);
    Ok((p.0 as uint16, p.1))
  }

  /** Reading an encoded uint16 gives it back and leaves what follows untouched. */
  lemma ReadU16Encoded(x: uint16, rest: seq<byte>)
    ensures ReadU16(EncodeU16(x) + rest) == Ok((x, rest))
  {
    Pow256Small();
    ReadUIntEncoded(x, 2, rest);
  }
}
