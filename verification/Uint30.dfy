/** The variable-length integer of the TCP-SST packet format
    (libcore/src/network/Stream.cpp).  Stream ids and packet lengths share it. */
module Uint30 {

  import opened ByteStrings

  /** One past the largest value a uint30 may hold. */
  const LIMIT := 0x4000_0000

  const MAX_SERIALIZED_LENGTH := 4

  /** The outcome of reading an integer off the front of some bytes. */
  datatype Decoded = TooShort | Decoded(value: nat, size: nat)

  function Encode(v: nat): (s: seq<Byte>)
    requires v < LIMIT
    ensures |s| == (if v < 128 then 1 else if v < 16384 then 2 else MAX_SERIALIZED_LENGTH)
  {
    if v < 128 then [v]
    else if v < 16384 then [v % 128 + 128, v / 128]
    else [v % 128 + 128, v / 128 % 128 + 128, v / 16384 % 256, v / 16384 / 256]
  }

  function Decode(data: seq<Byte>): (d: Decoded)
    ensures d.Decoded? ==> 1 <= d.size <= MAX_SERIALIZED_LENGTH && d.size <= |data| && d.value < LIMIT
    ensures |data| >= MAX_SERIALIZED_LENGTH ==> d.Decoded?
  {
    if |data| == 0 then TooShort
    else if data[0] < 128 then Decoded(data[0], 1)
    else if |data| < 2 then TooShort
    else if data[1] < 128 then Decoded(data[0] as int - 128 + data[1] as int * 128, 2)
    else if |data| < 4 then TooShort
    else Decoded(data[0] as int - 128 + (data[1] as int - 128) * 128
                 + data[2] as int * 16384 + data[3] as int * 4194304, 4)
  }

  /** Decoding what was encoded gives the value back and consumes exactly its bytes,
      whatever follows them. */
  lemma RoundTrip(v: nat, rest: seq<Byte>)
    requires v < LIMIT
    ensures Decode(Encode(v) + rest) == Decoded(v, |Encode(v)|)
  {
    if 16384 <= v {
      var s := Encode(v) + rest;
      assert s[0] == v % 128 + 128 && s[1] == v / 128 % 128 + 128;
      assert s[2] == v / 16384 % 256 && s[3] == v / 16384 / 256;
      SplitDigits(v);
    }
  }

  lemma SplitDigits(v: nat)
    ensures v == v % 128 + v / 128 % 128 * 128 + v / 16384 % 256 * 16384 + v / 16384 / 256 * 4194304
  {
    assert v / 128 / 128 == v / 16384;
    assert v == v / 128 * 128 + v % 128;
    assert v / 128 == v / 128 / 128 * 128 + v / 128 % 128;
  }

  /** Different bytes of one length are different values. */
  lemma DecodeIsInjective(a: seq<Byte>, b: seq<Byte>)
    requires Decode(a).Decoded? && Decode(a) == Decode(b)
    ensures a[..Decode(a).size] == b[..Decode(b).size]
  {
    var n := Decode(a).size;
    if n == 2 {
      SameDigits(a[0], a[1], 0, 0, b[0], b[1], 0, 0);
    } else if n == 4 {
      SameDigits(a[0], a[1] - 128, a[2], a[3], b[0], b[1] - 128, b[2], b[3]);
    }
  }

  lemma SameDigits(a0: int, a1: int, a2: int, a3: int, b0: int, b1: int, b2: int, b3: int)
    requires 128 <= a0 < 256 && 128 <= b0 < 256 && 0 <= a1 < 128 && 0 <= b1 < 128
    requires 0 <= a2 < 256 && 0 <= b2 < 256 && 0 <= a3 < 256 && 0 <= b3 < 256
    requires a0 - 128 + a1 * 128 + a2 * 16384 + a3 * 4194304 == b0 - 128 + b1 * 128 + b2 * 16384 + b3 * 4194304
    ensures a0 == b0 && a1 == b1 && a2 == b2 && a3 == b3
  {
    assert a0 == b0;
    assert a1 == b1;
  }

  /** Bytes that arrive later never change an integer that could already be read. */
  lemma DecodeIsPrefixStable(a: seq<Byte>, b: seq<Byte>)
    requires Decode(a).Decoded?
    ensures Decode(a + b) == Decode(a)
    ensures Decode(a[..Decode(a).size]) == Decode(a)
  {
  }

  /** Writes `v` at `offset` in place. */
  method Serialize(v: nat, destination: array<Byte>, offset: nat) returns (n: nat)
    requires v < LIMIT
    requires offset + MAX_SERIALIZED_LENGTH <= destination.Length
    modifies destination
    ensures n == |Encode(v)|
    ensures destination[offset..offset + n] == Encode(v)
    ensures forall k :: 0 <= k < destination.Length && !(offset <= k < offset + n)
                        ==> destination[k] == old(destination[k])
  {
    var temp: nat := v;
    if temp < 128 {
      destination[offset] := temp;
      return 1;
    }
    if temp < 16384 {
      destination[offset] := temp % 128 + 128;
      destination[offset + 1] := temp / 128;
      return 2;
    }
    destination[offset] := temp % 128 + 128;
    destination[offset + 1] := temp / 128 % 128 + 128;
    temp := temp / 16384;
    destination[offset + 2] := temp % 256;
    destination[offset + 3] := temp / 256 % 256;
    return 4;
  }
}
