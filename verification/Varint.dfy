/** Base 128 varints, 32-bit integers and tags, as bytes on the wire. */
module Varint {
  import opened Wrappers

  type byte = x: int | 0 <= x < 256

  const MAX_VARINT_BYTES: nat := 10
  const TWO_31: int := 0x8000_0000
  const TWO_32: int := 0x1_0000_0000
  const TWO_64: int := 0x1_0000_0000_0000_0000

  /** Seven bits a byte, the low ones first; the top bit says that more follow. */
  function Encode(v: nat): (s: seq<byte>)
    ensures s != []
  {
    if v < 128 then [v] else [v % 128 + 128] + Encode(v / 128)
  }

  /** A value and the number of bytes it took. */
  datatype Decoded = Decoded(value: nat, length: nat)

  /** Reads a varint of at most `n` bytes; None if it is cut short or too long. */
  function Decode(s: seq<byte>, n: nat): (r: Option<Decoded>)
    ensures r.Some? ==> 0 < r.value.length <= |s|
    decreases n
  {
    if s == [] || n == 0 then None
    else if s[0] < 128 then Some(Decoded(s[0], 1))
    else
      match Decode(s[1..], n - 1)
      case None => None
      case Some(d) => Some(Decoded(s[0] - 128 + 128 * d.value, d.length + 1))
  }

  /** Reading back a varint that is followed by anything gives the value and stops at its end. */
  lemma {:induction false} DecodeEncode(v: nat, t: seq<byte>, n: nat)
    requires |Encode(v)| <= n
    ensures Decode(Encode(v) + t, n) == Some(Decoded(v, |Encode(v)|))
    decreases v
  {
    var s := Encode(v) + t;
    if v >= 128 {
      assert Encode(v)[0] == v % 128 + 128 && Encode(v)[1..] == Encode(v / 128);
      assert s[1..] == Encode(v / 128) + t;
      DecodeEncode(v / 128, t, n - 1);
    }
  }

  /** What has been read does not depend on what follows it. */
  lemma {:induction false} DecodeAppend(s: seq<byte>, t: seq<byte>, n: nat)
    requires Decode(s, n).Some?
    ensures Decode(s + t, n) == Decode(s, n)
    decreases n
  {
    if s[0] >= 128 {
      assert (s + t)[1..] == s[1..] + t;
      DecodeAppend(s[1..], t, n - 1);
    }
  }

  // ----- sizes -----

  function VarintSize32(v: nat): nat {
    if v < 0x80 then 1
    else if v < 0x4000 then 2
    else if v < 0x20_0000 then 3
    else if v < 0x1000_0000 then 4
    else 5
  }

  function VarintSize64(v: nat): nat {
    if v < 0x8_0000_0000 then VarintSize32(v)
    else if v < 0x400_0000_0000 then 6
    else if v < 0x2_0000_0000_0000 then 7
    else if v < 0x100_0000_0000_0000 then 8
    else if v < 0x8000_0000_0000_0000 then 9
    else 10
  }

  lemma EncodeSize32(v: nat)
    requires v < TWO_32
    ensures |Encode(v)| == VarintSize32(v)
  {
  }

  /** The size tables agree with the bytes written. */
  lemma EncodeSize64(v: nat)
    requires v < TWO_64
    ensures |Encode(v)| == VarintSize64(v)
    ensures |Encode(v)| <= MAX_VARINT_BYTES
  {
  }

  // ----- signed 32-bit integers -----

  predicate IsInt32(i: int) {
    -TWO_31 <= i < TWO_31
  }

  /** A negative number is sign-extended to 64 bits before it is written. */
  function SignExtended(i: int): nat
    requires IsInt32(i)
  {
    if i < 0 then TWO_64 + i else i
  }

  /** The low 32 bits, as a signed number. */
  function ToInt32(v: nat): (i: int)
    ensures IsInt32(i)
  {
    var low := v % TWO_32;
    if low >= TWO_31 then low - TWO_32 else low
  }

  /** Cutting to 64 bits does not change the low 32. */
  lemma LowBits(v: nat)
    ensures v % TWO_64 % TWO_32 == v % TWO_32
    ensures ToInt32(v % TWO_64) == ToInt32(v)
  {
    var q := v / TWO_64;
    assert v == v % TWO_64 + q * TWO_32 * TWO_32;
    MultiplesVanish(v % TWO_64, q * TWO_32);
  }

  lemma MultiplesVanish(a: nat, k: nat)
    ensures (a + k * TWO_32) % TWO_32 == a % TWO_32
    decreases k
  {
    if k > 0 {
      MultiplesVanish(a, k - 1);
      assert a + k * TWO_32 == (a + (k - 1) * TWO_32) + TWO_32;
    }
  }

  function Int32Size(i: int): nat {
    if i < 0 then 10 else VarintSize32(i)
  }

  /** A signed number comes back, whatever its sign, and takes the size the table says. */
  lemma Int32RoundTrip(i: int)
    requires IsInt32(i)
    ensures ToInt32(SignExtended(i)) == i
    ensures |Encode(SignExtended(i))| == Int32Size(i) <= MAX_VARINT_BYTES
  {
    EncodeSize64(SignExtended(i));
    if i < 0 {
      assert SignExtended(i) == (TWO_32 - 1) * TWO_32 + (TWO_32 + i);
      assert SignExtended(i) % TWO_32 == TWO_32 + i;
    }
  }
}
