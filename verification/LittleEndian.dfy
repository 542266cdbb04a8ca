/**
 The two halves of the redemption value codec: the client writes eight little-endian bytes,
 the chain reads back only the first four of them.
 */
module LittleEndian {

  type byte = x: int | 0 <= x < 256

  const TWO_TO_THE_32 := 0x1_0000_0000

  /** The `n` low bytes of `value`, least significant first. */
  function LowBytes(value: nat, n: nat): (bytes: seq<byte>)
    ensures |bytes| == n
  {
    if n == 0 then [] else [value % 256] + LowBytes(value / 256, n - 1)
  }

  /** big.Int.Uint64 keeps the low 64 bits of the absolute value, so a negative value loses its sign. */
  function ToLittleEndianBytes(value: int): (bytes: seq<byte>)
    ensures |bytes| == 8
  {
    LowBytes(if value < 0 then -value else value, 8)
  }

  function UtxoValueBytesToUint32(bytes: seq<byte>): (value: nat)
    requires |bytes| == 8
    ensures value < TWO_TO_THE_32
  {
    var b0: int, b1: int, b2: int, b3: int := bytes[0], bytes[1], bytes[2], bytes[3];
    b0 + 0x100 * b1 + 0x1_0000 * b2 + 0x100_0000 * b3
  }

  /** What survives one trip through the codec. */
  function Low32(value: int): nat {
    (if value < 0 then -value else value) % TWO_TO_THE_32
  }

  lemma CodecKeepsLow32Bits(value: int)
    ensures UtxoValueBytesToUint32(ToLittleEndianBytes(value)) == Low32(value)
  {
    var v: nat := if value < 0 then -value else value;
    var q1, q2, q3, q4 := v / 0x100, v / 0x100 / 0x100, v / 0x100 / 0x100 / 0x100, v / 0x100 / 0x100 / 0x100 / 0x100;
    assert LowBytes(v, 8) == [v % 0x100] + LowBytes(q1, 7);
    assert LowBytes(q1, 7) == [q1 % 0x100] + LowBytes(q2, 6);
    assert LowBytes(q2, 6) == [q2 % 0x100] + LowBytes(q3, 5);
    assert LowBytes(q3, 5) == [q3 % 0x100] + LowBytes(q4, 4);
    var low := UtxoValueBytesToUint32(LowBytes(v, 8));
    assert low == v % 0x100 + 0x100 * (q1 % 0x100) + 0x1_0000 * (q2 % 0x100) + 0x100_0000 * (q3 % 0x100);
    RemainderIsUnique(v, q4, low);
  }

  lemma RemainderIsUnique(v: nat, q: nat, r: nat)
    requires v == TWO_TO_THE_32 * q + r && r < TWO_TO_THE_32
    ensures v % TWO_TO_THE_32 == r
  {
  }

  /** The codec loses nothing exactly on the values an unsigned 32-bit word can hold. */
  lemma CodecRoundTrip(value: int)
    ensures UtxoValueBytesToUint32(ToLittleEndianBytes(value)) == value <==> 0 <= value < TWO_TO_THE_32
  {
    CodecKeepsLow32Bits(value);
    hide UtxoValueBytesToUint32, ToLittleEndianBytes;
  }
}
