/** test/conv4Bits.py: the values read one per line are taken in pairs; the
    first of a pair is shifted into the high nibble, the second is or-ed in,
    and the low 8 bits of the result (ctypes.c_ubyte) are written as one byte.
    Python integers are unbounded; the output bytes are bv8. */
module NibblePacker {

  /** the marker for "no high nibble pending" */
  const INVALID: int := -1

  /** c_ubyte(highBits | binValue): on Python's two's-complement integers the low
      8 bits of an or are the or of the low 8 bits, which `% 256` gives */
  function PackByte(highBits: int, binValue: int): bv8 {
    ((highBits % 256) as bv8) | ((binValue % 256) as bv8)
  }

  /** The bytes written for the values, pair by pair */
  function Packed(values: seq<int>): (out: seq<bv8>)
    ensures |out| == |values| / 2
    ensures forall k :: 0 <= k < |out| ==> out[k] == PackByte(values[2 * k] * 16, values[2 * k + 1])
  {
    if |values| < 2 then []
    else [PackByte(values[0] * 16, values[1])] + Packed(values[2..])
  }

  /** The line loop of conv4Bits.py; `highBits` is the pending high nibble */
  method Pack(values: seq<int>) returns (out: seq<bv8>)
    ensures out == Packed(values)
  {
    var highBits := INVALID;
    out := [];
    for i := 0 to |values|
      invariant highBits == INVALID <==> i % 2 == 0
      invariant i % 2 == 1 ==> highBits == values[i - 1] * 16
      invariant |out| == i / 2
      invariant forall k :: 0 <= k < |out| ==> out[k] == PackByte(values[2 * k] * 16, values[2 * k + 1])
    {
      var binValue := values[i];
      if highBits == INVALID {
        highBits := binValue * 16;
      } else {
        out := out + [PackByte(highBits, binValue)];
        highBits := INVALID;
      }
    }
  }

  /** A shifted value is a multiple of 16, so it is never mistaken for INVALID */
  lemma PendingNeverInvalid(binValue: int)
    ensures binValue * 16 != INVALID
  {
  }

  lemma OrOfNibbles(h: bv8, l: bv8)
    requires h < 16 && l < 16
    ensures ((h << 4) | l) as int == h as int * 16 + l as int
    ensures ((h << 4) | l) >> 4 == h
    ensures ((h << 4) | l) & 15 == l
  {
  }

  lemma ShiftIsTimesSixteen(h: bv8)
    requires h < 16
    ensures (h as int * 16) as bv8 == h << 4
  {
  }

  lemma NibbleConversion(x: int)
    requires 0 <= x < 16
    ensures (x as bv8) as int == x && (x as bv8) < 16
  {
  }

  /** On two nibbles, PackByte is the shift-and-or done on bytes */
  lemma PackByteOfNibbles(hi: int, lo: int)
    requires 0 <= hi < 16 && 0 <= lo < 16
    ensures PackByte(hi * 16, lo) == ((hi as bv8) << 4) | (lo as bv8)
  {
    NibbleConversion(hi);
    ShiftIsTimesSixteen(hi as bv8);
    assert (hi * 16) % 256 == hi * 16 && lo % 256 == lo;
  }

  /** For two nibbles the byte is 16 * hi + lo, and splitting it gives them back */
  lemma NibbleRoundTrip(hi: int, lo: int)
    requires 0 <= hi < 16 && 0 <= lo < 16
    ensures PackByte(hi * 16, lo) as int == 16 * hi + lo
    ensures (PackByte(hi * 16, lo) >> 4) as int == hi
    ensures (PackByte(hi * 16, lo) & 15) as int == lo
  {
    NibbleConversion(hi);
    NibbleConversion(lo);
    PackByteOfNibbles(hi, lo);
    OrOfNibbles(hi as bv8, lo as bv8);
  }

  lemma ModuloOfMultiple(q: int, r: int)
    requires 0 <= r < 256
    ensures (256 * q + r) % 256 == r
  {
  }

  lemma ShiftModulo(hi: int, lo: int)
    requires 0 <= lo < 16
    ensures (hi * 16) % 256 == (hi % 16) * 16
    ensures (16 * hi + lo) % 256 == 16 * (hi % 16) + lo
  {
    var q, h := hi / 16, hi % 16;
    assert hi == 16 * q + h;
    assert hi * 16 == 256 * q + h * 16;
    assert 16 * hi + lo == 256 * q + (16 * h + lo);
    ModuloOfMultiple(q, h * 16);
    ModuloOfMultiple(q, 16 * h + lo);
  }

  /** With a nibble as the second value, the byte is the pair's value modulo 256:
      a first value above 15 loses its high bits, a negative one wraps */
  lemma PackByteTruncates(hi: int, lo: int)
    requires 0 <= lo < 16
    ensures PackByte(hi * 16, lo) as int == (16 * hi + lo) % 256
  {
    var h := hi % 16;
    ShiftModulo(hi, lo);
    assert (h * 16) % 256 == h * 16;
    assert PackByte(hi * 16, lo) == PackByte(h * 16, lo);
    NibbleRoundTrip(h, lo);
  }

  /** The two nibbles of each byte, high first */
  function Unpacked(bytes: seq<bv8>): (values: seq<int>)
    ensures |values| == 2 * |bytes|
  {
    if bytes == [] then []
    else [(bytes[0] >> 4) as int, (bytes[0] & 15) as int] + Unpacked(bytes[1..])
  }

  /** Unpacking a sequence with a given first byte */
  lemma UnpackedCons(b: bv8, bytes: seq<bv8>)
    ensures Unpacked([b] + bytes) == [(b >> 4) as int, (b & 15) as int] + Unpacked(bytes)
  {
    assert ([b] + bytes)[1..] == bytes;
  }

  /** The even-length prefix of values, split after its first pair */
  lemma EvenPrefixCons(values: seq<int>)
    requires |values| >= 2
    ensures values[..|values| - |values| % 2] == [values[0], values[1]] + values[2..][..|values[2..]| - |values[2..]| % 2]
  {
  }

  /** Values in [0, 15] come back in order from the bytes they were packed into,
      except a trailing unpaired one */
  lemma {:induction false} PackRoundTrip(values: seq<int>)
    requires forall k :: 0 <= k < |values| ==> 0 <= values[k] < 16
    ensures Unpacked(Packed(values)) == values[..|values| - |values| % 2]
    decreases |values|
  {
    if |values| >= 2 {
      var rest := values[2..];
      var b := PackByte(values[0] * 16, values[1]);
      NibbleRoundTrip(values[0], values[1]);
      PackRoundTrip(rest);
      assert Packed(values) == [b] + Packed(rest);
      UnpackedCons(b, Packed(rest));
      EvenPrefixCons(values);
    }
  }
}
