/** test/scatter.py: the input file is read 4 bytes at a time; each full record
    gives a point whose x is bytes 0-1 and whose y is bytes 2-3, both as
    little-endian unsigned 16-bit integers; the first short read ends the loop. */
module ScatterDecoder {
  import opened Common

  /** int.from_bytes(two bytes, byteorder='little') */
  function LittleEndian16(b0: uint8, b1: uint8): (v: nat)
    ensures v < 0x1_0000
    ensures v % 256 == b0 as int && v / 256 == b1 as int
  {
    b0 as int + 256 * b1 as int
  }

  /** The xs and ys lists built from the data */
  function Records(data: seq<uint8>): (r: (seq<nat>, seq<nat>))
    ensures |r.0| == |r.1| == |data| / 4
    ensures forall k :: 0 <= k < |data| / 4 ==>
              && r.0[k] == data[4 * k] as int + 256 * data[4 * k + 1] as int
              && r.1[k] == data[4 * k + 2] as int + 256 * data[4 * k + 3] as int
  {
    if |data| < 4 then ([], [])
    else
      var (xs, ys) := Records(data[4..]);
      ([LittleEndian16(data[0], data[1])] + xs, [LittleEndian16(data[2], data[3])] + ys)
  }

  /** The read loop of scatter.py over the file's bytes */
  method Decode(data: seq<uint8>) returns (xs: seq<nat>, ys: seq<nat>)
    ensures (xs, ys) == Records(data)
  {
    xs, ys := [], [];
    var pos := 0;
    while true
      invariant pos % 4 == 0 && pos <= |data|
      invariant |xs| == |ys| == pos / 4
      invariant forall k :: 0 <= k < |xs| ==>
                  xs[k] == data[4 * k] as int + 256 * data[4 * k + 1] as int
      invariant forall k :: 0 <= k < |ys| ==>
                  ys[k] == data[4 * k + 2] as int + 256 * data[4 * k + 3] as int
      decreases |data| - pos
    {
      // inputFile.read(4)
      var binValues := data[pos..Min(pos + 4, |data|)];
      if |binValues| != 4 {
        break;
      }
      xs := xs + [LittleEndian16(binValues[0], binValues[1])];
      ys := ys + [LittleEndian16(binValues[2], binValues[3])];
      pos := pos + 4;
    }
    assert pos / 4 == |data| / 4;
    assert xs == Records(data).0 && ys == Records(data).1;
  }

  /** The inverse direction: the file that holds the given points */
  function Encode(xs: seq<nat>, ys: seq<nat>): (data: seq<uint8>)
    requires |xs| == |ys|
    requires forall k :: 0 <= k < |xs| ==> xs[k] < 0x1_0000 && ys[k] < 0x1_0000
    ensures |data| == 4 * |xs|
  {
    if xs == [] then []
    else
      [(xs[0] % 256) as uint8, (xs[0] / 256) as uint8, (ys[0] % 256) as uint8, (ys[0] / 256) as uint8]
        + Encode(xs[1..], ys[1..])
  }

  /** Decoding the encoding of 16-bit points gives the points back */
  lemma {:induction false} DecodeEncode(xs: seq<nat>, ys: seq<nat>)
    requires |xs| == |ys|
    requires forall k :: 0 <= k < |xs| ==> xs[k] < 0x1_0000 && ys[k] < 0x1_0000
    ensures Records(Encode(xs, ys)) == (xs, ys)
    decreases |xs|
  {
    if xs != [] {
      var data := Encode(xs, ys);
      DecodeEncode(xs[1..], ys[1..]);
      assert data[4..] == Encode(xs[1..], ys[1..]);
      assert [xs[0]] + xs[1..] == xs && [ys[0]] + ys[1..] == ys;
    }
  }

  /** Encoding the decoded points gives back every full record; only a short
      tail is lost */
  lemma {:induction false} EncodeDecode(data: seq<uint8>)
    ensures Encode(Records(data).0, Records(data).1) == data[..4 * (|data| / 4)]
    decreases |data|
  {
    if |data| >= 4 {
      EncodeDecode(data[4..]);
      var (xs, ys) := Records(data);
      assert xs[1..] == Records(data[4..]).0 && ys[1..] == Records(data[4..]).1;
      assert data[..4 * (|data| / 4)] == data[..4] + data[4..][..4 * (|data[4..]| / 4)];
    }
  }
}
