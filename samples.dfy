/** How the bytes of a raw file become samples: one byte per sample for 8-bit
    data, and a pair of bytes in a given byte order for 16-bit data. */
module Samples {
  import opened Common

  datatype ByteOrder = LittleEndian | BigEndian

  /** The element type the file is read as. A 16-bit type carries its byte order,
      which the scripts leave to the host. */
  datatype Dtype = UInt8 | UInt16(order: ByteOrder)

  /** Bytes per sample. */
  function ItemSize(d: Dtype): nat
  {
    match d
    case UInt8 => 1
    case UInt16(_) => 2
  }

  /** Every sample of type `d` is below this bound. */
  function Limit(d: Dtype): nat
  {
    match d
    case UInt8 => 256
    case UInt16(_) => 65536
  }

  /** The 16-bit value stored in two consecutive bytes. */
  function Join(order: ByteOrder, first: Byte, second: Byte): (v: nat)
    ensures v < 65536
    ensures order == LittleEndian ==> v % 256 == first && v / 256 == second
    ensures order == BigEndian ==> v / 256 == first && v % 256 == second
  {
    match order
    case LittleEndian => first + 256 * second
    case BigEndian => 256 * first + second
  }

  /** The two bytes, in file order, that store a 16-bit value. */
  function Split(order: ByteOrder, v: nat): (p: (Byte, Byte))
    requires v < 65536
    ensures Join(order, p.0, p.1) == v
  {
    var low: Byte, high: Byte := v % 256, v / 256;
    match order
    case LittleEndian => (low, high)
    case BigEndian => (high, low)
  }

  lemma SplitJoin(order: ByteOrder, first: Byte, second: Byte)
    ensures Split(order, Join(order, first, second)) == (first, second)
  {
  }

  /** Reads a byte sequence of even length as 16-bit samples: sample `i` is built
      from bytes `2i` and `2i+1`. */
  function Decode16(order: ByteOrder, bytes: seq<Byte>): (s: seq<nat>)
    requires |bytes| % 2 == 0
    ensures |s| * 2 == |bytes|
    ensures forall i :: 0 <= i < |s| ==> s[i] == Join(order, bytes[2 * i], bytes[2 * i + 1])
    ensures forall i :: 0 <= i < |s| ==> s[i] < 65536
    decreases |bytes|
  {
    if |bytes| == 0 then []
    else [Join(order, bytes[0], bytes[1])] + Decode16(order, bytes[2..])
  }

  /** Writes 16-bit samples as bytes: the inverse of `Decode16`. */
  function Encode16(order: ByteOrder, s: seq<nat>): (bytes: seq<Byte>)
    requires forall i :: 0 <= i < |s| ==> s[i] < 65536
    ensures |bytes| == 2 * |s|
    decreases |s|
  {
    if |s| == 0 then []
    else
      var p := Split(order, s[0]);
      [p.0, p.1] + Encode16(order, s[1..])
  }

  /** Decoding what was encoded gives back the samples. */
  lemma {:induction false} DecodeEncode16(order: ByteOrder, s: seq<nat>)
    requires forall i :: 0 <= i < |s| ==> s[i] < 65536
    ensures Decode16(order, Encode16(order, s)) == s
    decreases |s|
  {
    if |s| != 0 {
      var bytes := Encode16(order, s);
      var p := Split(order, s[0]);
      assert bytes[2..] == Encode16(order, s[1..]);
      DecodeEncode16(order, s[1..]);
      assert bytes[0] == p.0 && bytes[1] == p.1;
      assert s == [s[0]] + s[1..];
    }
  }

  /** Encoding what was decoded gives back the bytes: the 16-bit reading drops,
      adds and alters nothing. */
  lemma {:induction false} EncodeDecode16(order: ByteOrder, bytes: seq<Byte>)
    requires |bytes| % 2 == 0
    ensures Encode16(order, Decode16(order, bytes)) == bytes
    decreases |bytes|
  {
    if |bytes| != 0 {
      var s := Decode16(order, bytes);
      assert s[1..] == Decode16(order, bytes[2..]);
      EncodeDecode16(order, bytes[2..]);
      SplitJoin(order, bytes[0], bytes[1]);
      assert bytes == [bytes[0], bytes[1]] + bytes[2..];
    }
  }

  /** What `np.fromfile` yields for a file read as type `d`. */
  function Decode(d: Dtype, bytes: seq<Byte>): (s: seq<nat>)
    requires |bytes| % ItemSize(d) == 0
    ensures |s| * ItemSize(d) == |bytes|
    ensures forall i :: 0 <= i < |s| ==> s[i] < Limit(d)
    ensures d == UInt8 ==> s == bytes
    ensures d.UInt16? ==> forall i :: 0 <= i < |s| ==> s[i] == Join(d.order, bytes[2 * i], bytes[2 * i + 1])
  {
    match d
    case UInt8 => bytes
    case UInt16(order) => Decode16(order, bytes)
  }
}
