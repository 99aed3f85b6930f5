/**
 * The register decoder `convert` as a pure specification.
 *
 * A Modbus read returns register data as big-endian bytes (Modbus Application
 * Protocol v1.1b3, section 4.2). `convert` turns that block into one of ten
 * display representations; the multi-register ones first copy each group of
 * bytes into a scratch buffer in a fixed order and then read the buffer
 * big-endian. Floats are kept as their bit patterns: Go reads a float32 as
 * math.Float32frombits of the big-endian uint32, and likewise for float64,
 * so the model holds that uint32 (uint64) and no IEEE-754 arithmetic.
 */
module Codec {
  import opened BoundedInts
  import opened Wrappers
  import Text

  /** The display selector values; anything above DoubleSwapped is unknown. */
  const Binary: byte := 0
  const Hex: byte := 1
  const UnsignedDecimal: byte := 2
  const Integer: byte := 3
  const LongInteger: byte := 4
  const LongSwapped: byte := 5
  const Float: byte := 6
  const FloatSwapped: byte := 7
  const Double: byte := 8
  const DoubleSwapped: byte := 9

  /** The errors convert can return: the unknown display, and io.ReadFull's two from binary.Read. */
  datatype ConvertError = NotFoundDataType | EndOfFile | UnexpectedEndOfFile

  /** The typed slice convert returns inside its `interface{}`. */
  datatype Sample =
    | Strings(texts: seq<string>)
    | Uint16s(words: seq<uint16>)
    | Int16s(shorts: seq<int16>)
    | Int32s(longs: seq<int32>)
    | Float32s(singles: seq<uint32>)  // float32 values, as bit patterns
    | Float64s(doubles: seq<uint64>)  // float64 values, as bit patterns
  {
    function Length(): nat
    {
      match this
      case Strings(s) => |s|
      case Uint16s(s) => |s|
      case Int16s(s) => |s|
      case Int32s(s) => |s|
      case Float32s(s) => |s|
      case Float64s(s) => |s|
    }
  }

  /** How a decoder places a group's 16-bit words into the scratch buffer. */
  datatype Arrangement =
    | WordsReversed  // LongInteger, Float, Double: the last word of the group goes first
    | AsReceived     // LongSwapped, FloatSwapped, DoubleSwapped: natural order

  /** binary.BigEndian.Uint16 */
  function Uint16Of(hi: byte, lo: byte): uint16
  {
    hi * 0x100 + lo
  }

  /** Two's-complement reading of a 16-bit pattern (Go's int16 conversion). */
  function Int16Of(u: uint16): int16
  {
    if u < 0x8000 then u else u - 0x1_0000
  }

  /** binary.BigEndian.Uint32 */
  function Uint32Of(g: seq<byte>): (u: nat)
    requires |g| == 4
    ensures u < 0x1_0000_0000
  {
    Uint16Of(g[0], g[1]) * 0x1_0000 + Uint16Of(g[2], g[3])
  }

  /** Two's-complement reading of a 32-bit pattern (Go's int32 conversion). */
  function Int32Of(u: nat): int32
    requires u < 0x1_0000_0000
  {
    if u < 0x8000_0000 then u else u - 0x1_0000_0000
  }

  /** binary.BigEndian.Uint64 */
  function Uint64Of(g: seq<byte>): (u: nat)
    requires |g| == 8
    ensures u < 0x1_0000_0000_0000_0000
  {
    Uint32Of(g[..4]) * 0x1_0000_0000 + Uint32Of(g[4..])
  }

  /**
   * binary.Read of a float32 is math.Float32frombits(binary.BigEndian.Uint32(g));
   * the model keeps the bit pattern, as the uint32 that math.Float32bits would
   * give back.
   */
  function Float32Bits(g: seq<byte>): uint32
    requires |g| == 4
  {
    Uint32Of(g)
  }

  /**
   * binary.Read of a float64 is math.Float64frombits(binary.BigEndian.Uint64(g));
   * the model keeps the bit pattern as a uint64.
   */
  function Float64Bits(g: seq<byte>): uint64
    requires |g| == 8
  {
    Uint64Of(g)
  }

  /** The 4-byte group `i` of `data`. */
  function Quad(data: seq<byte>, i: nat): (g: seq<byte>)
    requires i < |data| / 4
    ensures |g| == 4
  {
    data[4 * i..4 * i + 4]
  }

  /** The 8-byte group `i` of `data`. */
  function Octet(data: seq<byte>, i: nat): (g: seq<byte>)
    requires i < |data| / 8
    ensures |g| == 8
  {
    data[8 * i..8 * i + 8]
  }

  /** The scratch buffer of a 4-byte decoder after it copied group `g`. */
  function Arrange4(g: seq<byte>, a: Arrangement): (b: seq<byte>)
    requires |g| == 4
    ensures |b| == 4
  {
    if a == WordsReversed then [g[2], g[3], g[0], g[1]] else g
  }

  /** The scratch buffer of an 8-byte decoder after it copied group `g`. */
  function Arrange8(g: seq<byte>, a: Arrangement): (b: seq<byte>)
    requires |g| == 8
    ensures |b| == 8
  {
    if a == WordsReversed then [g[6], g[7], g[4], g[5], g[2], g[3], g[0], g[1]] else g
  }

  // One function per element kind: element i of each display's result.

  function BinaryTexts(data: seq<byte>): seq<string>
  {
    seq(|data|, i requires 0 <= i < |data| => Text.BinaryString(data[i]))
  }

  function HexTexts(data: seq<byte>): seq<string>
  {
    seq(|data| / 2, i requires 0 <= i < |data| / 2 => Text.HexString(data[2 * i], data[2 * i + 1]))
  }

  function Words(data: seq<byte>): seq<uint16>
  {
    seq(|data| / 2, i requires 0 <= i < |data| / 2 => Uint16Of(data[2 * i], data[2 * i + 1]))
  }

  function Shorts(data: seq<byte>): seq<int16>
  {
    seq(|data| / 2, i requires 0 <= i < |data| / 2 => Int16Of(Uint16Of(data[2 * i], data[2 * i + 1])))
  }

  function LongAt(data: seq<byte>, a: Arrangement, i: nat): int32
    requires i < |data| / 4
  {
    Int32Of(Uint32Of(Arrange4(Quad(data, i), a)))
  }

  function Longs(data: seq<byte>, a: Arrangement): seq<int32>
  {
    seq(|data| / 4, i requires 0 <= i < |data| / 4 => LongAt(data, a, i))
  }

  function SingleAt(data: seq<byte>, a: Arrangement, i: nat): uint32
    requires i < |data| / 4
  {
    Float32Bits(Arrange4(Quad(data, i), a))
  }

  function Singles(data: seq<byte>, a: Arrangement): seq<uint32>
  {
    seq(|data| / 4, i requires 0 <= i < |data| / 4 => SingleAt(data, a, i))
  }

  function DoubleAt(data: seq<byte>, a: Arrangement, i: nat): uint64
    requires i < |data| / 8
  {
    Float64Bits(Arrange8(Octet(data, i), a))
  }

  function Doubles(data: seq<byte>, a: Arrangement): seq<uint64>
  {
    seq(|data| / 8, i requires 0 <= i < |data| / 8 => DoubleAt(data, a, i))
  }

  /** convert(display, data): the decoded sample, or the unknown-display error. */
  function Decode(display: byte, data: seq<byte>): Result<Sample, ConvertError>
  {
    if display == Binary then Success(Strings(BinaryTexts(data)))
    else if display == Hex then Success(Strings(HexTexts(data)))
    else if display == UnsignedDecimal then Success(Uint16s(Words(data)))
    else if display == Integer then Success(Int16s(Shorts(data)))
    else if display == LongInteger then Success(Int32s(Longs(data, WordsReversed)))
    else if display == LongSwapped then Success(Int32s(Longs(data, AsReceived)))
    else if display == Float then Success(Float32s(Singles(data, WordsReversed)))
    else if display == FloatSwapped then Success(Float32s(Singles(data, AsReceived)))
    else if display == Double then Success(Float64s(Doubles(data, WordsReversed)))
    else if display == DoubleSwapped then Success(Float64s(Doubles(data, AsReceived)))
    else Failure(NotFoundDataType)
  }

  /** The number of input bytes behind one element of a display's result. */
  function Width(display: byte): nat
    requires display <= DoubleSwapped
  {
    if display == Binary then 1
    else if display <= Integer then 2
    else if display <= FloatSwapped then 4
    else 8
  }

  // ---- Properties of the decoder ----

  /**
   * Every known display decodes every block, trailing bytes that do not fill
   * an element are ignored, and only an unknown display is an error.
   */
  lemma DecodeTotal(display: byte, data: seq<byte>)
    ensures display <= DoubleSwapped ==>
      Decode(display, data).Success? && Decode(display, data).value.Length() == |data| / Width(display)
    ensures display > DoubleSwapped ==> Decode(display, data) == Failure(NotFoundDataType)
  {
  }

  /** An empty (or nil) block gives an empty sample for every known display. */
  lemma DecodeEmpty(display: byte)
    requires display <= DoubleSwapped
    ensures Decode(display, []).Success? && Decode(display, []).value.Length() == 0
  {
    DecodeTotal(display, []);
  }

  /** Binary: one eight-digit binary string per byte, reading back as that byte. */
  lemma BinaryElements(data: seq<byte>, i: nat)
    requires i < |data|
    ensures Decode(Binary, data).value.Strings?
    ensures var t := Decode(Binary, data).value.texts;
      |t| == |data| && |t[i]| == 8 && Text.BitsValue(t[i]) == data[i]
      && forall k :: 0 <= k < 8 ==> t[i][k] == '0' || t[i][k] == '1'
  {
  }

  /** Hex: one four-digit lower-case string per pair, natural order, reading back as the pair. */
  lemma HexElements(data: seq<byte>, i: nat)
    requires i < |data| / 2
    ensures var t := Decode(Hex, data).value.texts;
      |t| == |data| / 2 && |t[i]| == 4 && Text.HexValue(t[i]) == data[2 * i] as int * 256 + data[2 * i + 1]
      && forall k :: 0 <= k < 4 ==> '0' <= t[i][k] <= '9' || 'a' <= t[i][k] <= 'f'
  {
  }

  /** UnsignedDecimal: element i is the big-endian value of bytes 2i and 2i+1. */
  lemma UnsignedElements(data: seq<byte>, i: nat)
    requires i < |data| / 2
    ensures var w := Decode(UnsignedDecimal, data).value.words;
      |w| == |data| / 2 && w[i] == data[2 * i] as int * 256 + data[2 * i + 1]
  {
  }

  /**
   * Integer: element i is the two's-complement reading of the same word as
   * UnsignedDecimal's element i.
   */
  lemma IntegerIsSignedWord(data: seq<byte>, i: nat)
    requires i < |data| / 2
    ensures var u := Decode(UnsignedDecimal, data).value.words;
            var v := Decode(Integer, data).value.shorts;
      |v| == |u| && -0x8000 <= v[i] < 0x8000
      && (if u[i] < 0x8000 then v[i] == u[i] else v[i] == u[i] as int - 0x1_0000)
      && v[i] as int % 0x1_0000 == u[i]
  {
  }

  /** LongInteger and LongSwapped: which bytes make up element i, and in what order. */
  lemma LongElements(data: seq<byte>, i: nat)
    requires i < |data| / 4
    ensures var l := Decode(LongInteger, data).value.longs;
            var s := Decode(LongSwapped, data).value.longs;
      |l| == |s| == |data| / 4
      && l[i] == Int32Of(Uint32Of([data[4 * i + 2], data[4 * i + 3], data[4 * i], data[4 * i + 1]]))
      && s[i] == Int32Of(Uint32Of([data[4 * i], data[4 * i + 1], data[4 * i + 2], data[4 * i + 3]]))
  {
    assert Quad(data, i) == [data[4 * i], data[4 * i + 1], data[4 * i + 2], data[4 * i + 3]];
  }

  /** Float and FloatSwapped: which bytes make up the bit pattern of element i, and in what order. */
  lemma FloatElements(data: seq<byte>, i: nat)
    requires i < |data| / 4
    ensures var f := Decode(Float, data).value.singles;
            var s := Decode(FloatSwapped, data).value.singles;
      |f| == |s| == |data| / 4
      && f[i] == Uint32Of([data[4 * i + 2], data[4 * i + 3], data[4 * i], data[4 * i + 1]])
      && s[i] == Uint32Of([data[4 * i], data[4 * i + 1], data[4 * i + 2], data[4 * i + 3]])
  {
    assert Quad(data, i) == [data[4 * i], data[4 * i + 1], data[4 * i + 2], data[4 * i + 3]];
  }

  /** Double and DoubleSwapped: which bytes make up element i, and in what order. */
  lemma DoubleElements(data: seq<byte>, i: nat)
    requires i < |data| / 8
    ensures var d := Decode(Double, data).value.doubles;
            var s := Decode(DoubleSwapped, data).value.doubles;
            var o := data[8 * i..8 * i + 8];
      |d| == |s| == |data| / 8
      && d[i] == Uint64Of([o[6], o[7], o[4], o[5], o[2], o[3], o[0], o[1]])
      && s[i] == Uint64Of(o)
  {
    var o := data[8 * i..8 * i + 8];
    assert Octet(data, i) == o;
    assert Decode(Double, data).value.doubles[i] == DoubleAt(data, WordsReversed, i);
    assert Decode(DoubleSwapped, data).value.doubles[i] == DoubleAt(data, AsReceived, i);
  }

  /** The two's-complement reading of a 32-bit pattern has that pattern modulo 2^32. */
  lemma Int32Bits(u: nat)
    requires u < 0x1_0000_0000
    ensures Int32Of(u) as int % 0x1_0000_0000 == u
  {
  }

  /** Element i read as a float has the bit pattern of element i read as a long. */
  lemma SingleIsLongBits(data: seq<byte>, a: Arrangement, i: nat)
    requires i < |data| / 4
    ensures SingleAt(data, a, i) == LongAt(data, a, i) as int % 0x1_0000_0000
  {
    var u := Uint32Of(Arrange4(Quad(data, i), a));
    Int32Bits(u);
  }

  /**
   * Float (FloatSwapped) has the bits of LongInteger (LongSwapped): the float's
   * bit pattern is the 32-bit two's-complement pattern of the long.
   */
  lemma FloatSharesLongBits(data: seq<byte>, i: nat)
    requires i < |data| / 4
    ensures Decode(Float, data).value.singles[i] == Decode(LongInteger, data).value.longs[i] as int % 0x1_0000_0000
    ensures Decode(FloatSwapped, data).value.singles[i] == Decode(LongSwapped, data).value.longs[i] as int % 0x1_0000_0000
  {
    SingleIsLongBits(data, WordsReversed, i);
    SingleIsLongBits(data, AsReceived, i);
  }

  // ---- Word-order symmetry ----

  /** `data` with the two 16-bit halves of every complete 4-byte group exchanged; trailing bytes stay. */
  function SwapHalves(data: seq<byte>): (r: seq<byte>)
    ensures |r| == |data|
    decreases |data|
  {
    if |data| < 4 then data else Arrange4(data[..4], WordsReversed) + SwapHalves(data[4..])
  }

  /** Arranging a group as LongInteger does, twice, restores it. */
  lemma Arrange4Twice(g: seq<byte>)
    requires |g| == 4
    ensures Arrange4(Arrange4(g, WordsReversed), WordsReversed) == g
  {
  }

  /** Swapping the halves twice gives back the block. */
  lemma {:induction false} SwapHalvesInvolution(data: seq<byte>)
    ensures SwapHalves(SwapHalves(data)) == data
    decreases |data|
  {
    if |data| >= 4 {
      var r := SwapHalves(data);
      assert r[..4] == Arrange4(data[..4], WordsReversed);
      assert r[4..] == SwapHalves(data[4..]);
      SwapHalvesInvolution(data[4..]);
      Arrange4Twice(data[..4]);
      assert data == data[..4] + data[4..];
    }
  }

  /** Group i of a block is group i - 1 of the block without its first group. */
  lemma QuadOfTail(data: seq<byte>, i: nat)
    requires 0 < i < |data| / 4
    ensures i - 1 < |data[4..]| / 4 && Quad(data, i) == Quad(data[4..], i - 1)
  {
  }

  /** Group i of the half-swapped block is group i with its words exchanged. */
  lemma {:induction false} QuadOfSwapHalves(data: seq<byte>, i: nat)
    requires i < |data| / 4
    ensures Quad(SwapHalves(data), i) == Arrange4(Quad(data, i), WordsReversed)
    decreases i
  {
    var r := SwapHalves(data);
    if i == 0 {
      assert Quad(r, 0) == r[..4];
    } else {
      assert r[4..] == SwapHalves(data[4..]);
      QuadOfSwapHalves(data[4..], i - 1);
      QuadOfTail(r, i);
      QuadOfTail(data, i);
    }
  }

  /**
   * LongInteger on a block reads what LongSwapped reads on the block with the
   * halves of every group exchanged, and the other way round.
   */
  lemma LongWordSwap(data: seq<byte>)
    ensures Decode(LongInteger, data) == Decode(LongSwapped, SwapHalves(data))
    ensures Decode(LongSwapped, data) == Decode(LongInteger, SwapHalves(data))
  {
    var s := SwapHalves(data);
    forall i | 0 <= i < |data| / 4
      ensures LongAt(data, WordsReversed, i) == LongAt(s, AsReceived, i)
      ensures LongAt(data, AsReceived, i) == LongAt(s, WordsReversed, i)
    {
      QuadOfSwapHalves(data, i);
      Arrange4Twice(Quad(data, i));
    }
    assert Longs(data, WordsReversed) == Longs(s, AsReceived);
    assert Longs(data, AsReceived) == Longs(s, WordsReversed);
  }

  /** The same symmetry between Float and FloatSwapped. */
  lemma FloatWordSwap(data: seq<byte>)
    ensures Decode(Float, data) == Decode(FloatSwapped, SwapHalves(data))
    ensures Decode(FloatSwapped, data) == Decode(Float, SwapHalves(data))
  {
    var s := SwapHalves(data);
    forall i | 0 <= i < |data| / 4
      ensures SingleAt(data, WordsReversed, i) == SingleAt(s, AsReceived, i)
      ensures SingleAt(data, AsReceived, i) == SingleAt(s, WordsReversed, i)
    {
      QuadOfSwapHalves(data, i);
      Arrange4Twice(Quad(data, i));
    }
    assert Singles(data, WordsReversed) == Singles(s, AsReceived);
    assert Singles(data, AsReceived) == Singles(s, WordsReversed);
  }

  /** `data` with the four 16-bit words of every complete 8-byte group in reverse order; trailing bytes stay. */
  function ReverseWords(data: seq<byte>): (r: seq<byte>)
    ensures |r| == |data|
    decreases |data|
  {
    if |data| < 8 then data else Arrange8(data[..8], WordsReversed) + ReverseWords(data[8..])
  }

  /** Arranging a group as Double does, twice, restores it. */
  lemma Arrange8Twice(g: seq<byte>)
    requires |g| == 8
    ensures Arrange8(Arrange8(g, WordsReversed), WordsReversed) == g
  {
  }

  /** Reversing the words twice gives back the block. */
  lemma {:induction false} ReverseWordsInvolution(data: seq<byte>)
    ensures ReverseWords(ReverseWords(data)) == data
    decreases |data|
  {
    if |data| >= 8 {
      var r := ReverseWords(data);
      assert r[..8] == Arrange8(data[..8], WordsReversed);
      assert r[8..] == ReverseWords(data[8..]);
      ReverseWordsInvolution(data[8..]);
      Arrange8Twice(data[..8]);
      assert data == data[..8] + data[8..];
    }
  }

  /** Group i of a block is group i - 1 of the block without its first group. */
  lemma OctetOfTail(data: seq<byte>, i: nat)
    requires 0 < i < |data| / 8
    ensures i - 1 < |data[8..]| / 8 && Octet(data, i) == Octet(data[8..], i - 1)
  {
  }

  /** Group i of the word-reversed block is group i as Double arranges it. */
  lemma {:induction false} OctetOfReverseWords(data: seq<byte>, i: nat)
    requires i < |data| / 8
    ensures Octet(ReverseWords(data), i) == Arrange8(Octet(data, i), WordsReversed)
    decreases i
  {
    var r := ReverseWords(data);
    if i == 0 {
      assert Octet(r, 0) == r[..8];
    } else {
      assert r[8..] == ReverseWords(data[8..]);
      OctetOfReverseWords(data[8..], i - 1);
      OctetOfTail(r, i);
      OctetOfTail(data, i);
    }
  }

  /** Double on a block reads what DoubleSwapped reads on the word-reversed block, and the other way round. */
  lemma DoubleWordReversal(data: seq<byte>)
    ensures Decode(Double, data) == Decode(DoubleSwapped, ReverseWords(data))
    ensures Decode(DoubleSwapped, data) == Decode(Double, ReverseWords(data))
  {
    var s := ReverseWords(data);
    forall i | 0 <= i < |data| / 8
      ensures DoubleAt(data, WordsReversed, i) == DoubleAt(s, AsReceived, i)
      ensures DoubleAt(data, AsReceived, i) == DoubleAt(s, WordsReversed, i)
    {
      OctetOfReverseWords(data, i);
      Arrange8Twice(Octet(data, i));
    }
    assert Doubles(data, WordsReversed) == Doubles(s, AsReceived);
    assert Doubles(data, AsReceived) == Doubles(s, WordsReversed);
  }

  // ---- Concrete vectors ----

  /** Hex of the pair 0x00 0x0A is "000a". */
  lemma HexVector()
    ensures Decode(Hex, [0x00, 0x0A]) == Success(Strings(["000a"]))
  {
    assert HexTexts([0x00, 0x0A]) == [Text.HexString(0x00, 0x0A)];
    assert Text.HexString(0x00, 0x0A) == "000a";
  }

  /** UnsignedDecimal of 0x00 0x0A is 10. */
  lemma UnsignedVector()
    ensures Decode(UnsignedDecimal, [0x00, 0x0A]) == Success(Uint16s([10]))
  {
    assert Words([0x00, 0x0A]) == [10];
  }

  /** Integer of 0xFF 0xF6 is -10. */
  lemma IntegerVector()
    ensures Decode(Integer, [0xFF, 0xF6]) == Success(Int16s([-10]))
  {
    assert Shorts([0xFF, 0xF6]) == [-10];
  }

  /** Binary of 0x05 is "00000101". */
  lemma BinaryVector()
    ensures Decode(Binary, [0x05]) == Success(Strings(["00000101"]))
  {
    assert BinaryTexts([0x05]) == [Text.BinaryString(0x05)];
    assert Text.BinaryString(0x05) == "00000101";
  }

  /**
   * Float of 3D 1A 59 DF reads the words swapped back, 59 DF 3D 1A, whose
   * big-endian pattern is 0x59DF3D1A.
   */
  lemma FloatVector()
    ensures Decode(Float, [0x3D, 0x1A, 0x59, 0xDF]) == Success(Float32s([0x59DF_3D1A]))
  {
    var d: seq<byte> := [0x3D, 0x1A, 0x59, 0xDF];
    assert Quad(d, 0) == d;
    assert Arrange4(d, WordsReversed) == [0x59, 0xDF, 0x3D, 0x1A];
    assert Uint32Of([0x59, 0xDF, 0x3D, 0x1A]) == 0x59DF_3D1A;
    assert Singles(d, WordsReversed) == [0x59DF_3D1A];
  }

  /** UnsignedDecimal of 59 DF 3D 1A is the two words 0x59DF and 0x3D1A. */
  lemma TwoWordVector()
    ensures Decode(UnsignedDecimal, [0x59, 0xDF, 0x3D, 0x1A]) == Success(Uint16s([0x59DF, 0x3D1A]))
  {
    assert Words([0x59, 0xDF, 0x3D, 0x1A]) == [0x59DF, 0x3D1A];
  }
}
