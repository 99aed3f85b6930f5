/**
 * The loops of `convert`, shared by both clients: each case allocates its
 * result slice `c` and fills it in a `for` loop. Binary converts each byte
 * directly. The other cases copy each group of input bytes into a reused
 * scratch buffer `b`, in the order the display asks for; HEX hex-encodes
 * that buffer, and the numeric cases read it big-endian with binary.Read.
 * Each method is proved to compute the Codec function for its case.
 */
module Convert {
  import opened BoundedInts
  import opened Wrappers
  import opened Codec
  import Text

  /**
   * binary.Read's io.ReadFull on a reader over `r`: the first `n` bytes,
   * io.EOF when nothing is there, io.ErrUnexpectedEOF when too little is.
   */
  function ReadFull(r: seq<byte>, n: nat): Result<seq<byte>, ConvertError>
  {
    if n == 0 then Success([])
    else if |r| == 0 then Failure(EndOfFile)
    else if |r| < n then Failure(UnexpectedEndOfFile)
    else Success(r[..n])
  }

  /** The scratch buffer of the 4-byte cases receives group `i` of `data`, arranged as `a` says. */
  method Fill4(b: array<byte>, data: array<byte>, i: nat, a: Arrangement)
    requires b.Length == 4 && i < data.Length / 4 && b != data
    modifies b
    ensures b[..] == Arrange4(Quad(data[..], i), a)
  {
    if a == WordsReversed {
      b[2] := data[i * 4];
      b[3] := data[i * 4 + 1];
      b[0] := data[i * 4 + 2];
      b[1] := data[i * 4 + 3];
    } else {
      b[0] := data[i * 4];
      b[1] := data[i * 4 + 1];
      b[2] := data[i * 4 + 2];
      b[3] := data[i * 4 + 3];
    }
  }

  /** The scratch buffer of the 8-byte cases receives group `i` of `data`, arranged as `a` says. */
  method Fill8(b: array<byte>, data: array<byte>, i: nat, a: Arrangement)
    requires b.Length == 8 && i < data.Length / 8 && b != data
    modifies b
    ensures b[..] == Arrange8(Octet(data[..], i), a)
  {
    if a == WordsReversed {
      b[6] := data[i * 8];
      b[7] := data[i * 8 + 1];
      b[4] := data[i * 8 + 2];
      b[5] := data[i * 8 + 3];
      b[2] := data[i * 8 + 4];
      b[3] := data[i * 8 + 5];
      b[0] := data[i * 8 + 6];
      b[1] := data[i * 8 + 7];
    } else {
      b[0] := data[i * 8];
      b[1] := data[i * 8 + 1];
      b[2] := data[i * 8 + 2];
      b[3] := data[i * 8 + 3];
      b[4] := data[i * 8 + 4];
      b[5] := data[i * 8 + 5];
      b[6] := data[i * 8 + 6];
      b[7] := data[i * 8 + 7];
    }
  }

  /** case Binary: one binary string per byte. */
  method DecodeBinary(data: array<byte>) returns (texts: seq<string>)
    ensures texts == BinaryTexts(data[..])
  {
    var l := data.Length;
    var c := new string[l];
    for i := 0 to l
      invariant forall k :: 0 <= k < i ==> c[k] == Text.BinaryString(data[k])
    {
      c[i] := Text.BinaryString(data[i]);
    }
    texts := c[..];
  }

  /** case HEX: one hex string per pair. */
  method DecodeHex(data: array<byte>) returns (texts: seq<string>)
    ensures texts == HexTexts(data[..])
  {
    var l := data.Length;
    var c := new string[l / 2];
    var b := new byte[2];
    for i := 0 to l / 2
      invariant forall k :: 0 <= k < i ==> c[k] == Text.HexString(data[2 * k], data[2 * k + 1])
    {
      b[0] := data[i * 2];
      b[1] := data[i * 2 + 1];
      assert b[0] == data[2 * i] && b[1] == data[2 * i + 1];
      c[i] := Text.HexString(b[0], b[1]);
    }
    texts := c[..];
  }

  /** case UnsignedDecimal: one uint16 per pair. */
  method DecodeUnsigned(data: array<byte>) returns (words: seq<uint16>)
    ensures words == Words(data[..])
  {
    var l := data.Length;
    var c := new uint16[l / 2];
    var b := new byte[2];
    for i := 0 to l / 2
      invariant forall k :: 0 <= k < i ==> c[k] == Uint16Of(data[2 * k], data[2 * k + 1])
    {
      b[0] := data[i * 2];
      b[1] := data[i * 2 + 1];
      var rs := ReadFull(b[..], 2);
      if rs.Failure? {
        // the buffer always holds exactly the two bytes binary.Read asks for
        assert false;
      }
      c[i] := Uint16Of(rs.value[0], rs.value[1]);
    }
    words := c[..];
  }

  /** case Integer: one int16 per pair. */
  method DecodeInteger(data: array<byte>) returns (shorts: seq<int16>)
    ensures shorts == Shorts(data[..])
  {
    var l := data.Length;
    var c := new int16[l / 2];
    var b := new byte[2];
    for i := 0 to l / 2
      invariant forall k :: 0 <= k < i ==> c[k] == Int16Of(Uint16Of(data[2 * k], data[2 * k + 1]))
    {
      b[0] := data[i * 2];
      b[1] := data[i * 2 + 1];
      var rs := ReadFull(b[..], 2);
      if rs.Failure? {
        assert false;
      }
      c[i] := Int16Of(Uint16Of(rs.value[0], rs.value[1]));
    }
    shorts := c[..];
  }

  /** case LongInteger (words reversed) and case LongSwapped (as received): one int32 per group of four. */
  method DecodeLong(data: array<byte>, a: Arrangement) returns (longs: seq<int32>)
    ensures longs == Longs(data[..], a)
  {
    var l := data.Length;
    var c := new int32[l / 4];
    var b := new byte[4];
    for i := 0 to l / 4
      invariant forall k :: 0 <= k < i ==> c[k] == LongAt(data[..], a, k)
    {
      Fill4(b, data, i, a);
      var rs := ReadFull(b[..], 4);
      if rs.Failure? {
        assert false;
      }
      c[i] := Int32Of(Uint32Of(rs.value));
    }
    longs := c[..];
  }

  /** case Float (words reversed) and case FloatSwapped (as received): one float32 bit pattern per group of four. */
  method DecodeFloat(data: array<byte>, a: Arrangement) returns (singles: seq<uint32>)
    ensures singles == Singles(data[..], a)
  {
    var l := data.Length;
    var c := new uint32[l / 4];
    var b := new byte[4];
    for i := 0 to l / 4
      invariant forall k :: 0 <= k < i ==> c[k] == SingleAt(data[..], a, k)
    {
      Fill4(b, data, i, a);
      var rs := ReadFull(b[..], 4);
      if rs.Failure? {
        assert false;
      }
      assert rs.value == Arrange4(Quad(data[..], i), a);
      c[i] := Float32Bits(rs.value);
    }
    singles := c[..];
  }

  /** case Double (words reversed) and case DoubleSwapped (as received): one float64 bit pattern per group of eight. */
  method DecodeDouble(data: array<byte>, a: Arrangement) returns (doubles: seq<uint64>)
    ensures doubles == Doubles(data[..], a)
  {
    var l := data.Length;
    var c := new uint64[l / 8];
    var b := new byte[8];
    for i := 0 to l / 8
      invariant forall k :: 0 <= k < i ==> c[k] == DoubleAt(data[..], a, k)
    {
      Fill8(b, data, i, a);
      var rs := ReadFull(b[..], 8);
      if rs.Failure? {
        assert false;
      }
      assert rs.value == Arrange8(Octet(data[..], i), a);
      c[i] := Float64Bits(rs.value);
    }
    doubles := c[..];
  }

  /**
   * convert(display, data): the case for the display, or the unknown-display
   * error. Both clients carry this same function.
   */
  method Convert(display: byte, data: array<byte>) returns (r: Result<Sample, ConvertError>)
    ensures r == Decode(display, data[..])
  {
    if display == Binary {
      var c := DecodeBinary(data);
      r := Success(Strings(c));
    } else if display == Hex {
      var c := DecodeHex(data);
      r := Success(Strings(c));
    } else if display == UnsignedDecimal {
      var c := DecodeUnsigned(data);
      r := Success(Uint16s(c));
    } else if display == Integer {
      var c := DecodeInteger(data);
      r := Success(Int16s(c));
    } else if display == LongInteger {
      var c := DecodeLong(data, WordsReversed);
      r := Success(Int32s(c));
    } else if display == LongSwapped {
      var c := DecodeLong(data, AsReceived);
      r := Success(Int32s(c));
    } else if display == Float {
      var c := DecodeFloat(data, WordsReversed);
      r := Success(Float32s(c));
    } else if display == FloatSwapped {
      var c := DecodeFloat(data, AsReceived);
      r := Success(Float32s(c));
    } else if display == Double {
      var c := DecodeDouble(data, WordsReversed);
      r := Success(Float64s(c));
    } else if display == DoubleSwapped {
      var c := DecodeDouble(data, AsReceived);
      r := Success(Float64s(c));
    } else {
      r := Failure(NotFoundDataType);
    }
  }
}
