/**
 * The library text helpers the register decoder and the poll loop rely on:
 * biu.ToBinaryString on one byte, hex.EncodeToString on a two-byte slice,
 * and strings.Contains.
 */
module Text {
  import opened BoundedInts

  function Pow2(n: nat): (p: nat)
    ensures p > 0
  {
    if n == 0 then 1 else 2 * Pow2(n - 1)
  }

  /** The `n` low bits of `x` as '0'/'1' characters, most significant first. */
  function Bits(x: nat, n: nat): (s: string)
    ensures |s| == n
    ensures forall k :: 0 <= k < n ==> s[k] == '0' || s[k] == '1'
  {
    if n == 0 then "" else Bits(x / 2, n - 1) + [if x % 2 == 1 then '1' else '0']
  }

  /** Reads a string of binary digits as a number, most significant digit first. */
  function BitsValue(s: string): nat
  {
    if s == [] then 0 else BitsValue(s[..|s| - 1]) * 2 + (if s[|s| - 1] == '1' then 1 else 0)
  }

  /** Reading back the digits of a number that fits in `n` bits gives the number. */
  lemma {:induction false} BitsRoundTrip(x: nat, n: nat)
    requires x < Pow2(n)
    ensures BitsValue(Bits(x, n)) == x
  {
    if n > 0 {
      BitsRoundTrip(x / 2, n - 1);
      var s := Bits(x, n);
      assert s[..|s| - 1] == Bits(x / 2, n - 1);
    }
  }

  /** biu.ToBinaryString of a byte: eight binary digits that read back as the byte. */
  function BinaryString(b: byte): (s: string)
    ensures |s| == 8
    ensures forall k :: 0 <= k < 8 ==> s[k] == '0' || s[k] == '1'
    ensures BitsValue(s) == b
  {
    assert Pow2(8) == 0x100;
    BitsRoundTrip(b, 8);
    Bits(b, 8)
  }

  /** The lower-case hexadecimal digit for `n`, as in encoding/hex's table "0123456789abcdef". */
  function HexDigit(n: nat): (c: char)
    requires n < 16
    ensures '0' <= c <= '9' || 'a' <= c <= 'f'
  {
    if n < 10 then ('0' as int + n) as char else ('a' as int + n - 10) as char
  }

  /** The value of a hexadecimal digit; 0 for any other character. */
  function HexDigitValue(c: char): nat
  {
    if '0' <= c <= '9' then c as int - '0' as int
    else if 'a' <= c <= 'f' then c as int - 'a' as int + 10
    else 0
  }

  /** A digit reads back as the value it was made from. */
  lemma HexDigitRoundTrip(n: nat)
    requires n < 16
    ensures HexDigitValue(HexDigit(n)) == n
  {
  }

  /** Reads four hexadecimal digits as a number, most significant first. */
  function HexValue(s: string): nat
    requires |s| == 4
  {
    HexDigitValue(s[0]) * 0x1000 + HexDigitValue(s[1]) * 0x100 + HexDigitValue(s[2]) * 0x10 + HexDigitValue(s[3])
  }

  /**
   * hex.EncodeToString([]byte{hi, lo}): four lower-case hexadecimal digits,
   * `hi` first, that read back as the big-endian 16-bit value of the pair.
   */
  function HexString(hi: byte, lo: byte): (s: string)
    ensures |s| == 4
    ensures forall k :: 0 <= k < 4 ==> '0' <= s[k] <= '9' || 'a' <= s[k] <= 'f'
    ensures HexValue(s) == hi * 0x100 + lo
  {
    HexDigitRoundTrip(hi / 16);
    HexDigitRoundTrip(hi % 16);
    HexDigitRoundTrip(lo / 16);
    HexDigitRoundTrip(lo % 16);
    [HexDigit(hi / 16), HexDigit(hi % 16), HexDigit(lo / 16), HexDigit(lo % 16)]
  }

  /** strings.Contains: whether `sub` occurs in `s` as a contiguous run. */
  function Contains(s: string, sub: string): bool
    decreases |s|
  {
    |sub| <= |s| && (s[..|sub|] == sub || Contains(s[1..], sub))
  }

  /** `sub` occurs in `s` starting at position `i`. */
  predicate OccursAt(s: string, sub: string, i: int)
  {
    0 <= i && i + |sub| <= |s| && s[i..i + |sub|] == sub
  }

  /** `sub` occurs in `s` at some position. */
  ghost predicate Occurs(s: string, sub: string)
  {
    exists i :: OccursAt(s, sub, i)
  }

  /** The scan in Contains finds `sub` exactly when it occurs somewhere in `s`. */
  lemma {:induction false} ContainsIsOccurs(s: string, sub: string)
    ensures Contains(s, sub) <==> Occurs(s, sub)
    decreases |s|
  {
    if |sub| <= |s| {
      if s[..|sub|] == sub {
        assert OccursAt(s, sub, 0);
      } else {
        ContainsIsOccurs(s[1..], sub);
        if Occurs(s[1..], sub) {
          var j :| OccursAt(s[1..], sub, j);
          assert 0 <= j && j + 1 + |sub| <= |s|;
          assert s[1..][j..j + |sub|] == s[j + 1..j + 1 + |sub|];
          assert OccursAt(s, sub, j + 1);
        }
        if Occurs(s, sub) {
          var i :| OccursAt(s, sub, i);
          assert i != 0;
          assert 1 <= i && i + |sub| <= |s|;
          assert s[1..][i - 1..i - 1 + |sub|] == s[i..i + |sub|];
          assert OccursAt(s[1..], sub, i - 1);
        }
      }
    }
  }
}
