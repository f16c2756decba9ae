/**
 * Byte-level helpers used by the beacon frame decoder and the NDEF model:
 * upper-case hexadecimal rendering (`'%02X' % b`), sequence reversal
 * (`s[::-1]`), Python slice semantics, two's-complement conversion of a
 * byte and big-endian 16-bit decoding (`lo | (hi << 8)`).
 */
module Bytes {
  import opened Wrappers

  newtype byte = x: int | 0 <= x < 256

  // ---------------------------------------------------------------------
  // Hexadecimal rendering
  // ---------------------------------------------------------------------

  predicate IsUpperHexDigit(c: char) {
    ('0' <= c <= '9') || ('A' <= c <= 'F')
  }

  /** The upper-case hexadecimal digit of a nibble. */
  function HexDigit(n: int): (c: char)
    requires 0 <= n < 16
    ensures IsUpperHexDigit(c)
  {
    if n < 10 then (48 + n) as char else (55 + n) as char
  }

  /** The nibble an upper-case hexadecimal digit denotes. */
  function DigitValue(c: char): (n: int)
    requires IsUpperHexDigit(c)
    ensures 0 <= n < 16
  {
    if c <= '9' then c as int - 48 else c as int - 55
  }

  lemma DigitRoundTrip(n: int)
    requires 0 <= n < 16
    ensures DigitValue(HexDigit(n)) == n
  {}

  lemma DigitInjective(c: char)
    requires IsUpperHexDigit(c)
    ensures HexDigit(DigitValue(c)) == c
  {}

  /** `'%02X' % b`: two upper-case digits, high nibble first. */
  function ByteHex(b: byte): (s: string)
    ensures |s| == 2 && IsUpperHexDigit(s[0]) && IsUpperHexDigit(s[1])
    ensures DigitValue(s[0]) * 16 + DigitValue(s[1]) == b as int
  {
    [HexDigit(b as int / 16), HexDigit(b as int % 16)]
  }

  /** `''.join(['%02X' % b for b in bs])`. */
  function HexOf(bs: seq<byte>): (s: string)
    ensures |s| == 2 * |bs|
    ensures forall i :: 0 <= i < |s| ==> IsUpperHexDigit(s[i])
  {
    if |bs| == 0 then [] else ByteHex(bs[0]) + HexOf(bs[1..])
  }

  /** Parses an upper-case hexadecimal string back into bytes; the partner of `HexOf`. */
  function Unhex(s: string): (r: Option<seq<byte>>)
    ensures r.Some? ==> 2 * |r.value| == |s|
  {
    if |s| == 0 then Some([])
    else if |s| < 2 || !IsUpperHexDigit(s[0]) || !IsUpperHexDigit(s[1]) then None
    else
      match Unhex(s[2..])
      case None => None
      case Some(rest) => Some([(DigitValue(s[0]) * 16 + DigitValue(s[1])) as byte] + rest)
  }

  /** Rendering then parsing gives back the bytes. */
  lemma {:induction false} HexRoundTrip(bs: seq<byte>)
    ensures Unhex(HexOf(bs)) == Some(bs)
  {
    if |bs| > 0 {
      var s := HexOf(bs);
      assert s == ByteHex(bs[0]) + HexOf(bs[1..]);
      assert s[2..] == HexOf(bs[1..]);
      HexRoundTrip(bs[1..]);
      assert [bs[0]] + bs[1..] == bs;
    }
  }

  /** Two digits render back from the byte they parse to. */
  lemma ByteHexOfDigits(c0: char, c1: char)
    requires IsUpperHexDigit(c0) && IsUpperHexDigit(c1)
    ensures ByteHex((DigitValue(c0) * 16 + DigitValue(c1)) as byte) == [c0, c1]
  {
    var n := DigitValue(c0) * 16 + DigitValue(c1);
    assert n / 16 == DigitValue(c0) && n % 16 == DigitValue(c1);
    DigitInjective(c0);
    DigitInjective(c1);
  }

  /** Upper-case hex is a canonical rendering: a parsable string is the rendering of what it parses to. */
  lemma {:induction false} UnhexCanonical(s: string)
    requires Unhex(s).Some?
    ensures HexOf(Unhex(s).value) == s
  {
    if |s| > 0 {
      var bs := Unhex(s).value;
      var rest := Unhex(s[2..]).value;
      assert bs == [bs[0]] + rest;
      UnhexCanonical(s[2..]);
      ByteHexOfDigits(s[0], s[1]);
      assert HexOf(bs) == ByteHex(bs[0]) + HexOf(bs[1..]);
      assert bs[1..] == rest;
      assert s == [s[0], s[1]] + s[2..];
    }
  }

  /** Equal renderings come from equal bytes. */
  lemma HexInjective(a: seq<byte>, b: seq<byte>)
    requires HexOf(a) == HexOf(b)
    ensures a == b
  {
    HexRoundTrip(a);
    HexRoundTrip(b);
  }

  // ---------------------------------------------------------------------
  // Reversal and slicing
  // ---------------------------------------------------------------------

  /** `s[::-1]`. */
  function Reverse<T>(s: seq<T>): (r: seq<T>)
    ensures |r| == |s|
    ensures forall i :: 0 <= i < |s| ==> r[i] == s[|s| - 1 - i]
  {
    if |s| == 0 then [] else Reverse(s[1..]) + [s[0]]
  }

  lemma ReverseInvolution<T>(s: seq<T>)
    ensures Reverse(Reverse(s)) == s
  {
    assert forall i :: 0 <= i < |s| ==> Reverse(Reverse(s))[i] == s[i];
  }

  function Min(a: int, b: int): int { if a <= b then a else b }

  function Max(a: int, b: int): int { if a <= b then b else a }

  /** Python's `s[lo:hi]` for non-negative bounds: never fails, clamps both bounds to the length. */
  function PySlice<T>(s: seq<T>, lo: nat, hi: nat): (r: seq<T>)
    ensures |r| == Max(0, Min(hi, |s|) - lo)
    ensures forall i :: 0 <= i < |r| ==> r[i] == s[lo + i]
  {
    var a := Min(lo, |s|);
    var b := Max(a, Min(hi, |s|));
    s[a..b]
  }

  // ---------------------------------------------------------------------
  // Signed bytes and big-endian words
  // ---------------------------------------------------------------------

  /** Two's-complement reading of a raw byte: values above 127 are negative. */
  function ToSigned(raw: byte): (v: int)
    ensures -128 <= v <= 127
    ensures v % 256 == raw as int
  {
    if raw <= 127 then raw as int else raw as int - 256
  }

  /** The unsigned byte that encodes a signed 8-bit value. */
  function ToUnsigned(v: int): (raw: byte)
    requires -128 <= v <= 127
    ensures (v < 0 ==> raw as int == v + 256) && (v >= 0 ==> raw as int == v)
  {
    (v % 256) as byte
  }

  lemma SignedRoundTrip(v: int)
    requires -128 <= v <= 127
    ensures ToSigned(ToUnsigned(v)) == v
  {}

  lemma UnsignedRoundTrip(raw: byte)
    ensures ToUnsigned(ToSigned(raw)) == raw
  {}

  function Pow2(k: nat): (p: nat)
    ensures p >= 1
  {
    if k == 0 then 1 else 2 * Pow2(k - 1)
  }

  /** Python's `a | b` on non-negative integers, bit by bit from the least significant end. */
  function BitOr(a: nat, b: nat): nat
  {
    if a == 0 then b
    else if b == 0 then a
    else 2 * BitOr(a / 2, b / 2) + (if a % 2 == 1 || b % 2 == 1 then 1 else 0)
  }

  /** Or-ing a value below 2^k into a multiple of 2^k is addition: the bits do not overlap. */
  lemma {:induction false} BitOrDisjoint(lo: nat, x: nat, k: nat)
    requires lo < Pow2(k)
    ensures BitOr(lo, x * Pow2(k)) == x * Pow2(k) + lo
  {
    if k == 0 || lo == 0 || x == 0 {
    } else {
      var b := x * Pow2(k);
      assert b == 2 * (x * Pow2(k - 1));
      assert b / 2 == x * Pow2(k - 1) && b % 2 == 0;
      BitOrDisjoint(lo / 2, x, k - 1);
    }
  }

  /** `lo | (hi << 8)`: the big-endian 16-bit value of a byte pair. */
  function Be16(hi: byte, lo: byte): (v: int)
    ensures v == hi as int * 256 + lo as int
    ensures 0 <= v < 65536
  {
    assert Pow2(8) == 256;
    BitOrDisjoint(lo as nat, hi as nat, 8);
    BitOr(lo as nat, hi as nat * Pow2(8))
  }
}
