/**
 * Base16 with the lowercase alphabet (section 8 of RFC 4648), as Go's
 * encoding/hex produces it: EncodeToString writes two lowercase digits per
 * byte, high nibble first; DecodeString accepts either case and rejects an
 * odd length or a non-hex character.
 */
module Hex {
  import opened Wrappers

  type byte = x: int | 0 <= x < 256

  predicate IsLowerHexDigit(c: char) {
    '0' <= c <= '9' || 'a' <= c <= 'f'
  }

  predicate IsLowerHex(s: string) {
    forall i :: 0 <= i < |s| ==> IsLowerHexDigit(s[i])
  }

  /** The lowercase digit of a nibble: "0123456789abcdef"[n]. */
  function NibbleChar(n: nat): (c: char)
    requires n < 16
    ensures IsLowerHexDigit(c)
  {
    if n < 10 then ('0' as int + n) as char else ('a' as int + (n - 10)) as char
  }

  /** The value of one hex digit of either case, or None for any other character. */
  function DigitValue(c: char): (v: Option<nat>)
    ensures v.Some? ==> v.value < 16
    ensures v.Some? <==> ('0' <= c <= '9' || 'a' <= c <= 'f' || 'A' <= c <= 'F')
  {
    if '0' <= c <= '9' then Some(c as int - '0' as int)
    else if 'a' <= c <= 'f' then Some(c as int - 'a' as int + 10)
    else if 'A' <= c <= 'F' then Some(c as int - 'A' as int + 10)
    else None
  }

  function Encode(src: seq<byte>): (s: string)
    ensures |s| == 2 * |src|
    ensures IsLowerHex(s)
  {
    if src == [] then []
    else [NibbleChar(src[0] / 16), NibbleChar(src[0] % 16)] + Encode(src[1..])
  }

  function Decode(s: string): (r: Option<seq<byte>>)
    ensures r.Some? ==> 2 * |r.value| == |s|
  {
    if |s| % 2 == 1 then None else DecodePairs(s)
  }

  function DecodePairs(s: string): (r: Option<seq<byte>>)
    requires |s| % 2 == 0
    ensures r.Some? ==> 2 * |r.value| == |s|
  {
    if s == [] then Some([])
    else
      match (DigitValue(s[0]), DigitValue(s[1]), DecodePairs(s[2..]))
      case (Some(hi), Some(lo), Some(rest)) => Some([hi * 16 + lo] + rest)
      case _ => None
  }

  lemma NibbleRoundTrip(n: nat)
    requires n < 16
    ensures DigitValue(NibbleChar(n)) == Some(n)
  {
  }

  /** Decoding what Encode wrote gives back the bytes. */
  lemma {:induction false} DecodeEncode(src: seq<byte>)
    ensures Decode(Encode(src)) == Some(src)
  {
    if src != [] {
      var s := Encode(src);
      NibbleRoundTrip(src[0] / 16);
      NibbleRoundTrip(src[0] % 16);
      DecodeEncode(src[1..]);
      assert s[2..] == Encode(src[1..]);
      assert [src[0]] + src[1..] == src;
    }
  }

  /** Every even-length lowercase hex string is the encoding of the bytes it decodes to. */
  lemma {:induction false} EncodeDecode(s: string)
    requires IsLowerHex(s) && |s| % 2 == 0
    ensures Decode(s).Some? && Encode(Decode(s).value) == s
  {
    if s != [] {
      EncodeDecode(s[2..]);
      var hi, lo := DigitValue(s[0]).value, DigitValue(s[1]).value;
      var b := hi * 16 + lo;
      assert b / 16 == hi && b % 16 == lo;
      assert NibbleChar(hi) == s[0] && NibbleChar(lo) == s[1];
      assert s == [s[0], s[1]] + s[2..];
    }
  }

  /** Distinct byte strings have distinct encodings. */
  lemma EncodeInjective(a: seq<byte>, b: seq<byte>)
    requires Encode(a) == Encode(b)
    ensures a == b
  {
    DecodeEncode(a);
    DecodeEncode(b);
  }
}
