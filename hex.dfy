/** Go's `encoding/hex` lower-case encoding of a byte string, and its inverse. */
module Hex {
  import opened Wrappers

  newtype uint8 = x: int | 0 <= x < 256

  const HexDigits: string := "0123456789abcdef"

  predicate IsHexDigit(c: char) {
    '0' <= c <= '9' || 'a' <= c <= 'f'
  }

  /** Every character is one of `0-9a-f`. */
  predicate IsLowerHex(s: string) {
    forall i :: 0 <= i < |s| ==> IsHexDigit(s[i])
  }

  function Digit(n: nat): (c: char)
    requires n < 16
    ensures IsHexDigit(c)
    ensures DigitValue(c) == n
  {
    HexDigits[n]
  }

  function DigitValue(c: char): (n: nat)
    requires IsHexDigit(c)
    ensures n < 16
  {
    if c <= '9' then (c - '0') as nat else (c - 'a') as nat + 10
  }

  /**
   * `hex.EncodeToString`: two characters per byte, high nibble first, so the
   * result is twice as long as the input and made of `0-9a-f` only.
   */
  function Encode(b: seq<uint8>): (s: string)
    ensures |s| == 2 * |b|
    ensures IsLowerHex(s)
    ensures forall i :: 0 <= i < |b| ==>
      s[2 * i] == Digit(b[i] as nat / 16) && s[2 * i + 1] == Digit(b[i] as nat % 16)
  {
    if b == [] then []
    else
      var s := [Digit(b[0] as nat / 16), Digit(b[0] as nat % 16)] + Encode(b[1..]);
      assert forall i :: 1 <= i < |b| ==> s[2 * i] == Encode(b[1..])[2 * (i - 1)];
      s
  }

  /** `hex.DecodeString` on lower-case input: `None` for an odd length or a non-hex character. */
  function Decode(s: string): (r: Option<seq<uint8>>)
    ensures r.Some? ==> 2 * |r.value| == |s|
  {
    if s == [] then Some([])
    else if |s| == 1 || !IsHexDigit(s[0]) || !IsHexDigit(s[1]) then None
    else match Decode(s[2..])
      case None => None
      case Some(rest) => Some([(16 * DigitValue(s[0]) + DigitValue(s[1])) as uint8] + rest)
  }

  /** Encoding loses nothing: decoding gives the bytes back. */
  lemma {:induction false} DecodeEncode(b: seq<uint8>)
    ensures Decode(Encode(b)) == Some(b)
  {
    if b != [] {
      var s := Encode(b);
      assert s[2..] == Encode(b[1..]);
      DecodeEncode(b[1..]);
      assert IsHexDigit(s[0]) && IsHexDigit(s[1]);
      assert 16 * DigitValue(s[0]) + DigitValue(s[1]) == b[0] as nat;
      assert [b[0]] + b[1..] == b;
    }
  }

  /** Distinct byte strings get distinct encodings. */
  lemma EncodeInjective(a: seq<uint8>, b: seq<uint8>)
    requires Encode(a) == Encode(b)
    ensures a == b
  {
    DecodeEncode(a);
    DecodeEncode(b);
  }
}
