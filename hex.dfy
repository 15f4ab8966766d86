/**
 * The two hexadecimal conversions of the password codec: Rust's `{:x}`
 * formatting of a `u8`, and `u8::from_str_radix(_, 16)` on the two-character
 * slices of a hash segment.
 */
module Hex {
  import opened Wrappers

  /** Rust's `u8`. */
  type uint8 = x: int | 0 <= x < 256

  /** The characters `char::to_digit(16)` accepts: ASCII digits and both cases of a-f. */
  predicate IsHexDigit(c: char) {
    '0' <= c <= '9' || 'a' <= c <= 'f' || 'A' <= c <= 'F'
  }

  /** `char::to_digit(16)` of a hex digit. */
  function DigitValue(c: char): (v: nat)
    requires IsHexDigit(c)
    ensures v < 16
  {
    if '0' <= c <= '9' then c as int - '0' as int
    else if 'a' <= c <= 'f' then c as int - 'a' as int + 10
    else c as int - 'A' as int + 10
  }

  /** The lower-case digit `{:x}` writes for a value below 16; `DigitValue` reads it back. */
  function LowerDigit(v: nat): (c: char)
    requires v < 16
    ensures IsHexDigit(c) && DigitValue(c) == v
    ensures !('A' <= c <= 'F')
  {
    if v < 10 then ('0' as int + v) as char else ('a' as int + v - 10) as char
  }

  /** `format!("{:x}", b)` for a `u8`: lower-case hex without a leading zero. */
  function LowerHex(b: uint8): (s: string)
    ensures |s| == if b < 16 then 1 else 2
  {
    if b < 16 then [LowerDigit(b)] else [LowerDigit(b / 16), LowerDigit(b % 16)]
  }

  /** `format!("{:02x}", b)`: lower-case hex, always two digits. */
  function LowerHexPadded(b: uint8): (s: string)
    ensures |s| == 2
    ensures FromStrRadix16(s) == Some(b)
  {
    [LowerDigit(b / 16), LowerDigit(b % 16)]
  }

  /** From 0x10 on, the unpadded form is already two digits, and so the padded one. */
  lemma LowerHexPaddedFromSixteen(b: uint8)
    ensures LowerHex(b) == LowerHexPadded(b) <==> b >= 16
  {
  }


  /**
   * `u8::from_str_radix(pair, 16)` on a two-character slice: an optional
   * leading `+`, then hex digits of either case. For an unsigned type `-` is
   * not a sign, and two digits never overflow a `u8`.
   */
  function FromStrRadix16(pair: string): (r: Option<uint8>)
    requires |pair| == 2
    ensures r.Some? <==> IsHexDigit(pair[1]) && (pair[0] == '+' || IsHexDigit(pair[0]))
  {
    if pair[0] == '+' then
      if IsHexDigit(pair[1]) then Some(DigitValue(pair[1])) else None
    else if IsHexDigit(pair[0]) && IsHexDigit(pair[1]) then
      Some(16 * DigitValue(pair[0]) + DigitValue(pair[1]))
    else
      None
  }

  /** Inputs that show how lenient the decoding is: a `+` sign and upper case are accepted. */
  lemma FromStrRadix16Examples()
    ensures FromStrRadix16("+f") == Some(15)
    ensures FromStrRadix16("AB") == Some(171) && FromStrRadix16("ab") == Some(171)
    ensures FromStrRadix16("-1") == None && FromStrRadix16("++") == None
  {
  }


  /** The `k`-th pair of characters of `s`, `s[2k..2k+2]`. */
  function Pair(s: string, k: nat): string
    requires 2 * k + 2 <= |s|
  {
    s[2 * k..2 * k + 2]
  }

  /** Does every pair of `s` decode? */
  predicate AllPairsDecode(s: string)
    requires |s| % 2 == 0
  {
    forall k :: 0 <= k < |s| / 2 ==> FromStrRadix16(Pair(s, k)).Some?
  }

  /** The bytes of a hex segment, pair by pair, or `None` if some pair does not decode. */
  function DecodePairs(s: string): (r: Option<seq<uint8>>)
    requires |s| % 2 == 0
    ensures r.Some? ==> |r.value| == |s| / 2
  {
    if AllPairsDecode(s) then
      Some(seq(|s| / 2, k requires 0 <= k < |s| / 2 => FromStrRadix16(Pair(s, k)).value))
    else
      None
  }

  /** The hash bytes written one after another with `{:x}`, as `Display` does. */
  function HexUnpadded(h: seq<uint8>): string
  {
    if h == [] then [] else HexUnpadded(h[..|h| - 1]) + LowerHex(h[|h| - 1])
  }

  /** The hash bytes written one after another with `{:02x}`. */
  function HexPadded(h: seq<uint8>): string
  {
    if h == [] then [] else HexPadded(h[..|h| - 1]) + LowerHexPadded(h[|h| - 1])
  }

  /**
   * The unpadded text has two characters per byte exactly when no byte is
   * below 0x10; each smaller byte costs one character.
   */
  lemma {:induction false} HexUnpaddedLength(h: seq<uint8>)
    ensures |HexUnpadded(h)| <= 2 * |h|
    ensures |HexUnpadded(h)| == 2 * |h| <==> forall k :: 0 <= k < |h| ==> h[k] >= 16
  {
    if h != [] {
      var init := h[..|h| - 1];
      HexUnpaddedLength(init);
      assert forall k :: 0 <= k < |init| ==> init[k] == h[k];
    }
  }

  /** When no byte is below 0x10 the two encodings agree. */
  lemma {:induction false} HexUnpaddedIsPadded(h: seq<uint8>)
    requires forall k :: 0 <= k < |h| ==> h[k] >= 16
    ensures HexUnpadded(h) == HexPadded(h)
  {
    if h != [] {
      var init := h[..|h| - 1];
      assert forall k :: 0 <= k < |init| ==> init[k] == h[k];
      HexUnpaddedIsPadded(init);
      LowerHexPaddedFromSixteen(h[|h| - 1]);
    }
  }

  /** Pair `k` of the padded text is the padded form of byte `k`. */
  lemma {:induction false} HexPaddedPairs(h: seq<uint8>)
    ensures |HexPadded(h)| == 2 * |h|
    ensures forall k :: 0 <= k < |h| ==> Pair(HexPadded(h), k) == LowerHexPadded(h[k])
  {
    if h != [] {
      var init := h[..|h| - 1];
      HexPaddedPairs(init);
      var s := HexPadded(h);
      assert s == HexPadded(init) + LowerHexPadded(h[|h| - 1]);
      forall k | 0 <= k < |h|
        ensures Pair(s, k) == LowerHexPadded(h[k])
      {
        if k < |init| {
          assert Pair(s, k) == Pair(HexPadded(init), k);
          assert init[k] == h[k];
        } else {
          assert Pair(s, k) == LowerHexPadded(h[|h| - 1]);
        }
      }
    }
  }

  /** Decoding the padded text gives the bytes back. */
  lemma DecodeHexPadded(h: seq<uint8>)
    ensures |HexPadded(h)| == 2 * |h|
    ensures DecodePairs(HexPadded(h)) == Some(h)
  {
    HexPaddedPairs(h);
    var s := HexPadded(h);
    assert AllPairsDecode(s);
    assert DecodePairs(s).value == h;
  }
}
