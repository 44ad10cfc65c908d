/** The per-byte pieces shared by the two hex codecs of the repository:
    writing one byte as two lower-case hexadecimal digits
    (`b.toString(16).padStart(2, '0')`) and reading two characters back
    (`parseInt(pair, 16)` stored into a `Uint8Array`).  The digit alphabet is
    the base16 alphabet of section 8 of RFC 4648, written in lower case. */
module Hex {
  import opened JsSemantics

  /** The regular-expression class `[a-fA-F0-9]`. */
  predicate IsHexChar(c: char) {
    ('0' <= c <= '9') || ('a' <= c <= 'f') || ('A' <= c <= 'F')
  }

  predicate AllHex(s: string) {
    forall i :: 0 <= i < |s| ==> IsHexChar(s[i])
  }

  /** The regex class and "a digit of radix 16" are the same set of characters. */
  lemma {:induction false} HexCharIsRadix16Digit(c: char)
    ensures IsHexChar(c) <==> IsDigitIn(c, 16)
  {
  }

  lemma {:induction false} AllHexIsRadix16(s: string)
    ensures AllHex(s) <==> AllDigitsIn(s, 16)
  {
    forall i | 0 <= i < |s| {
      HexCharIsRadix16Digit(s[i]);
    }
  }

  /** `s.padStart(width, fill)` with a one-character fill. */
  function PadStart(s: string, width: nat, fill: char): (r: string)
    ensures |s| >= width ==> r == s
    ensures |s| < width ==> |r| == width && r[width - |s|..] == s
    ensures forall i :: 0 <= i < |r| - |s| ==> r[i] == fill
  {
    if |s| >= width then s else seq(width - |s|, _ => fill) + s
  }

  /** `b.toString(16).padStart(2, '0')`. */
  function ByteToHex(b: Byte): string {
    PadStart(ToRadixString(b, 16), 2, '0')
  }

  /** The two characters written for a byte are its high and low nibble as
      lower-case hexadecimal digits. */
  lemma {:induction false} ByteToHexDigits(b: Byte)
    ensures ByteToHex(b) == [DigitChar(b / 16), DigitChar(b % 16)]
  {
    if b < 16 {
      assert ToRadixString(b, 16) == [DigitChar(b)];
    } else {
      assert ToRadixString(b / 16, 16) == [DigitChar(b / 16)];
      assert ToRadixString(b, 16) == [DigitChar(b / 16), DigitChar(b % 16)];
    }
  }

  /** A lower-case hex digit, as `toString(16)` writes it. */
  predicate IsLowerHexChar(c: char) {
    ('0' <= c <= '9') || ('a' <= c <= 'f')
  }

  lemma {:induction false} ByteToHexIsLowerHex(b: Byte)
    ensures ByteToHex(b) == [DigitChar(b / 16), DigitChar(b % 16)]
    ensures |ByteToHex(b)| == 2
    ensures IsLowerHexChar(ByteToHex(b)[0]) && IsLowerHexChar(ByteToHex(b)[1])
  {
    ByteToHexDigits(b);
  }

  /** `parseInt(pair, 16)` stored into a `Uint8Array` element. */
  function ParseByte(pair: string): Byte {
    ToUint8(ParseIntHex(pair))
  }

  /** Reading back the two digits written for a byte gives the byte. */
  lemma {:induction false} ParseByteOfByteToHex(b: Byte)
    ensures ParseByte(ByteToHex(b)) == b
  {
    ByteToHexDigits(b);
    var h := ByteToHex(b);
    assert AllDigitsIn(h, 16) by {
      assert IsDigitIn(h[0], 16) && IsDigitIn(h[1], 16);
    }
    ParseIntHexOfDigits(h);
    DigitsValueOfPair(h, 16);
  }

  /** ASCII lower-casing of one hexadecimal digit. */
  function ToLowerHexChar(c: char): (r: char)
    requires IsHexChar(c)
    ensures IsLowerHexChar(r)
    ensures DigitValue(r) == DigitValue(c)
  {
    if 'A' <= c <= 'F' then (c as int - 'A' as int + 'a' as int) as char else c
  }

  function ToLowerHex(s: string): (r: string)
    requires AllHex(s)
    ensures |r| == |s|
    ensures forall i :: 0 <= i < |s| ==> r[i] == ToLowerHexChar(s[i])
  {
    seq(|s|, i requires 0 <= i < |s| => ToLowerHexChar(s[i]))
  }

  /** Lower-casing works character by character, so it splits at any point. */
  lemma {:induction false} ToLowerHexSplit(h: string)
    requires |h| >= 2 && AllHex(h)
    ensures AllHex(h[..2]) && AllHex(h[2..])
    ensures ToLowerHex(h) == ToLowerHex(h[..2]) + ToLowerHex(h[2..])
  {
    assert forall i :: 0 <= i < 2 ==> h[..2][i] == h[i];
    assert forall i :: 0 <= i < |h| - 2 ==> h[2..][i] == h[i + 2];
  }

  /** Writing back the byte read from two hex digits gives the same digits,
      lower-cased. */
  lemma {:induction false} ByteToHexOfParseByte(pair: string)
    requires |pair| == 2 && AllHex(pair)
    ensures ByteToHex(ParseByte(pair)) == ToLowerHex(pair)
  {
    var b := ParseHexPair(pair);
    ByteToHexOfNibbles(pair, b);
  }

  lemma {:induction false} ByteToHexOfNibbles(pair: string, b: Byte)
    requires |pair| == 2 && AllHex(pair)
    requires DigitValue(pair[0]) < 16 && DigitValue(pair[1]) < 16
    requires b == DigitValue(pair[0]) * 16 + DigitValue(pair[1])
    ensures ByteToHex(b) == ToLowerHex(pair)
  {
    NibblesOf(DigitValue(pair[0]), DigitValue(pair[1]));
    ByteToHexDigits(b);
    LowerHexOfPair(pair);
  }

  /** Lower-casing two hex digits writes each digit's value the way
      `toString(16)` does. */
  lemma {:induction false} LowerHexOfPair(pair: string)
    requires |pair| == 2 && AllHex(pair)
    ensures DigitValue(pair[0]) < 16 && DigitValue(pair[1]) < 16
    ensures ToLowerHex(pair) == [DigitChar(DigitValue(pair[0])), DigitChar(DigitValue(pair[1]))]
  {
    var l := ToLowerHex(pair);
    assert IsHexChar(pair[0]) && IsHexChar(pair[1]);
    DigitCharOfValue(l[0]);
    DigitCharOfValue(l[1]);
    assert l == [l[0], l[1]];
  }

  /** Two hexadecimal digits are read as high and low nibble. */
  lemma {:induction false} ParseHexPair(pair: string) returns (b: Byte)
    requires |pair| == 2 && AllHex(pair)
    ensures DigitValue(pair[0]) < 16 && DigitValue(pair[1]) < 16
    ensures b == DigitValue(pair[0]) * 16 + DigitValue(pair[1]) && ParseByte(pair) == b
  {
    AllHexIsRadix16(pair);
    ParseIntHexOfDigits(pair);
    DigitsValueOfPair(pair, 16);
    assert IsDigitIn(pair[0], 16) && IsDigitIn(pair[1], 16);
    b := DigitValue(pair[0]) * 16 + DigitValue(pair[1]);
  }

  lemma {:induction false} NibblesOf(hi: nat, lo: nat)
    requires hi < 16 && lo < 16
    ensures (hi * 16 + lo) / 16 == hi && (hi * 16 + lo) % 16 == lo
  {
  }

  /** A lower-case hex digit is the digit `toString(16)` writes for its value. */
  lemma {:induction false} DigitCharOfValue(c: char)
    requires IsLowerHexChar(c)
    ensures DigitValue(c) < 16 && DigitChar(DigitValue(c)) == c
  {
  }
}
