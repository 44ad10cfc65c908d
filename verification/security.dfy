/** The showcase application's `security.ts`: input sanitising, a second
    copy of the address and width checks, and a second hex codec. */
module Security {
  import opened Wrappers
  import opened JsSemantics
  import opened Hex
  import Validation

  // ---------------------------------------------------------------------------
  // sanitizeInput
  // ---------------------------------------------------------------------------

  /** The characters of the class `[<>'"]`. */
  predicate IsMarkupChar(c: char) {
    c == '<' || c == '>' || c == '\'' || c == '"'
  }

  /** `a` can be obtained from `b` by deleting characters. */
  predicate IsSubsequence<T(==)>(a: seq<T>, b: seq<T>)
    decreases |b|
  {
    || a == []
    || (b != [] && ((a[0] == b[0] && IsSubsequence(a[1..], b[1..])) || IsSubsequence(a, b[1..])))
  }

  lemma {:induction false} SubsequenceExtendRight<T>(a: seq<T>, b: seq<T>, c: seq<T>)
    requires IsSubsequence(a, b)
    ensures IsSubsequence(a, b + c)
    decreases |b|
  {
    if a != [] {
      assert (b + c)[1..] == b[1..] + c;
      if a[0] == b[0] && IsSubsequence(a[1..], b[1..]) {
        SubsequenceExtendRight(a[1..], b[1..], c);
      } else {
        SubsequenceExtendRight(a, b[1..], c);
      }
    }
  }

  lemma {:induction false} SubsequenceExtendLeft<T>(a: seq<T>, b: seq<T>, c: seq<T>)
    requires IsSubsequence(a, b)
    ensures IsSubsequence(a, c + b)
    decreases |c|
  {
    if a != [] && c != [] {
      SubsequenceExtendLeft(a, b, c[1..]);
      assert (c + b)[1..] == c[1..] + b;
      assert c + b != [];
      assert IsSubsequence(a, (c + b)[1..]);
    } else if c == [] {
      assert c + b == b;
    }
  }

  /** `s.replace(/[<>'"]/g, '')`. */
  function StripMarkup(s: string): (r: string)
    ensures |r| <= |s|
    ensures forall i :: 0 <= i < |r| ==> !IsMarkupChar(r[i])
  {
    if s == [] then []
    else if IsMarkupChar(s[0]) then StripMarkup(s[1..])
      else [s[0]] + StripMarkup(s[1..])
  }

  /** Only markup characters are removed: every other character occurs in
      the result exactly as often as in the input. */
  lemma {:induction false} StripMarkupKeepsOtherCharacters(s: string, c: char)
    requires !IsMarkupChar(c)
    ensures multiset(StripMarkup(s))[c] == multiset(s)[c]
  {
    if s != [] {
      StripMarkupKeepsOtherCharacters(s[1..], c);
      assert s == [s[0]] + s[1..];
    }
  }

  lemma {:induction false} StripMarkupIsSubsequence(s: string)
    ensures IsSubsequence(StripMarkup(s), s)
  {
    if s != [] {
      StripMarkupIsSubsequence(s[1..]);
      if IsMarkupChar(s[0]) {
        SubsequenceExtendLeft(StripMarkup(s[1..]), s[1..], [s[0]]);
        assert [s[0]] + s[1..] == s;
      }
    }
  }

  /** `input.trim().replace(/[<>'"]/g, '')`. */
  function SanitizeInput(input: string): (r: string)
    ensures |r| <= |input|
    ensures forall i :: 0 <= i < |r| ==> !IsMarkupChar(r[i])
  {
    StripMarkup(Trim(input))
  }

  /** The sanitised text is obtained from the input by deleting characters:
      nothing is inserted or reordered. */
  lemma {:induction false} SanitizeIsSubsequence(input: string)
    ensures IsSubsequence(SanitizeInput(input), input)
  {
    var t := Trim(input);
    TrimIsSlice(input);
    var k := |input| - |TrimStart(input)|;
    StripMarkupIsSubsequence(t);
    SubsequenceExtendRight(StripMarkup(t), t, input[k + |t|..]);
    SubsequenceExtendLeft(StripMarkup(t), t + input[k + |t|..], input[..k]);
    assert input[..k] + (t + input[k + |t|..]) == input;
  }

  /** Sanitising is not idempotent: deleting a markup character can expose
      whitespace that a second pass trims. */
  lemma {:induction false} SanitizeNotIdempotent()
    ensures SanitizeInput(" < a") == " a"
    ensures SanitizeInput(SanitizeInput(" < a")) == "a"
  {
    FirstPassExample();
    SecondPassExample();
  }

  lemma {:induction false} FirstPassExample()
    ensures SanitizeInput(" < a") == " a"
  {
    assert Trim(" < a") == "< a" by {
      assert SkipWhitespace(" < a", 1) == 1;
      assert SkipWhitespace(" < a", 0) == 1;
      assert SkipWhitespaceBack(" < a", 1, 4) == 4;
    }
    assert StripMarkup("< a") == " a" by {
      assert "< a"[1..] == " a";
      assert " a"[1..] == "a";
      assert "a"[1..] == [];
    }
  }

  lemma {:induction false} SecondPassExample()
    ensures SanitizeInput(" a") == "a"
  {
    assert Trim(" a") == "a" by {
      assert SkipWhitespace(" a", 1) == 1;
      assert SkipWhitespace(" a", 0) == 1;
      assert SkipWhitespaceBack(" a", 1, 2) == 2;
    }
    assert StripMarkup("a") == "a" by {
      assert "a"[1..] == [];
    }
  }

  // ---------------------------------------------------------------------------
  // validateAddress / validateNumber
  // ---------------------------------------------------------------------------

  /** `/^0x[a-fA-F0-9]{40}$/.test(address)`, as a left-to-right scan. */
  method ValidateAddress(address: string) returns (ok: bool)
    ensures ok <==> Validation.IsValidContractAddress(address)
  {
    if |address| != 42 || address[0] != '0' || address[1] != 'x' {
      assert |address| == 42 ==> address[..2][0] == address[0] && address[..2][1] == address[1];
      return false;
    }
    assert address[..2] == "0x";
    var i := 2;
    while i < 42
      invariant 2 <= i <= 42
      invariant forall j :: 2 <= j < i ==> IsHexChar(address[j])
    {
      if !IsHexChar(address[i]) {
        assert address[2..][i - 2] == address[i];
        return false;
      }
      i := i + 1;
    }
    return true;
  }

  /** `validateNumber(value, type)`: `BigInt(value)` first (a `SyntaxError`
      escapes for text that is not an integer literal), then the range check
      of the named width; an unknown type name gives false. */
  function ValidateNumber(value: string, tag: string): (r: Result<bool, string>)
    ensures r.Err? <==> StringToBigInt(value).None?
    ensures Validation.BitWidth(tag).Some? && StringToBigInt(value).Some? ==>
              r == Ok(0 <= StringToBigInt(value).value < Pow(2, Validation.BitWidth(tag).value))
    ensures Validation.BitWidth(tag).None? && StringToBigInt(value).Some? ==> r == Ok(false)
  {
    Validation.MaxValueIsAllOnes(tag);
    match StringToBigInt(value)
    case None => Err("SyntaxError")
    case Some(num) =>
      if tag == "uint8" then Ok(num >= 0 && num <= 255)
      else if tag == "uint16" then Ok(num >= 0 && num <= 65535)
      else if tag == "uint32" then Ok(num >= 0 && num <= 4294967295)
      else if tag == "uint64" then Ok(num >= 0 && num <= 18446744073709551615)
      else Ok(false)
  }

  /** For the four unsigned widths the two copies of the range check agree on
      every string: both throw on the same inputs and otherwise give the same
      verdict. */
  lemma {:induction false} ValidateNumberAgreesWithValidateEncryptionInput(value: string, tag: string)
    requires Validation.BitWidth(tag).Some?
    ensures ValidateNumber(value, tag).Err? <==>
              Validation.ValidateEncryptionInput(tag, Validation.JsString(value)).Err?
    ensures ValidateNumber(value, tag).Ok? ==>
              ValidateNumber(value, tag).value ==
              Validation.ValidateEncryptionInput(tag, Validation.JsString(value)).value.valid
  {
  }

  // ---------------------------------------------------------------------------
  // toHex / fromHex
  // ---------------------------------------------------------------------------

  /** `Array.from(data).map(b => b.toString(16).padStart(2, '0')).join('')`. */
  function HexDigits(data: seq<Byte>): (r: string)
    ensures |r| == 2 * |data|
  {
    if data == [] then ""
    else
      ByteToHexIsLowerHex(data[0]);
      ByteToHex(data[0]) + HexDigits(data[1..])
  }

  /** Byte `i` is written at positions `2i` and `2i + 1`, high nibble first. */
  lemma {:induction false} HexDigitsAt(data: seq<Byte>, i: nat)
    requires i < |data|
    ensures HexDigits(data)[2 * i] == DigitChar(data[i] / 16)
    ensures HexDigits(data)[2 * i + 1] == DigitChar(data[i] % 16)
    decreases i
  {
    var head, rest := ByteToHex(data[0]), HexDigits(data[1..]);
    ByteToHexDigits(data[0]);
    assert HexDigits(data) == head + rest;
    if i > 0 {
      var j := i - 1;
      HexDigitsAt(data[1..], j);
      assert data[i] == data[1..][j];
      assert (head + rest)[2 * i] == rest[2 * j];
      assert (head + rest)[2 * i + 1] == rest[2 * j + 1];
    }
  }

  lemma {:induction false} HexDigitsAppend(data: seq<Byte>, b: Byte)
    ensures HexDigits(data + [b]) == HexDigits(data) + ByteToHex(b)
  {
    if data == [] {
      assert [b][1..] == [];
    } else {
      assert (data + [b])[1..] == data[1..] + [b];
      HexDigitsAppend(data[1..], b);
    }
  }

  /** `toHex(data)`. */
  function ToHex(data: seq<Byte>): (r: string)
    ensures |r| == 2 + 2 * |data|
    ensures r[..2] == "0x"
    ensures forall i :: 0 <= i < |data| ==>
              r[2 + 2 * i] == DigitChar(data[i] / 16) && r[3 + 2 * i] == DigitChar(data[i] % 16)
  {
    var digits := HexDigits(data);
    var r := "0x" + digits;
    assert forall i :: 0 <= i < |data| ==>
      r[2 + 2 * i] == DigitChar(data[i] / 16) && r[3 + 2 * i] == DigitChar(data[i] % 16)
    by {
      forall i | 0 <= i < |data|
        ensures r[2 + 2 * i] == DigitChar(data[i] / 16) && r[3 + 2 * i] == DigitChar(data[i] % 16)
      {
        HexDigitsAt(data, i);
      }
    }
    r
  }

  /** `hex.replace(/^0x/, '')`: one leading `0x` removed, if present. */
  function StripPrefix(hex: string): (r: string)
    ensures |hex| >= 2 && hex[..2] == "0x" ==> r == hex[2..]
    ensures !(|hex| >= 2 && hex[..2] == "0x") ==> r == hex
  {
    if |hex| >= 2 && hex[..2] == "0x" then hex[2..] else hex
  }

  /** The loop of `fromHex` over the cleaned text: a `Uint8Array` of
      `floor(length / 2)` bytes, byte `k` parsed from characters `2k` and
      `2k + 1`.  For an odd length the last iteration writes one past the
      end of the array, which a typed array ignores. */
  function DecodePairs(cleaned: string): (r: seq<Byte>)
    ensures |r| == |cleaned| / 2
  {
    if |cleaned| < 2 then [] else [ParseByte(cleaned[..2])] + DecodePairs(cleaned[2..])
  }

  /** Byte `k` is parsed from characters `2k` and `2k + 1`. */
  lemma {:induction false} DecodePairsAt(cleaned: string, k: nat)
    requires k < |cleaned| / 2
    ensures DecodePairs(cleaned)[k] == ParseByte(cleaned[2 * k..2 * k + 2])
    decreases k
  {
    if k == 0 {
      assert cleaned[0..2] == cleaned[..2];
    } else {
      DecodePairsAt(cleaned[2..], k - 1);
      DecodePairsTail(cleaned, k);
    }
  }

  /** Past the first pair, decoding continues on the rest of the text. */
  lemma {:induction false} DecodePairsTail(cleaned: string, k: nat)
    requires 1 <= k < |cleaned| / 2
    ensures DecodePairs(cleaned)[k] == DecodePairs(cleaned[2..])[k - 1]
    ensures cleaned[2..][2 * (k - 1)..2 * (k - 1) + 2] == cleaned[2 * k..2 * k + 2]
  {
    DecodePairsCons(cleaned);
    SliceOfTail(cleaned, k);
  }

  lemma {:induction false} DecodePairsCons(cleaned: string)
    requires |cleaned| >= 2
    ensures DecodePairs(cleaned) == [ParseByte(cleaned[..2])] + DecodePairs(cleaned[2..])
  {
  }

  lemma {:induction false} SliceOfTail(cleaned: string, k: nat)
    requires 1 <= k < |cleaned| / 2
    ensures cleaned[2..][2 * (k - 1)..2 * (k - 1) + 2] == cleaned[2 * k..2 * k + 2]
  {
  }

  /** `fromHex(hex)`. */
  function FromHex(hex: string): (r: seq<Byte>)
    ensures |r| == |StripPrefix(hex)| / 2
  {
    DecodePairs(StripPrefix(hex))
  }

  /** Decoding what `HexDigits` wrote gives the bytes back. */
  lemma {:induction false} DecodePairsOfHexDigits(data: seq<Byte>)
    ensures DecodePairs(HexDigits(data)) == data
  {
    if data != [] {
      var h := HexDigits(data);
      HexDigitsSplit(data);
      calc {
        DecodePairs(h);
        { DecodePairsCons(h); }
        [ParseByte(h[..2])] + DecodePairs(h[2..]);
        { ParseByteOfByteToHex(data[0]); DecodePairsOfHexDigits(data[1..]); }
        [data[0]] + data[1..];
        data;
      }
    }
  }

  /** The first two characters written are the first byte's. */
  lemma {:induction false} HexDigitsSplit(data: seq<Byte>)
    requires data != []
    ensures |HexDigits(data)| >= 2
    ensures HexDigits(data)[..2] == ByteToHex(data[0])
    ensures HexDigits(data)[2..] == HexDigits(data[1..])
  {
    ByteToHexIsLowerHex(data[0]);
  }

  /** Round trip: `fromHex(toHex(b)) == b` for every byte sequence. */
  lemma {:induction false} FromHexOfToHex(data: seq<Byte>)
    ensures FromHex(ToHex(data)) == data
  {
    var h := ToHex(data);
    assert h[2..] == HexDigits(data);
    DecodePairsOfHexDigits(data);
  }

  /** Encoding the bytes decoded from an even-length run of hex digits gives
      the same digits, lower-cased. */
  lemma {:induction false} HexDigitsOfDecodePairs(h: string)
    requires |h| % 2 == 0 && AllHex(h)
    ensures HexDigits(DecodePairs(h)) == ToLowerHex(h)
    decreases |h|
  {
    if |h| >= 2 {
      var pair, rest := h[..2], h[2..];
      assert AllHex(pair) && AllHex(rest);
      var decoded := DecodePairs(rest);
      assert DecodePairs(h) == [ParseByte(pair)] + decoded;
      calc {
        HexDigits(DecodePairs(h));
        { HexDigitsCons(ParseByte(pair), decoded); }
        ByteToHex(ParseByte(pair)) + HexDigits(decoded);
        { ByteToHexOfParseByte(pair); HexDigitsOfDecodePairs(rest); }
        ToLowerHex(pair) + ToLowerHex(rest);
        { ToLowerHexSplit(h); }
        ToLowerHex(h);
      }
    }
  }

  lemma {:induction false} HexDigitsCons(b: Byte, data: seq<Byte>)
    ensures HexDigits([b] + data) == ByteToHex(b) + HexDigits(data)
  {
    assert ([b] + data)[1..] == data;
  }

  /** The other round trip: for an even-length string of hex digits, with or
      without the `0x` prefix, `toHex(fromHex(h))` is `0x` and the digits in
      lower case. */
  lemma {:induction false} ToHexOfFromHex(h: string)
    requires |h| % 2 == 0 && AllHex(h)
    ensures ToHex(FromHex(h)) == "0x" + ToLowerHex(h)
    ensures ToHex(FromHex("0x" + h)) == "0x" + ToLowerHex(h)
  {
    if |h| >= 2 {
      assert IsHexChar(h[1]);
      assert h[..2] != "0x" by { assert h[..2][1] == h[1]; }
    }
    assert StripPrefix(h) == h;
    assert ("0x" + h)[..2] == "0x";
    assert ("0x" + h)[2..] == h;
    HexDigitsOfDecodePairs(h);
  }

  /** A byte sequence is written as a well-formed contract address exactly
      when it has twenty bytes. */
  lemma {:induction false} ToHexIsAddressIffTwentyBytes(data: seq<Byte>)
    ensures Validation.IsValidContractAddress(ToHex(data)) <==> |data| == 20
  {
    var h := ToHex(data);
    assert h[2..] == HexDigits(data);
    HexDigitsAreHex(data);
  }

  /** Every character `HexDigits` writes is a hexadecimal digit. */
  lemma {:induction false} HexDigitsAreHex(data: seq<Byte>)
    ensures AllHex(HexDigits(data))
  {
    if data != [] {
      var head, rest := ByteToHex(data[0]), HexDigits(data[1..]);
      HexDigitsAreHex(data[1..]);
      ByteToHexIsLowerHex(data[0]);
      assert HexDigits(data) == head + rest;
      forall i | 0 <= i < |head + rest| ensures IsHexChar((head + rest)[i]) {
        if i >= 2 {
          assert (head + rest)[i] == rest[i - 2];
        }
      }
    }
  }

  /** Every well-formed contract address decodes to twenty bytes that encode
      back to the address with its digits in lower case. */
  lemma {:induction false} AddressDecodesToTwentyBytes(address: string)
    requires Validation.IsValidContractAddress(address)
    ensures |FromHex(address)| == 20
    ensures ToHex(FromHex(address)) == "0x" + ToLowerHex(address[2..])
  {
    var digits := address[2..];
    assert address == "0x" + digits;
    ToHexOfFromHex(digits);
  }
}
