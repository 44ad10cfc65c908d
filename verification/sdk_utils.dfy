/** The SDK's `utils/index.ts`: its own copy of the hex codec, written with
    explicit loops, and the address shortener used for display. */
module SdkUtils {
  import opened JsSemantics
  import opened Hex
  import Security

  /** `uint8ArrayToHex(arr)`: `0x` and two lower-case digits per byte, built
      up one byte at a time.  It writes the same text as `toHex` of the
      showcase application. */
  method Uint8ArrayToHex(arr: seq<Byte>) returns (s: string)
    ensures s == Security.ToHex(arr)
    ensures |s| == 2 + 2 * |arr|
  {
    var digits := "";
    var i := 0;
    while i < |arr|
      invariant 0 <= i <= |arr|
      invariant digits == Security.HexDigits(arr[..i])
    {
      Security.HexDigitsAppend(arr[..i], arr[i]);
      assert arr[..i + 1] == arr[..i] + [arr[i]];
      digits := digits + ByteToHex(arr[i]);
      i := i + 1;
    }
    assert arr[..i] == arr;
    s := "0x" + digits;
  }

  /** `hex.startsWith('0x')`. */
  predicate StartsWithPrefix(hex: string) {
    |hex| >= 2 && hex[0] == '0' && hex[1] == 'x'
  }

  /** `hexToUint8Array(hex)`: the prefix is removed only when the text starts
      with `0x`; the array has `floor(length / 2)` elements and element `i`
      is `parseInt(cleaned.substr(2 * i, 2), 16)`.  It decodes every string,
      well-formed or not, to the same bytes as `fromHex`. */
  method HexToUint8Array(hex: string) returns (bytes: seq<Byte>)
    ensures StartsWithPrefix(hex) ==> |bytes| == (|hex| - 2) / 2
    ensures !StartsWithPrefix(hex) ==> |bytes| == |hex| / 2
    ensures bytes == Security.FromHex(hex)
  {
    var cleaned := if StartsWithPrefix(hex) then hex[2..] else hex;
    assert cleaned == Security.StripPrefix(hex) by {
      if |hex| >= 2 {
        assert hex[..2] == "0x" <==> hex[0] == '0' && hex[1] == 'x' by {
          assert hex[..2][0] == hex[0] && hex[..2][1] == hex[1];
        }
      }
    }
    var n := |cleaned| / 2;
    bytes := seq(n, _ => 0);
    var i := 0;
    while i < n
      invariant 0 <= i <= n && |bytes| == n
      invariant forall k :: 0 <= k < i ==> bytes[k] == ParseByte(cleaned[2 * k..2 * k + 2])
    {
      bytes := bytes[i := ParseByte(Substr(cleaned, i * 2, 2))];
      i := i + 1;
    }
    var expected := Security.DecodePairs(cleaned);
    assert |bytes| == |expected|;
    forall k | 0 <= k < n ensures bytes[k] == expected[k] {
      Security.DecodePairsAt(cleaned, k);
    }
  }

  /** Round trip through the SDK codec: every byte sequence comes back. */
  method RoundTrip(arr: seq<Byte>) returns (back: seq<Byte>)
    ensures back == arr
  {
    var text := Uint8ArrayToHex(arr);
    back := HexToUint8Array(text);
    Security.FromHexOfToHex(arr);
  }

  /** The other round trip: an even-length run of hex digits, with or without
      the prefix, comes back as `0x` and the same digits in lower case. */
  method RoundTripText(h: string, withPrefix: bool) returns (text: string)
    requires |h| % 2 == 0 && AllHex(h)
    ensures text == "0x" + ToLowerHex(h)
  {
    var bytes := HexToUint8Array(if withPrefix then "0x" + h else h);
    text := Uint8ArrayToHex(bytes);
    Security.ToHexOfFromHex(h);
  }

  /** `formatAddress(address, chars)`: empty text stays empty; otherwise the
      first `chars + 2` characters, an ellipsis, and `address.slice(-chars)`. */
  function FormatAddress(address: string, chars: int): (r: string)
    ensures address == "" <==> r == ""
  {
    if address == "" then ""
    else Slice(address, 0, chars + 2) + "..." + SliceFrom(address, -chars)
  }

  /** The default width of the shortened display. */
  const DefaultChars := 4

  /** With a positive width that fits, the display is the head with the
      prefix, an ellipsis and the last `chars` characters. */
  lemma {:induction false} FormatAddressShape(address: string, chars: int)
    requires 1 <= chars && chars + 2 <= |address|
    ensures FormatAddress(address, chars) ==
              address[..chars + 2] + "..." + address[|address| - chars..]
    ensures |FormatAddress(address, chars)| == 2 * chars + 5
  {
  }

  /** A contract address is shown as thirteen characters by default:
      `0x`, four digits, `...`, four digits. */
  lemma {:induction false} FormatAddressDefault(address: string)
    requires |address| == 42
    ensures |FormatAddress(address, DefaultChars)| == 13
    ensures FormatAddress(address, DefaultChars)[..6] == address[..6]
    ensures FormatAddress(address, DefaultChars)[9..] == address[38..]
  {
    FormatAddressShape(address, DefaultChars);
  }

  /** With `chars = 0` the tail is `slice(-0)`, which is the whole text, so
      the display is longer than the address. */
  lemma {:induction false} FormatAddressZeroWidth(address: string)
    requires |address| >= 2
    ensures FormatAddress(address, 0) == address[..2] + "..." + address
  {
  }
}
