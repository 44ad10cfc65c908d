/** The small part of ECMAScript's built-in behaviour that the modelled
    TypeScript relies on: `String.prototype.trim`, `String.prototype.slice`
    and `substr`, `BigInt(string)` (StringToBigInt, section 7.1.14 of
    ECMA-262), `parseInt(s, 16)` (section 19.2.5), `Number.prototype.toString(radix)`
    for non-negative integers, and the ToUint8 conversion that a
    `Uint8Array` element store performs (section 7.1.11). */
module JsSemantics {
  import opened Wrappers

  /** One element of a `Uint8Array`. */
  type Byte = x: int | 0 <= x < 256

  function Pow(base: nat, exp: nat): (p: nat)
    ensures base >= 1 ==> p >= 1
  {
    if exp == 0 then 1 else base * Pow(base, exp - 1)
  }

  lemma {:induction false} PowAdd(base: nat, a: nat, b: nat)
    ensures Pow(base, a + b) == Pow(base, a) * Pow(base, b)
    decreases a
  {
    if a > 0 {
      PowAdd(base, a - 1, b);
      var x, y := Pow(base, a - 1), Pow(base, b);
      calc {
        Pow(base, a + b);
        base * Pow(base, a - 1 + b);
        base * (x * y);
        { MulAssociates(base, x, y); }
        (base * x) * y;
      }
    }
  }

  lemma {:induction false} MulAssociates(a: int, b: int, c: int)
    ensures a * (b * c) == (a * b) * c
  {
  }

  // ---------------------------------------------------------------------------
  // Whitespace and trim
  // ---------------------------------------------------------------------------

  /** ECMAScript WhiteSpace (TAB, VT, FF, ZWNBSP and the Unicode Zs category)
      and LineTerminator (LF, CR, LS, PS) code points: what `trim` removes. */
  const JsWhitespace: set<char> := {
    '\U{0009}', '\U{000B}', '\U{000C}', '\U{FEFF}',
    ' ', '\U{00A0}', '\U{1680}',
    '\U{2000}', '\U{2001}', '\U{2002}', '\U{2003}', '\U{2004}', '\U{2005}',
    '\U{2006}', '\U{2007}', '\U{2008}', '\U{2009}', '\U{200A}',
    '\U{202F}', '\U{205F}', '\U{3000}',
    '\n', '\r', '\U{2028}', '\U{2029}'
  }

  predicate IsJsWhitespace(c: char) {
    c in JsWhitespace
  }

  /** The index of the first character at or after `i` that is not
      whitespace, or `|s|` if there is none. */
  function SkipWhitespace(s: string, i: nat): (n: nat)
    requires i <= |s|
    ensures i <= n <= |s|
    ensures forall j :: i <= j < n ==> IsJsWhitespace(s[j])
    ensures n == |s| || !IsJsWhitespace(s[n])
    decreases |s| - i
  {
    if i < |s| && IsJsWhitespace(s[i]) then SkipWhitespace(s, i + 1) else i
  }

  /** Scanning back from `j` but not past `lo`: the index just after the
      last character that is not whitespace, or `lo` if there is none. */
  function SkipWhitespaceBack(s: string, lo: nat, j: nat): (n: nat)
    requires lo <= j <= |s|
    ensures lo <= n <= j
    ensures forall k :: n <= k < j ==> IsJsWhitespace(s[k])
    ensures n == lo || !IsJsWhitespace(s[n - 1])
    decreases j
  {
    if j > lo && IsJsWhitespace(s[j - 1]) then SkipWhitespaceBack(s, lo, j - 1) else j
  }

  /** Leading whitespace removed: the first step of `parseInt`. */
  function TrimStart(s: string): string {
    s[SkipWhitespace(s, 0)..]
  }

  /** `s.trim()`: leading and trailing whitespace removed. */
  function Trim(s: string): string {
    var a := SkipWhitespace(s, 0);
    s[a..SkipWhitespaceBack(s, a, |s|)]
  }

  /** What `trim` keeps is one contiguous slice of its input, everything it
      drops on either side is whitespace, and what it keeps neither starts
      nor ends with whitespace. */
  lemma {:induction false} TrimIsSlice(s: string)
    ensures var k := |s| - |TrimStart(s)|;
            && k + |Trim(s)| <= |s|
            && Trim(s) == s[k..k + |Trim(s)|]
            && (forall i :: 0 <= i < k ==> IsJsWhitespace(s[i]))
            && (forall i :: k + |Trim(s)| <= i < |s| ==> IsJsWhitespace(s[i]))
    ensures Trim(s) == [] || (!IsJsWhitespace(Trim(s)[0]) && !IsJsWhitespace(Trim(s)[|Trim(s)| - 1]))
  {
    var a := SkipWhitespace(s, 0);
    var b := SkipWhitespaceBack(s, a, |s|);
    assert |TrimStart(s)| == |s| - a;
    if a < b {
      assert Trim(s)[0] == s[a];
      assert Trim(s)[|Trim(s)| - 1] == s[b - 1];
    }
  }

  /** A string that neither starts nor ends with whitespace is its own trim. */
  lemma {:induction false} TrimOfTrimmed(s: string)
    requires s == [] || (!IsJsWhitespace(s[0]) && !IsJsWhitespace(s[|s| - 1]))
    ensures Trim(s) == s
  {
    assert SkipWhitespace(s, 0) == 0;
    assert SkipWhitespaceBack(s, 0, |s|) == |s|;
  }

  /** Trimming twice is trimming once. */
  lemma {:induction false} TrimIsIdempotent(s: string)
    ensures Trim(Trim(s)) == Trim(s)
  {
    TrimIsSlice(s);
    TrimOfTrimmed(Trim(s));
  }

  // ---------------------------------------------------------------------------
  // Digits in a radix
  // ---------------------------------------------------------------------------

  /** The value of an ASCII letter or digit as a digit of radix 36;
      36 for every other character (a digit of no radix). */
  function DigitValue(c: char): (d: nat)
    ensures d <= 36
    ensures d < 10 <==> '0' <= c <= '9'
  {
    if '0' <= c <= '9' then (c as int) - ('0' as int)
    else if 'a' <= c <= 'z' then (c as int) - ('a' as int) + 10
    else if 'A' <= c <= 'Z' then (c as int) - ('A' as int) + 10
    else 36
  }

  predicate IsDigitIn(c: char, radix: nat) {
    DigitValue(c) < radix
  }

  predicate AllDigitsIn(s: string, radix: nat) {
    forall i :: 0 <= i < |s| ==> IsDigitIn(s[i], radix)
  }

  /** The lower-case digit `Number.prototype.toString` writes for `d`. */
  function DigitChar(d: nat): (c: char)
    requires d < 36
    ensures DigitValue(c) == d
    ensures '0' <= c <= '9' || 'a' <= c <= 'z'
  {
    if d < 10 then ('0' as int + d) as char else ('a' as int + d - 10) as char
  }

  /** The number a string of digits denotes, most significant digit first. */
  function DigitsValue(s: string, radix: nat): nat
    requires AllDigitsIn(s, radix)
  {
    if s == [] then 0 else DigitsValue(s[..|s| - 1], radix) * radix + DigitValue(s[|s| - 1])
  }

  lemma {:induction false} DigitsValueBound(s: string, radix: nat)
    requires AllDigitsIn(s, radix)
    ensures DigitsValue(s, radix) < Pow(radix, |s|)
  {
    if s != [] {
      var p := s[..|s| - 1];
      DigitsValueBound(p, radix);
      var v := DigitsValue(p, radix);
      var d := DigitValue(s[|s| - 1]);
      assert v + 1 <= Pow(radix, |p|);
      assert d + 1 <= radix;
      assert DigitsValue(s, radix) == v * radix + d;
      assert Pow(radix, |s|) == radix * Pow(radix, |p|);
      calc {
        DigitsValue(s, radix) + 1;
      <= v * radix + radix;
        { MulAddOne(v, radix); }
        radix * (v + 1);
      <= { MulMonotone(v + 1, Pow(radix, |p|), radix); }
        radix * Pow(radix, |p|);
      }
    }
  }

  lemma {:induction false} MulMonotone(a: nat, b: nat, c: nat)
    requires a <= b
    ensures c * a <= c * b
  {
  }

  lemma {:induction false} MulAddOne(v: int, r: int)
    ensures v * r + r == r * (v + 1)
  {
  }

  /** Appending one digit to a digit string multiplies by the radix and adds it. */
  lemma {:induction false} DigitsValueAppend(s: string, t: string, radix: nat)
    requires AllDigitsIn(s, radix) && AllDigitsIn(t, radix) && |t| == 1
    ensures AllDigitsIn(s + t, radix)
    ensures DigitsValue(s + t, radix) == DigitsValue(s, radix) * radix + DigitValue(t[0])
  {
    assert (s + t)[..|s + t| - 1] == s;
  }

  /** The value of a two-digit string. */
  lemma {:induction false} DigitsValueOfPair(s: string, radix: nat)
    requires |s| == 2 && AllDigitsIn(s, radix)
    ensures DigitsValue(s, radix) == DigitValue(s[0]) * radix + DigitValue(s[1])
  {
    var p := s[..1];
    assert AllDigitsIn(p, radix) && p[..0] == [] && p[0] == s[0];
    assert DigitsValue(p, radix) == DigitValue(s[0]);
    assert s[..|s| - 1] == p;
  }

  lemma {:induction false} DivModFacts(n: nat, radix: nat)
    requires radix >= 2
    ensures n == (n / radix) * radix + n % radix
    ensures 0 <= n % radix < radix
    ensures n >= radix ==> 1 <= n / radix < n
  {
    if n >= radix {
      var q := n / radix;
      assert q * radix <= n;
      assert q < n by {
        assert q * radix >= q * 2 by { MulMonotone(2, radix, q); }
      }
    }
  }

  /** `n.toString(radix)` for a non-negative integer `n`. */
  function ToRadixString(n: nat, radix: nat): (r: string)
    requires 2 <= radix <= 36
    ensures |r| >= 1
    ensures AllDigitsIn(r, radix)
    ensures r[0] == '0' ==> n == 0
    decreases n
  {
    if n < radix then [DigitChar(n)]
    else
      DivModFacts(n, radix);
      ToRadixString(n / radix, radix) + [DigitChar(n % radix)]
  }

  /** Reading back what `toString(radix)` wrote gives the number again. */
  lemma {:induction false} ToRadixStringRoundTrip(n: nat, radix: nat)
    requires 2 <= radix <= 36
    ensures DigitsValue(ToRadixString(n, radix), radix) == n
    decreases n
  {
    if n >= radix {
      var hi := ToRadixString(n / radix, radix);
      DivModFacts(n, radix);
      var lo := [DigitChar(n % radix)];
      ToRadixStringRoundTrip(n / radix, radix);
      DigitsValueAppend(hi, lo, radix);
    }
  }

  /** Longest prefix of `s` made of digits of `radix`. */
  function DigitPrefixLength(s: string, radix: nat): (n: nat)
    ensures n <= |s|
    ensures AllDigitsIn(s[..n], radix)
    ensures n == |s| || !IsDigitIn(s[n], radix)
  {
    if s == [] || !IsDigitIn(s[0], radix) then 0
    else
      var m := DigitPrefixLength(s[1..], radix);
      assert s[..m + 1] == [s[0]] + s[1..][..m];
      m + 1
  }

  // ---------------------------------------------------------------------------
  // BigInt(string)
  // ---------------------------------------------------------------------------

  /** A non-empty run of digits of `radix`, or nothing. */
  function UnsignedDigits(d: string, radix: nat): (r: Option<int>)
    ensures r.Some? <==> |d| > 0 && AllDigitsIn(d, radix)
    ensures r.Some? ==> r.value >= 0
  {
    if |d| > 0 && AllDigitsIn(d, radix) then Some(DigitsValue(d, radix)) else None
  }

  function Negated(r: Option<int>): Option<int> {
    if r.Some? then Some(-r.value) else None
  }

  /** `BigInt(s)` for a string: `None` is the SyntaxError it throws. */
  function StringToBigInt(s: string): Option<int> {
    BigIntLiteral(Trim(s))
  }

  /** The StringIntegerLiteral grammar applied to an already trimmed string:
      the empty string is 0n; `0x`/`0o`/`0b` (either case) introduce an
      unsigned hexadecimal, octal or binary literal; otherwise a decimal
      literal with an optional sign. */
  function BigIntLiteral(t: string): Option<int> {
    if t == [] then Some(0)
    else if |t| >= 2 && t[0] == '0' && (t[1] == 'x' || t[1] == 'X') then UnsignedDigits(t[2..], 16)
    else if |t| >= 2 && t[0] == '0' && (t[1] == 'o' || t[1] == 'O') then UnsignedDigits(t[2..], 8)
    else if |t| >= 2 && t[0] == '0' && (t[1] == 'b' || t[1] == 'B') then UnsignedDigits(t[2..], 2)
    else if t[0] == '-' then Negated(UnsignedDigits(t[1..], 10))
    else if t[0] == '+' then UnsignedDigits(t[1..], 10)
    else UnsignedDigits(t, 10)
  }

  /** The decimal text of an integer, as `String(n)` writes it. */
  function DecimalString(n: int): (r: string)
    ensures |r| >= 1
  {
    if n < 0 then "-" + ToRadixString(-n, 10) else ToRadixString(n, 10)
  }

  /** A decimal or hexadecimal digit is never whitespace. */
  lemma {:induction false} DigitIsNotWhitespace(c: char)
    requires IsDigitIn(c, 16)
    ensures !IsJsWhitespace(c)
  {
  }

  /** A string that neither starts nor ends with whitespace is its own trim,
      so `BigInt` reads it with the literal grammar directly. */
  lemma {:induction false} StringToBigIntOfTrimmed(s: string)
    requires s == [] || (!IsJsWhitespace(s[0]) && !IsJsWhitespace(s[|s| - 1]))
    ensures StringToBigInt(s) == BigIntLiteral(s)
  {
    TrimOfTrimmed(s);
  }

  /** A non-empty run of decimal digits reads as its value. */
  lemma {:induction false} BigIntLiteralOfDigits(t: string)
    requires |t| > 0 && AllDigitsIn(t, 10)
    ensures BigIntLiteral(t) == Some(DigitsValue(t, 10))
  {
    assert IsDigitIn(t[0], 10);
    if |t| >= 2 {
      assert IsDigitIn(t[1], 10);
    }
  }

  /** A minus sign followed by a non-empty run of decimal digits reads as the
      negated value. */
  lemma {:induction false} BigIntLiteralOfNegative(t: string)
    requires |t| > 1 && t[0] == '-' && AllDigitsIn(t[1..], 10)
    ensures BigIntLiteral(t) == Some(-(DigitsValue(t[1..], 10) as int))
  {
  }

  /** `BigInt(String(n)) == n` for every integer `n`. */
  lemma {:induction false} DecimalStringParses(n: int)
    ensures StringToBigInt(DecimalString(n)) == Some(n)
  {
    var d: nat := if n < 0 then -n else n;
    var digits := ToRadixString(d, 10);
    ToRadixStringRoundTrip(d, 10);
    if n < 0 {
      SignedDigitsParse(digits);
    } else {
      DigitsParse(digits);
    }
  }

  lemma {:induction false} DigitsParse(digits: string)
    requires |digits| > 0 && AllDigitsIn(digits, 10)
    ensures StringToBigInt(digits) == Some(DigitsValue(digits, 10))
  {
    DigitEndsAreKept(digits);
    BigIntLiteralOfDigits(digits);
  }

  lemma {:induction false} SignedDigitsParse(digits: string)
    requires |digits| > 0 && AllDigitsIn(digits, 10)
    ensures StringToBigInt("-" + digits) == Some(-(DigitsValue(digits, 10) as int))
  {
    var s := "-" + digits;
    assert s[1..] == digits;
    assert s[|s| - 1] == digits[|digits| - 1];
    DigitEndsAreKept(digits);
    assert !IsJsWhitespace('-');
    calc {
      StringToBigInt(s);
      { StringToBigIntOfTrimmed(s); }
      BigIntLiteral(s);
      { BigIntLiteralOfNegative(s); }
      Some(-(DigitsValue(digits, 10) as int));
    }
  }

  /** A run of digits neither starts nor ends with whitespace. */
  lemma {:induction false} DigitEndsAreKept(digits: string)
    requires |digits| > 0 && AllDigitsIn(digits, 10)
    ensures !IsJsWhitespace(digits[0]) && !IsJsWhitespace(digits[|digits| - 1])
    ensures Trim(digits) == digits
  {
    assert IsDigitIn(digits[0], 10) && IsDigitIn(digits[|digits| - 1], 10);
    DigitIsNotWhitespace(digits[0]);
    DigitIsNotWhitespace(digits[|digits| - 1]);
    TrimOfTrimmed(digits);
  }

  /** `parseInt(h, 16)` of a non-empty run of hexadecimal digits is their value. */
  lemma {:induction false} ParseIntHexOfDigits(h: string)
    requires |h| > 0 && AllDigitsIn(h, 16)
    ensures ParseIntHex(h) == Finite(DigitsValue(h, 16))
  {
    assert IsDigitIn(h[0], 16);
    DigitIsNotWhitespace(h[0]);
    TrimStartOfNonWhitespace(h);
    assert !(|h| >= 2 && h[0] == '0' && (h[1] == 'x' || h[1] == 'X')) by {
      if |h| >= 2 {
        assert IsDigitIn(h[1], 16);
      }
    }
    DigitPrefixOfDigits(h, 16);
    assert h[..|h|] == h;
  }

  lemma {:induction false} TrimStartOfNonWhitespace(s: string)
    requires |s| > 0 && !IsJsWhitespace(s[0])
    ensures TrimStart(s) == s
  {
  }

  /** A string made only of digits is its own longest digit prefix. */
  lemma {:induction false} DigitPrefixOfDigits(s: string, radix: nat)
    requires AllDigitsIn(s, radix)
    ensures DigitPrefixLength(s, radix) == |s|
  {
    if s != [] {
      assert IsDigitIn(s[0], radix);
      assert AllDigitsIn(s[1..], radix) by {
        forall i | 0 <= i < |s[1..]| ensures IsDigitIn(s[1..][i], radix) {
          assert s[1..][i] == s[i + 1];
        }
      }
      DigitPrefixOfDigits(s[1..], radix);
    }
  }

  // ---------------------------------------------------------------------------
  // parseInt(s, 16) and the Uint8Array element store
  // ---------------------------------------------------------------------------

  /** The numbers `parseInt` can produce here: NaN or an integer. */
  datatype ParsedNumber = NaN | Finite(v: int)

  /** `parseInt(s, 16)`: skip leading whitespace, take one optional sign,
      drop one `0x`/`0X` prefix, then read the longest run of hexadecimal
      digits; no digits at all gives NaN. */
  function ParseIntHex(s: string): ParsedNumber
  {
    var t := TrimStart(s);
    var negative := |t| > 0 && t[0] == '-';
    var u := if |t| > 0 && (t[0] == '-' || t[0] == '+') then t[1..] else t;
    var w := if |u| >= 2 && u[0] == '0' && (u[1] == 'x' || u[1] == 'X') then u[2..] else u;
    var n := DigitPrefixLength(w, 16);
    if n == 0 then NaN
    else if negative then Finite(-(DigitsValue(w[..n], 16) as int))
    else Finite(DigitsValue(w[..n], 16))
  }

  /** ToUint8: what storing a number into a `Uint8Array` keeps (NaN stores 0,
      any other integer is reduced modulo 256). */
  function ToUint8(p: ParsedNumber): (b: Byte)
    ensures p.Finite? && 0 <= p.v < 256 ==> b == p.v
    ensures p.Finite? ==> (p.v - b) % 256 == 0
    ensures p.NaN? ==> b == 0
  {
    match p
    case NaN => 0
    case Finite(v) => v % 256
  }

  // ---------------------------------------------------------------------------
  // slice / substr
  // ---------------------------------------------------------------------------

  /** How `slice` turns an argument into a position: negative counts from
      the end, and the result is clamped to `[0, len]`. */
  function RelativeIndex(k: int, len: nat): (i: nat)
    ensures i <= len
    ensures 0 <= k <= len ==> i == k
    ensures -(len as int) <= k < 0 ==> i == len + k
  {
    if k < 0 then (if len + k < 0 then 0 else len + k)
    else if k > len then len
    else k
  }

  /** `s.slice(start, end)`. */
  function Slice(s: string, start: int, end: int): (r: string)
    ensures |r| <= |s|
    ensures 0 <= start <= end <= |s| ==> r == s[start..end]
    ensures RelativeIndex(end, |s|) <= RelativeIndex(start, |s|) ==> r == []
  {
    var from := RelativeIndex(start, |s|);
    var to := RelativeIndex(end, |s|);
    if from < to then s[from..to] else []
  }

  /** `s.slice(start)`. */
  function SliceFrom(s: string, start: int): (r: string)
    ensures r == s[RelativeIndex(start, |s|)..]
  {
    Slice(s, start, |s|)
  }

  /** `s.substr(start, length)` for a non-negative start. */
  function Substr(s: string, start: nat, length: nat): (r: string)
    ensures |r| <= length
    ensures start + length <= |s| ==> r == s[start..start + length]
    ensures start + length > |s| ==> r == s[if start < |s| then start else |s|..]
  {
    var from := if start < |s| then start else |s|;
    var to := if start + length < |s| then start + length else |s|;
    s[from..to]
  }
}
