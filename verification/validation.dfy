/** The input checks of the showcase application's `validation.ts`: chain
    identifiers, contract addresses, ciphertext handles, and the per-type
    pre-check callers may run before encrypting a value. */
module Validation {
  import opened Wrappers
  import opened JsSemantics
  import opened Hex

  // ---------------------------------------------------------------------------
  // Chain identifiers, addresses and handles
  // ---------------------------------------------------------------------------

  /** `chainId > 0 && Number.isInteger(chainId)`, for a finite JavaScript
      number (modelled as a real). */
  predicate IsValidChainId(chainId: real) {
    chainId > 0.0 && chainId.Floor as real == chainId
  }

  /** An integral chain identifier is accepted exactly when it is at least 1. */
  lemma {:induction false} IntegralChainIdValidIffPositive(n: int)
    ensures IsValidChainId(n as real) <==> n >= 1
  {
  }

  /** A chain identifier with a fractional part is never accepted. */
  lemma {:induction false} FractionalChainIdInvalid(chainId: real)
    requires chainId.Floor as real != chainId
    ensures !IsValidChainId(chainId)
  {
  }

  /** `/^0x[a-fA-F0-9]{40}$/`: `0x` and exactly forty hexadecimal digits. */
  predicate IsValidContractAddress(address: string) {
    |address| == 42 && address[..2] == "0x" && AllHex(address[2..])
  }

  /** `/^0x[a-fA-F0-9]+$/`: `0x` and at least one hexadecimal digit. */
  predicate IsValidHandle(handle: string) {
    |handle| >= 3 && handle[..2] == "0x" && AllHex(handle[2..])
  }

  /** Every well-formed contract address is also a well-formed handle, and a
      handle is an address exactly when it has the length of one. */
  lemma {:induction false} AddressIsHandleOfAddressLength(s: string)
    ensures IsValidContractAddress(s) <==> IsValidHandle(s) && |s| == 42
  {
  }

  // ---------------------------------------------------------------------------
  // validateEncryptionInput
  // ---------------------------------------------------------------------------

  /** The values a caller can hand to the untyped `value` parameter (objects
      and symbols are not modelled; a number is a finite real). */
  datatype JsValue =
    | JsBool(b: bool)
    | JsBigInt(i: int)
    | JsNumber(x: real)
    | JsString(s: string)
    | JsNull
    | JsUndefined

  /** `{ valid, error? }`. */
  datatype ValidationResult = ValidationResult(valid: bool, error: Option<string>)

  /** `typeof value === 'bigint' ? value : BigInt(value)`: `Err` names the
      exception class `BigInt` throws. */
  function ToBigInt(value: JsValue): (r: Result<int, string>)
    ensures value.JsBigInt? ==> r == Ok(value.i)
    ensures value.JsBool? ==> r == Ok(if value.b then 1 else 0)
    ensures value.JsNull? || value.JsUndefined? ==> r == Err("TypeError")
  {
    match value
    case JsBool(b) => Ok(if b then 1 else 0)
    case JsBigInt(i) => Ok(i)
    case JsNumber(x) => if x.Floor as real == x then Ok(x.Floor) else Err("RangeError")
    case JsString(s) =>
      (match StringToBigInt(s) case Some(n) => Ok(n) case None => Err("SyntaxError"))
    case JsNull => Err("TypeError")
    case JsUndefined => Err("TypeError")
  }

  /** The upper bound `validateEncryptionInput` compares against, for the four
      unsigned tags. */
  function MaxValue(tag: string): Option<int> {
    if tag == "uint8" then Some(255)
    else if tag == "uint16" then Some(65535)
    else if tag == "uint32" then Some(4294967295)
    else if tag == "uint64" then Some(18446744073709551615)
    else None
  }

  /** The bit width each unsigned tag names. */
  function BitWidth(tag: string): Option<nat> {
    if tag == "uint8" then Some(8)
    else if tag == "uint16" then Some(16)
    else if tag == "uint32" then Some(32)
    else if tag == "uint64" then Some(64)
    else None
  }

  /** Each literal bound in the source is the largest unsigned integer of its
      tag's width. */
  lemma {:induction false} MaxValueIsAllOnes(tag: string)
    ensures MaxValue(tag).Some? <==> BitWidth(tag).Some?
    ensures BitWidth(tag).Some? ==> MaxValue(tag).value == Pow(2, BitWidth(tag).value) - 1
  {
    assert Pow(2, 8) == 256;
    assert Pow(2, 16) == 65536;
    PowAdd(2, 16, 16);
    assert Pow(2, 32) == 4294967296;
    PowAdd(2, 32, 32);
    assert Pow(2, 64) == 18446744073709551616;
  }

  const Valid := ValidationResult(true, None)

  function Invalid(message: string): ValidationResult {
    ValidationResult(false, Some(message))
  }

  /** `validateEncryptionInput(type, value)`.  `Err` is an exception that
      escapes it: only the numeric branch's `BigInt(value)` can throw. */
  function ValidateEncryptionInput(tag: string, value: JsValue): (r: Result<ValidationResult, string>)
    ensures r.Ok? ==> (r.value.valid <==> r.value.error.None?)
    ensures r.Err? <==> BitWidth(tag).Some? && ToBigInt(value).Err?
    ensures tag == "bool" ==> r.Ok? && (r.value.valid <==> value.JsBool?)
    ensures BitWidth(tag).Some? && ToBigInt(value).Ok? ==>
              r.Ok? && (r.value.valid <==> 0 <= ToBigInt(value).value < Pow(2, BitWidth(tag).value))
    ensures tag == "address" ==>
              r.Ok? && (r.value.valid <==> value.JsString? && IsValidContractAddress(value.s))
    ensures tag != "bool" && tag != "address" && BitWidth(tag).None? ==>
              r == Ok(Invalid("Unsupported type: " + tag))
  {
    MaxValueIsAllOnes(tag);
    if tag == "bool" then
      Ok(if value.JsBool? then Valid else Invalid("Value must be a boolean"))
    else if MaxValue(tag).Some? then
      match ToBigInt(value)
      case Err(e) => Err(e)
      case Ok(n) =>
        Ok(if n < 0 || n > MaxValue(tag).value then Invalid("Value out of range for " + tag) else Valid)
    else if tag == "address" then
      // `RegExp.prototype.test` converts its argument to a string; the
      // string forms of booleans, numbers, null and undefined never start
      // with `0x`, so only a string argument can match.
      Ok(if value.JsString? && IsValidContractAddress(value.s) then Valid else Invalid("Invalid Ethereum address"))
    else
      Ok(Invalid("Unsupported type: " + tag))
  }

  /** The boundary cases: 255 is a valid `uint8` and 256 is not, -1 is valid
      for no width, and `true` passes as the `uint8` value 1. */
  lemma {:induction false} ValidateEncryptionInputBoundaries()
    ensures ValidateEncryptionInput("uint8", JsBigInt(255)) == Ok(Valid)
    ensures ValidateEncryptionInput("uint8", JsBigInt(256)) == Ok(Invalid("Value out of range for " + "uint8"))
    ensures ValidateEncryptionInput("uint64", JsBigInt(18446744073709551615)) == Ok(Valid)
    ensures ValidateEncryptionInput("uint64", JsBigInt(18446744073709551616)).value.valid == false
    ensures forall tag :: BitWidth(tag).Some? ==> ValidateEncryptionInput(tag, JsBigInt(-1)).value.valid == false
    ensures ValidateEncryptionInput("uint8", JsBool(true)) == Ok(Valid)
    ensures ValidateEncryptionInput("uint8", JsNumber(1.5)) == Err("RangeError")
  {
    MaxValueIsAllOnes("uint8");
    MaxValueIsAllOnes("uint64");
    forall tag | BitWidth(tag).Some?
      ensures ValidateEncryptionInput(tag, JsBigInt(-1)).value.valid == false
    {
      MaxValueIsAllOnes(tag);
    }
    assert (1.5).Floor == 1;
    assert ValidateEncryptionInput("uint8", JsBigInt(255)) == Ok(Valid);
    assert ValidateEncryptionInput("uint8", JsBigInt(256)) == Ok(Invalid("Value out of range for " + "uint8"));
    assert ValidateEncryptionInput("uint64", JsBigInt(18446744073709551615)) == Ok(Valid);
    assert ValidateEncryptionInput("uint64", JsBigInt(18446744073709551616)).value.valid == false;
    assert ValidateEncryptionInput("uint8", JsBool(true)) == Ok(Valid);
    assert ValidateEncryptionInput("uint8", JsNumber(1.5)) == Err("RangeError");
  }

  /** The address examples: too short is rejected, `0x` followed by forty
      hexadecimal digits is accepted. */
  lemma {:induction false} ValidateAddressExamples()
    ensures ValidateEncryptionInput("address", JsString("0x1234")) == Ok(Invalid("Invalid Ethereum address"))
    ensures ValidateEncryptionInput("address", JsString("0x" + seq(40, _ => 'a'))) == Ok(Valid)
  {
    var digits := seq(40, _ => 'a');
    var a := "0x" + digits;
    assert a[..2] == "0x" && a[2..] == digits;
    assert AllHex(digits);
  }
}
