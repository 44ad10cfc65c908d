/** The SDK's typed encryption entry points (`core/encrypt.ts`): six guards
    that each fetch the active session and call one encoder of the FHE
    library, and the `encrypt` switch that picks the guard from a type tag.

    The library is a parameter: `Library` answers what each encoder returns
    (or the error it throws) for an instance and a value. */
module SdkEncrypt {
  import opened Wrappers
  import opened JsSemantics
  import opened SdkClient
  import opened Validation

  /** The six encoders of an FHE instance. */
  datatype Encoder =
    | EncryptBool
    | EncryptUint8
    | EncryptUint16
    | EncryptUint32
    | EncryptUint64
    | EncryptAddress

  type Library = (Encoder, Instance, JsValue) -> Result<seq<Byte>, string>

  const InstanceMissing := "FHEVM instance not initialized"

  /** The `switch (type)` of `encrypt`: the encoder each tag selects. */
  function EncoderFor(tag: string): (r: Option<Encoder>)
    ensures r.Some? <==> tag in {"bool", "uint8", "uint16", "uint32", "uint64", "address"}
  {
    if tag == "bool" then Some(EncryptBool)
    else if tag == "uint8" then Some(EncryptUint8)
    else if tag == "uint16" then Some(EncryptUint16)
    else if tag == "uint32" then Some(EncryptUint32)
    else if tag == "uint64" then Some(EncryptUint64)
    else if tag == "address" then Some(EncryptAddress)
    else None
  }

  /** The tag that names each encoder. */
  function TagOf(e: Encoder): string {
    match e
    case EncryptBool => "bool"
    case EncryptUint8 => "uint8"
    case EncryptUint16 => "uint16"
    case EncryptUint32 => "uint32"
    case EncryptUint64 => "uint64"
    case EncryptAddress => "address"
  }

  /** Each tag reaches exactly its own encoder: the switch and the naming
      are inverse to each other, so no two tags share an encoder and there
      is no fallback. */
  lemma {:induction false} EncoderForIsInverseOfTag(tag: string, e: Encoder)
    ensures EncoderFor(TagOf(e)) == Some(e)
    ensures EncoderFor(tag) == Some(e) <==> tag == TagOf(e)
  {
  }

  /** The result of a call together with the encoder it invoked, if any. */
  datatype Dispatch = Dispatch(called: Option<Encoder>, outcome: Result<seq<Byte>, string>)

  /** One of `encryptBool` ... `encryptAddress`: the session must be active
      and hold an instance; the value is passed to the encoder unchanged and
      its output is returned unchanged. */
  function EncryptWith(e: Encoder, global: Global, library: Library, value: JsValue): (r: Dispatch)
    ensures GetFhevmClient(global).Err? ==> r == Dispatch(None, Err(NotInitialized))
    ensures GetFhevmClient(global).Ok? && global.value.instance.None? ==> r == Dispatch(None, Err(InstanceMissing))
    ensures r.called.Some? <==> GetFhevmClient(global).Ok? && global.value.instance.Some?
    ensures r.called.Some? ==> r.called == Some(e) && r.outcome == library(e, global.value.instance.value, value)
  {
    match GetFhevmClient(global)
    case Err(msg) => Dispatch(None, Err(msg))
    case Ok(client) =>
      if client.instance.None? then Dispatch(None, Err(InstanceMissing))
      else Dispatch(Some(e), library(e, client.instance.value, value))
  }

  /** `encrypt(type, value)`: an unknown tag throws before the session is
      consulted and calls no encoder. */
  function Encrypt(tag: string, value: JsValue, global: Global, library: Library): (r: Dispatch)
    ensures EncoderFor(tag).None? ==> r == Dispatch(None, Err("Unsupported encryption type: " + tag))
    ensures r.called.Some? ==> r.called == EncoderFor(tag) && TagOf(r.called.value) == tag
    ensures EncoderFor(tag).Some? ==> r == EncryptWith(EncoderFor(tag).value, global, library, value)
  {
    match EncoderFor(tag)
    case None => Dispatch(None, Err("Unsupported encryption type: " + tag))
    case Some(e) => EncryptWith(e, global, library, value)
  }

  /** With an active session, every supported tag calls its encoder once with
      the caller's value, whatever that value is (there is no range check),
      and returns the encoder's output. */
  lemma {:induction false} EncryptPassesValueThrough(tag: string, value: JsValue, global: Global, library: Library)
    requires EncoderFor(tag).Some?
    requires GetFhevmClient(global).Ok? && global.value.instance.Some?
    ensures Encrypt(tag, value, global, library) ==
              Dispatch(EncoderFor(tag), library(EncoderFor(tag).value, global.value.instance.value, value))
  {
  }

  /** A value rejected by the application's pre-check still reaches the
      encoder: encryption itself does not validate. */
  lemma {:induction false} EncryptDoesNotValidate(global: Global, library: Library)
    requires GetFhevmClient(global).Ok? && global.value.instance.Some?
    ensures ValidateEncryptionInput("uint8", JsBigInt(256)).value.valid == false
    ensures Encrypt("uint8", JsBigInt(256), global, library).called == Some(EncryptUint8)
  {
    MaxValueIsAllOnes("uint8");
  }

  /** After the session is reset, every encryption fails without reaching
      the library. */
  lemma {:induction false} EncryptAfterReset(tag: string, value: JsValue, global: Global, library: Library)
    ensures Encrypt(tag, value, ResetFhevmClient(global), library).called.None?
    ensures Encrypt(tag, value, ResetFhevmClient(global), library).outcome.Err?
  {
  }
}
