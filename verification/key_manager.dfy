/** The showcase application's key cache (`lib/fhe/keys.ts`): static slots
    for a public and a private key.  The network fetch is a parameter: the
    array of numbers the endpoint returns, or the error it throws. */
module KeyManager {
  import opened Wrappers
  import opened JsSemantics

  datatype Keys = Keys(publicKey: Option<seq<Byte>>, privateKey: Option<seq<Byte>>)

  const Empty := Keys(None, None)

  /** `new Uint8Array(numbers)`: each element converted with ToUint8. */
  function ToUint8Array(numbers: seq<int>): (r: seq<Byte>)
    ensures |r| == |numbers|
    ensures forall i :: 0 <= i < |numbers| ==> r[i] == numbers[i] % 256
  {
    seq(|numbers|, i requires 0 <= i < |numbers| => ToUint8(Finite(numbers[i])))
  }

  /** The cache after a call, the call's outcome, and whether it went to the
      network. */
  datatype KeyFetch = KeyFetch(keys: Keys, outcome: Result<seq<Byte>, string>, fetched: bool)

  /** `KeyManager.getPublicKey()`.  A typed array is always truthy, so any
      cached key, even an empty one, is returned without a fetch. */
  function GetPublicKey(keys: Keys, response: Result<seq<int>, string>): (r: KeyFetch)
    ensures keys.publicKey.Some? ==> r == KeyFetch(keys, Ok(keys.publicKey.value), false)
    ensures keys.publicKey.None? ==> r.fetched
    ensures keys.publicKey.None? && response.Err? ==> r == KeyFetch(keys, Err(response.error), true)
    ensures keys.publicKey.None? && response.Ok? ==>
              r.outcome.Ok? && r.keys == keys.(publicKey := Some(r.outcome.value)) &&
              r.outcome.value == ToUint8Array(response.value)
  {
    if keys.publicKey.Some? then KeyFetch(keys, Ok(keys.publicKey.value), false)
    else
      match response
      case Err(e) => KeyFetch(keys, Err(e), true)
      case Ok(numbers) =>
        var key := ToUint8Array(numbers);
        KeyFetch(keys.(publicKey := Some(key)), Ok(key), true)
  }

  /** `KeyManager.setPublicKey(key)`. */
  function SetPublicKey(keys: Keys, key: seq<Byte>): (r: Keys)
    ensures r.publicKey == Some(key) && r.privateKey == keys.privateKey
  {
    keys.(publicKey := Some(key))
  }

  /** `KeyManager.clearKeys()`: both slots emptied. */
  function ClearKeys(keys: Keys): (r: Keys)
    ensures r.publicKey.None? && r.privateKey.None?
  {
    Empty
  }

  /** `KeyManager.hasPublicKey()`. */
  predicate HasPublicKey(keys: Keys) {
    keys.publicKey.Some?
  }

  /** After `setPublicKey(k)` the cache reports a key and returns `k` without
      a fetch, whatever the network would answer. */
  lemma {:induction false} SetThenGet(keys: Keys, key: seq<Byte>, response: Result<seq<int>, string>)
    ensures HasPublicKey(SetPublicKey(keys, key))
    ensures GetPublicKey(SetPublicKey(keys, key), response) ==
              KeyFetch(SetPublicKey(keys, key), Ok(key), false)
  {
  }

  /** After `clearKeys()` the cache reports no key, and the next
      `getPublicKey` goes to the network. */
  lemma {:induction false} ClearThenHas(keys: Keys, response: Result<seq<int>, string>)
    ensures !HasPublicKey(ClearKeys(keys))
    ensures GetPublicKey(ClearKeys(keys), response).fetched
  {
  }

  /** A failed fetch leaves the cache empty; a successful one is cached and
      every later call returns the same key without fetching again. */
  lemma {:induction false} FetchIsCached(keys: Keys, first: Result<seq<int>, string>, later: Result<seq<int>, string>)
    requires !HasPublicKey(keys)
    ensures first.Err? ==> !HasPublicKey(GetPublicKey(keys, first).keys)
    ensures first.Ok? ==>
              var k1 := GetPublicKey(keys, first);
              var k2 := GetPublicKey(k1.keys, later);
              HasPublicKey(k1.keys) && k2 == KeyFetch(k1.keys, k1.outcome, false)
  {
  }

  /** The cache operations a program can perform. */
  datatype Op = Get(response: Result<seq<int>, string>) | Set(key: seq<Byte>) | Clear

  function Apply(keys: Keys, op: Op): Keys {
    match op
    case Get(response) => GetPublicKey(keys, response).keys
    case Set(key) => SetPublicKey(keys, key)
    case Clear => ClearKeys(keys)
  }

  function Run(keys: Keys, ops: seq<Op>): Keys
    decreases |ops|
  {
    if ops == [] then keys else Run(Apply(keys, ops[0]), ops[1..])
  }

  /** No operation ever writes the private-key slot, so starting empty it
      stays empty. */
  lemma {:induction false} PrivateKeyNeverSet(keys: Keys, ops: seq<Op>)
    requires keys.privateKey.None?
    ensures Run(keys, ops).privateKey.None?
    decreases |ops|
  {
    if ops != [] {
      PrivateKeyNeverSet(Apply(keys, ops[0]), ops[1..]);
    }
  }
}
