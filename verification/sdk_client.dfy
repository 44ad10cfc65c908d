/** The SDK's session holder (`core/client.ts`): one module-level slot that
    is empty or holds the client built by the last successful
    `createFhevmClient`.

    The external steps (the browser provider, `getSigner`, `getCode`, the
    key `fetch` and `createInstance`) are parameters: an `Env` gives the
    outcome each of them produces.  Their handles are opaque. */
module SdkClient {
  import opened Wrappers

  /** Opaque handles of objects owned by foreign libraries. */
  datatype Provider = Provider(handle: nat)
  datatype Signer = Signer(handle: nat)
  datatype Instance = Instance(handle: nat)

  datatype Gateway = Gateway(url: string, relayerAddress: Option<string>)

  /** `FhevmConfig`, with the `network` record flattened. */
  datatype FhevmConfig = FhevmConfig(
    chainId: int,
    rpcUrl: string,
    name: string,
    gateway: Option<Gateway>,
    aclAddress: Option<string>,
    provider: Option<Provider>)

  /** `FhevmClient`. */
  datatype FhevmClient = FhevmClient(
    instance: Option<Instance>,
    provider: Option<Provider>,
    signer: Option<Signer>,
    config: FhevmConfig,
    isInitialized: bool)

  /** The reply of the key endpoint: `response.ok` and the `publicKey` field
      of its JSON body. */
  datatype KeyResponse = KeyResponse(ok: bool, publicKey: string)

  /** What the outside world answers.  `Err` is a rejected promise or a
      thrown exception.  `windowProvider` is `new BrowserProvider(window.ethereum)`:
      it throws where no injected wallet exists (no `window` on a server, or
      no `window.ethereum` in the browser).  `getCode` asks that provider. */
  datatype Env = Env(
    windowProvider: Result<Provider, string>,
    getSigner: Provider -> Result<Signer, string>,
    getCode: string -> Result<string, string>,
    fetch: string -> Result<KeyResponse, string>,
    createInstance: (int, string) -> Result<Instance, string>)

  /** `globalClient`. */
  type Global = Option<FhevmClient>

  const NotInitialized := "FHEVM client not initialized. Call createFhevmClient() first."
  const KeyFetchFailed := "Failed to fetch FHEVM public key"

  /** `if (aclAddress)`: present and not the empty string. */
  predicate IsTruthy(s: Option<string>) {
    s.Some? && s.value != ""
  }

  /** The endpoint the key is fetched from. */
  function KeyUrl(rpcUrl: string): string {
    rpcUrl + "/fhevm/publicKey"
  }

  /** `getPublicKey(rpcUrl, aclAddress)`: the window provider is built
      first, whatever the caller configured, and its failure is thrown; when
      an ACL address is given, an address without code (`getCode` answers
      `0x`) fails; then a reply that is not `ok` fails; otherwise the reply's
      key is returned. */
  function GetPublicKey(env: Env, rpcUrl: string, aclAddress: Option<string>): (r: Result<string, string>)
    ensures env.windowProvider.Err? ==> r == Err(env.windowProvider.error)
    ensures env.windowProvider.Ok? && IsTruthy(aclAddress) && env.getCode(aclAddress.value) == Ok("0x") ==>
              r == Err("ACL contract not found at " + aclAddress.value)
    ensures env.windowProvider.Ok? && (!IsTruthy(aclAddress) || env.getCode(aclAddress.value).Ok?) &&
            env.fetch(KeyUrl(rpcUrl)).Ok? && !env.fetch(KeyUrl(rpcUrl)).value.ok ==>
              r.Err?
    ensures r.Ok? <==>
              env.windowProvider.Ok? &&
              (!IsTruthy(aclAddress) || (env.getCode(aclAddress.value).Ok? && env.getCode(aclAddress.value).value != "0x")) &&
              env.fetch(KeyUrl(rpcUrl)).Ok? && env.fetch(KeyUrl(rpcUrl)).value.ok
    ensures r.Ok? ==> r.value == env.fetch(KeyUrl(rpcUrl)).value.publicKey
  {
    if env.windowProvider.Err? then Err(env.windowProvider.error)
    else
    var aclChecked: Result<(), string> :=
      if IsTruthy(aclAddress) then
        match env.getCode(aclAddress.value)
        case Err(e) => Err(e)
        case Ok(code) => if code == "0x" then Err("ACL contract not found at " + aclAddress.value) else Ok(())
      else Ok(());
    if aclChecked.Err? then Err(aclChecked.error)
    else
      match env.fetch(KeyUrl(rpcUrl))
      case Err(e) => Err(e)
      case Ok(response) => if !response.ok then Err(KeyFetchFailed) else Ok(response.publicKey)
  }

  /** The provider `createFhevmClient` uses: the configured one, or one over
      `window.ethereum`, which may fail to be built. */
  function ProviderFor(env: Env, config: FhevmConfig): Result<Provider, string> {
    if config.provider.Some? then Ok(config.provider.value) else env.windowProvider
  }

  /** The new value of the slot together with what the call returns. */
  datatype Created = Created(global: Global, result: Result<FhevmClient, string>)

  /** `createFhevmClient(config)`: signer, then public key, then instance;
      the slot is written only after all three succeed. */
  function CreateFhevmClient(env: Env, global: Global, config: FhevmConfig): (r: Created)
    ensures r.result.Err? ==> r.global == global
    ensures r.result.Ok? ==>
              r.global == Some(r.result.value) &&
              r.result.value.isInitialized &&
              r.result.value.config == config &&
              r.result.value.instance.Some? &&
              ProviderFor(env, config).Ok? && r.result.value.provider == Some(ProviderFor(env, config).value)
    ensures r.result.Ok? <==>
              ProviderFor(env, config).Ok? &&
              env.getSigner(ProviderFor(env, config).value).Ok? &&
              GetPublicKey(env, config.rpcUrl, config.aclAddress).Ok? &&
              env.createInstance(config.chainId, GetPublicKey(env, config.rpcUrl, config.aclAddress).value).Ok?
  {
    match ProviderFor(env, config)
    case Err(e) => Created(global, Err(e))
    case Ok(provider) =>
      match env.getSigner(provider)
      case Err(e) => Created(global, Err(e))
      case Ok(signer) =>
        match GetPublicKey(env, config.rpcUrl, config.aclAddress)
        case Err(e) => Created(global, Err(e))
        case Ok(key) =>
          match env.createInstance(config.chainId, key)
          case Err(e) => Created(global, Err(e))
          case Ok(instance) =>
            var client := FhevmClient(Some(instance), Some(provider), Some(signer), config, true);
            Created(Some(client), Ok(client))
  }

  /** A configured provider does not spare the window provider: the key step
      builds one anyway, so without an injected wallet the create fails with
      that error once the signer is obtained, and the slot is untouched. */
  lemma {:induction false} ConfiguredProviderStillNeedsWindow(env: Env, global: Global, config: FhevmConfig)
    requires config.provider.Some? && env.getSigner(config.provider.value).Ok?
    requires env.windowProvider.Err?
    ensures CreateFhevmClient(env, global, config) == Created(global, Err(env.windowProvider.error))
  {
  }

  /** A key that cannot be fetched stops `createFhevmClient`: once the signer
      is obtained, the key step's error is what the call throws, and the slot
      keeps its previous client. */
  lemma {:induction false} CreateFailsWithoutKey(env: Env, global: Global, config: FhevmConfig)
    requires ProviderFor(env, config).Ok? && env.getSigner(ProviderFor(env, config).value).Ok?
    requires GetPublicKey(env, config.rpcUrl, config.aclAddress).Err?
    ensures CreateFhevmClient(env, global, config) ==
              Created(global, Err(GetPublicKey(env, config.rpcUrl, config.aclAddress).error))
    ensures GetFhevmClient(CreateFhevmClient(env, global, config).global) == GetFhevmClient(global)
  {
  }

  /** Where a window provider can be built, an ACL address without code
      makes the whole create fail with the `not found` message, whatever the
      key endpoint would answer. */
  lemma {:induction false} CreateFailsOnMissingAcl(env: Env, global: Global, config: FhevmConfig)
    requires ProviderFor(env, config).Ok? && env.getSigner(ProviderFor(env, config).value).Ok?
    requires env.windowProvider.Ok?
    requires IsTruthy(config.aclAddress) && env.getCode(config.aclAddress.value) == Ok("0x")
    ensures CreateFhevmClient(env, global, config) ==
              Created(global, Err("ACL contract not found at " + config.aclAddress.value))
  {
    CreateFailsWithoutKey(env, global, config);
  }

  /** Whether `createFhevmClient(config)` succeeds does not depend on the slot. */
  predicate CreateSucceeds(env: Env, config: FhevmConfig) {
    CreateFhevmClient(env, None, config).result.Ok?
  }

  /** `getFhevmClient()`. */
  function GetFhevmClient(global: Global): (r: Result<FhevmClient, string>)
    ensures r.Err? <==> global.None? || !global.value.isInitialized
    ensures r.Err? ==> r.error == NotInitialized
    ensures r.Ok? ==> global == Some(r.value)
  {
    if global.None? || !global.value.isInitialized then Err(NotInitialized) else Ok(global.value)
  }

  /** `resetFhevmClient()`. */
  function ResetFhevmClient(global: Global): (r: Global)
    ensures GetFhevmClient(r).Err?
  {
    None
  }

  /** A successful create is returned by the next get. */
  lemma {:induction false} CreateThenGet(env: Env, global: Global, config: FhevmConfig)
    requires CreateFhevmClient(env, global, config).result.Ok?
    ensures GetFhevmClient(CreateFhevmClient(env, global, config).global) ==
              CreateFhevmClient(env, global, config).result
    ensures GetFhevmClient(CreateFhevmClient(env, global, config).global).value.config == config
  {
  }

  /** Last write wins: after two successful creates the slot holds the
      second client, whatever the first was. */
  lemma {:induction false} LastCreateWins(env: Env, global: Global, first: FhevmConfig, second: FhevmConfig)
    requires CreateSucceeds(env, second)
    ensures var g1 := CreateFhevmClient(env, global, first).global;
            GetFhevmClient(CreateFhevmClient(env, g1, second).global).value.config == second
  {
    var g1 := CreateFhevmClient(env, global, first).global;
    CreateOutcomeIgnoresSlot(env, g1, second);
  }

  /** The outcome of a create depends only on the environment and the
      configuration. */
  lemma {:induction false} CreateOutcomeIgnoresSlot(env: Env, global: Global, config: FhevmConfig)
    ensures CreateFhevmClient(env, global, config).result == CreateFhevmClient(env, None, config).result
  {
  }

  /** The operations a program can perform on the slot. */
  datatype Op = Create(config: FhevmConfig) | Get | Reset

  function Apply(env: Env, global: Global, op: Op): Global {
    match op
    case Create(config) => CreateFhevmClient(env, global, config).global
    case Get => global
    case Reset => ResetFhevmClient(global)
  }

  function Run(env: Env, global: Global, ops: seq<Op>): Global
    decreases |ops|
  {
    if ops == [] then global else Run(env, Apply(env, global, ops[0]), ops[1..])
  }

  /** Every client the slot ever holds is initialized, so `getFhevmClient`
      fails exactly when the slot is empty. */
  predicate SlotInvariant(global: Global) {
    global.None? || global.value.isInitialized
  }

  lemma {:induction false} RunPreservesSlotInvariant(env: Env, global: Global, ops: seq<Op>)
    requires SlotInvariant(global)
    ensures SlotInvariant(Run(env, global, ops))
    ensures GetFhevmClient(Run(env, global, ops)).Err? <==> Run(env, global, ops).None?
    decreases |ops|
  {
    if ops != [] {
      RunPreservesSlotInvariant(env, Apply(env, global, ops[0]), ops[1..]);
    }
  }

  /** After a reset, `getFhevmClient` keeps failing until a create succeeds:
      gets, further resets and failed creates leave the slot empty. */
  lemma {:induction false} ResetThenGetFailsUntilCreate(env: Env, global: Global, ops: seq<Op>)
    requires forall i :: 0 <= i < |ops| && ops[i].Create? ==> !CreateSucceeds(env, ops[i].config)
    ensures Run(env, ResetFhevmClient(global), ops) == None
    ensures GetFhevmClient(Run(env, ResetFhevmClient(global), ops)).Err?
    decreases |ops|
  {
    if ops != [] {
      if ops[0].Create? {
        CreateOutcomeIgnoresSlot(env, None, ops[0].config);
      }
      assert Apply(env, None, ops[0]) == None;
      ResetThenGetFailsUntilCreate(env, None, ops[1..]);
    }
  }
}
