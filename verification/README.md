# A Dafny model of the fhevm-react-template core

The repository is a template for front ends over fully homomorphic
encryption on Ethereum. Most of it is UI and network glue. This project
models the parts that can be stated precisely:

- **JavaScript semantics** (`js_semantics.dfy`). These are the built-ins the
  TypeScript code leans on:
  - `String.prototype.trim` over the ECMAScript whitespace and line-terminator code points;
  - `BigInt(string)`;
  - `parseInt(s, 16)`;
  - `Number.prototype.toString(radix)`;
  - the ToUint8 conversion of a `Uint8Array` store;
  - `slice` and `substr` index clamping.
- **Hex digits** (`hex.dfy`). Byte to two lower-case digits (base16 as in section 8 of RFC 4648), and a two-character pair back to a byte.
- **The showcase validators** (`validation.ts`, `validation.dfy`): chain ids, contract addresses, handles and `validateEncryptionInput`.
- **The showcase security helpers** (`security.ts`, `security.dfy`): `sanitizeInput`, `validateAddress`, `validateNumber`, `toHex` and `fromHex`.
- **The SDK helpers** (`utils/index.ts`, `sdk_utils.dfy`):
  - `uint8ArrayToHex` and `hexToUint8Array`, as loops that agree with the showcase codec;
  - `formatAddress`.
- **The SDK session holder** (`core/client.ts`, `sdk_client.dfy`):
  - `createFhevmClient`, `getFhevmClient`, `resetFhevmClient` and `getPublicKey`;
  - the browser provider, signer, `getCode`, `fetch` and `createInstance` as an environment of outcomes.
- **The SDK encryption dispatch** (`core/encrypt.ts`, `sdk_encrypt.dfy`). The six guards and the `encrypt` switch, with the FHE encoders as a parameter.
- **The computation hook** (`useComputation.ts`, `computation.dfy`). BigInt arithmetic with truncating division, and the `isComputing`/`result`/`error` state.
- **The public-key cache** (`keys.ts`, `key_manager.dfy`). The fetch is an outcome parameter.
- **The `PauserSet` contract** (`pausers.dfy`), as its Hardhat tests describe it.
- **The `PrivateVehicleInsurance` contract** (`insurance.dfy`), as its Hardhat tests describe it. It is a role-guarded state machine over:
  - policies;
  - claims (Submitted 0, Approved 2, Rejected 3, Paid 4);
  - reviewers;
  - a pause flag;
  - the company role.

The Solidity sources are not part of this model. The contracts are modelled from the behaviour their tests assert.

Every throwing call or reverting transaction returns a `Result`. Its `Err` carries the message or the revert reason.

## Model

| member | source | states |
|---|---|---|
| JsSemantics.TrimIsSlice | examples/nextjs-showcase/src/lib/utils/security.ts:7 | `trim()` returns a contiguous slice of its input. Everything cut from either end is whitespace, and the kept slice neither starts nor ends with whitespace. |
| JsSemantics.TrimIsIdempotent | examples/nextjs-showcase/src/lib/utils/security.ts:7 | Trimming an already trimmed string changes nothing. |
| JsSemantics.ToRadixStringRoundTrip | examples/nextjs-showcase/src/lib/utils/security.ts:33 | The digits `toString(radix)` writes for a non-negative number read back, in that radix, to the same number. |
| JsSemantics.DecimalStringParses | examples/nextjs-showcase/src/lib/utils/security.ts:15 | `BigInt(s)` of the decimal spelling of any integer, signed or not, gives that integer back. |
| JsSemantics.ParseIntHexOfDigits | examples/nextjs-showcase/src/lib/utils/security.ts:42 | On a non-empty string of hex digits, `parseInt(s, 16)` is the base-16 value of the whole string. |
| JsSemantics.ToUint8 | packages/fhevm-sdk/src/utils/index.ts:19 | Storing a number into a `Uint8Array` keeps a value congruent to it modulo 256, and a byte unchanged. The NaN of a failed `parseInt` is stored as 0. |
| JsSemantics.RelativeIndex | packages/fhevm-sdk/src/utils/index.ts:29 | A `slice` index lands inside the string: a non-negative index in range is kept, and a negative one counts back from the end. |
| JsSemantics.Slice | packages/fhevm-sdk/src/utils/index.ts:29 | `slice(start, end)` is never longer than the string. With both ends in range it returns exactly the characters between them, and it returns nothing when the resolved ends cross. |
| JsSemantics.SliceFrom | packages/fhevm-sdk/src/utils/index.ts:29 | `slice(start)` is the suffix from the resolved start index. |
| JsSemantics.Substr | packages/fhevm-sdk/src/utils/index.ts:19 | `substr(start, length)` returns at most `length` characters. That is the run from `start` when it fits, and otherwise the rest of the string from `start`. |
| Hex.ByteToHexIsLowerHex | examples/nextjs-showcase/src/lib/utils/security.ts:33 | `b.toString(16).padStart(2, '0')` is two lower-case hex digits, high nibble first. |
| Hex.ParseByteOfByteToHex | examples/nextjs-showcase/src/lib/utils/security.ts:33-42 | Parsing the two digits written for a byte gives the byte back. |
| Hex.ByteToHexOfParseByte | examples/nextjs-showcase/src/lib/utils/security.ts:33-42 | Writing the byte parsed from two hex digits gives those digits back, lower-cased. |
| Validation.IntegralChainIdValidIffPositive | examples/nextjs-showcase/src/lib/utils/validation.ts:6-8 | An integral chain id is valid exactly when it is at least 1. |
| Validation.FractionalChainIdInvalid | examples/nextjs-showcase/src/lib/utils/validation.ts:6-8 | No fractional chain id is valid. |
| Validation.AddressIsHandleOfAddressLength | examples/nextjs-showcase/src/lib/utils/validation.ts:19-25 | A string is a valid contract address exactly when it is a valid handle of 42 characters. So every address is a handle. |
| Validation.MaxValueIsAllOnes | examples/nextjs-showcase/src/lib/utils/validation.ts:48-53 | The bound for each unsigned width is 2^w − 1, and only the four unsigned tags have one. |
| Validation.ValidateEncryptionInput | examples/nextjs-showcase/src/lib/utils/validation.ts:32-71 | The result depends on the tag: <br>- `bool`: valid exactly for booleans; <br>- the four unsigned tags: valid exactly for 0 ≤ v ≤ 2^w − 1 after BigInt conversion, and throwing when that conversion throws; <br>- `address`: valid exactly for contract addresses; <br>- any other tag: invalid with `Unsupported type: <tag>`. <br>A result is valid exactly when it carries no error. |
| Validation.ValidateEncryptionInputBoundaries | examples/nextjs-showcase/src/lib/utils/validation.ts:43-58 | 255 is accepted and 256 refused for `uint8`, and 2^64 − 1 is accepted and 2^64 refused for `uint64`. −1 is refused for every width. `true` counts as 1, and a fractional number throws. |
| Validation.ValidateAddressExamples | examples/nextjs-showcase/src/lib/utils/validation.ts:60-64 | A short address is refused with `Invalid Ethereum address`, and a 40-digit one is accepted. |
| Security.StripMarkupKeepsOtherCharacters | examples/nextjs-showcase/src/lib/utils/security.ts:7 | Deleting `<`, `>`, `'` and `"` keeps every other character, with its multiplicity. |
| Security.SanitizeInput | examples/nextjs-showcase/src/lib/utils/security.ts:6-8 | The sanitised string is no longer than its input and contains none of the four markup characters. |
| Security.SanitizeIsSubsequence | examples/nextjs-showcase/src/lib/utils/security.ts:6-8 | The sanitised string is a subsequence of the input. |
| Security.SanitizeNotIdempotent | examples/nextjs-showcase/src/lib/utils/security.ts:6-8 | Sanitising twice can differ from sanitising once: `" < a"` gives `" a"`, and that gives `"a"`. |
| Security.ValidateAddress | examples/nextjs-showcase/src/lib/utils/security.ts:10-12 | The character-by-character check accepts exactly the strings `isValidContractAddress` accepts. |
| Security.ValidateNumber | examples/nextjs-showcase/src/lib/utils/security.ts:14-29 | It throws exactly when `BigInt(value)` throws. For the four widths it holds exactly for 0 ≤ v < 2^w, and for any other tag it is false. |
| Security.ValidateNumberAgreesWithValidateEncryptionInput | examples/nextjs-showcase/src/lib/utils/security.ts:14-29 | For the four widths, `validateNumber` and the numeric branch of `validateEncryptionInput` throw on the same strings and otherwise agree. |
| Security.HexDigitsAt | examples/nextjs-showcase/src/lib/utils/security.ts:32-34 | Characters 2i and 2i+1 of the joined digits are the high and low nibble of byte i. |
| Security.ToHex | examples/nextjs-showcase/src/lib/utils/security.ts:31-35 | The output is `0x` followed by two lower-case digits per byte, in order, with length 2 + 2n. |
| Security.DecodePairsAt | examples/nextjs-showcase/src/lib/utils/security.ts:39-43 | Byte k of the decoding is `parseInt` of characters 2k and 2k+1. |
| Security.FromHex | examples/nextjs-showcase/src/lib/utils/security.ts:37-46 | After the prefix is stripped, the output has ⌊len/2⌋ bytes. |
| Security.FromHexOfToHex | examples/nextjs-showcase/src/lib/utils/security.ts:31-46 | `fromHex(toHex(b)) == b` for every byte sequence. |
| Security.ToHexOfFromHex | examples/nextjs-showcase/src/lib/utils/security.ts:31-46 | For an even-length string of hex digits, with or without `0x`, `toHex(fromHex(h))` is `0x` followed by `h` lower-cased. |
| Security.ToHexIsAddressIffTwentyBytes | examples/nextjs-showcase/src/lib/utils/security.ts:10-35 | The hex form of a byte sequence is a valid address exactly when the sequence has 20 bytes. |
| Security.AddressDecodesToTwentyBytes | examples/nextjs-showcase/src/lib/utils/security.ts:10-46 | Every valid address decodes to 20 bytes whose hex form is the address lower-cased. |
| SdkUtils.Uint8ArrayToHex | packages/fhevm-sdk/src/utils/index.ts:8-10 | The SDK encoder produces the same string as the showcase's `toHex`. |
| SdkUtils.HexToUint8Array | packages/fhevm-sdk/src/utils/index.ts:15-22 | The prefix is removed only when the string starts with `0x`. The result has ⌊len/2⌋ bytes and equals the showcase's `fromHex` on every input. |
| SdkUtils.RoundTrip | packages/fhevm-sdk/src/utils/index.ts:8-22 | `hexToUint8Array(uint8ArrayToHex(b)) == b`. |
| SdkUtils.RoundTripText | packages/fhevm-sdk/src/utils/index.ts:8-22 | For an even-length string of hex digits `h`, with or without the prefix, re-encoding gives `0x` followed by `h` lower-cased. |
| SdkUtils.FormatAddress | packages/fhevm-sdk/src/utils/index.ts:27-30 | The result is empty exactly when the address is empty. |
| SdkUtils.FormatAddressShape | packages/fhevm-sdk/src/utils/index.ts:27-30 | For chars ≥ 1 and an address of at least chars + 2 characters, the result is the first chars + 2 characters, then `...`, then the last chars characters. Its length is 2·chars + 5. |
| SdkUtils.FormatAddressDefault | packages/fhevm-sdk/src/utils/index.ts:27-30 | With the default of 4, a 42-character address becomes 13 characters that keep its first six and last four. |
| SdkUtils.FormatAddressZeroWidth | packages/fhevm-sdk/src/utils/index.ts:27-30 | With chars = 0, `slice(-0)` is the whole string, so the whole address follows the ellipsis. |
| SdkClient.GetPublicKey | packages/fhevm-sdk/src/core/client.ts:70-89 | The call first builds a provider over `window.ethereum` and throws that construction's error when no injected wallet exists. It then fails on a given ACL address whose code is `0x`, and on a key reply that is not ok. It succeeds exactly when the provider is built and both checks pass, and then returns the reply's key. |
| SdkClient.CreateFailsWithoutKey | packages/fhevm-sdk/src/core/client.ts:28-45 | When the key step fails after the signer is obtained, `createFhevmClient` throws that step's error and the slot, and so what `getFhevmClient` answers, stays as before. |
| SdkClient.CreateFailsOnMissingAcl | packages/fhevm-sdk/src/core/client.ts:74-78 | Where a window provider can be built, an ACL address without code makes `createFhevmClient` throw `ACL contract not found at <address>` and leaves the slot alone. |
| SdkClient.ConfiguredProviderStillNeedsWindow | packages/fhevm-sdk/src/core/client.ts:25-71 | A configured provider does not avoid `new BrowserProvider(window.ethereum)`: without an injected wallet, `createFhevmClient` throws that error after obtaining the signer, and the slot is untouched. |
| SdkClient.CreateFhevmClient | packages/fhevm-sdk/src/core/client.ts:24-48 | A failing step leaves the slot unchanged. Success, which needs the provider (the configured one, or one over `window.ethereum`), signer, key and instance all to succeed, stores an initialized client with the given configuration and returns it. |
| SdkClient.ResetFhevmClient | packages/fhevm-sdk/src/core/client.ts:63-65 | After a reset, `getFhevmClient` fails. |
| SdkClient.CreateThenGet | packages/fhevm-sdk/src/core/client.ts:45-57 | A successful create is what the next get returns. |
| SdkClient.LastCreateWins | packages/fhevm-sdk/src/core/client.ts:45 | For calls that do not overlap: after two creates, the second successful, the slot holds the second client. |
| SdkClient.RunPreservesSlotInvariant | packages/fhevm-sdk/src/core/client.ts:24-65 | Across any sequence of creates, gets and resets, the slot holds only initialized clients. So get fails exactly when the slot is empty. |
| SdkClient.ResetThenGetFailsUntilCreate | packages/fhevm-sdk/src/core/client.ts:53-65 | For calls that do not overlap: after a reset, gets keep failing through any sequence of gets, resets and failing creates. |
| SdkEncrypt.EncoderFor | packages/fhevm-sdk/src/core/encrypt.ts:88-108 | The switch recognises exactly the six tags. |
| SdkEncrypt.EncoderForIsInverseOfTag | packages/fhevm-sdk/src/core/encrypt.ts:88-106 | Each tag reaches exactly its own encoder, with no sharing and no fallback. |
| SdkEncrypt.EncryptWith | packages/fhevm-sdk/src/core/encrypt.ts:12-78 | Each guard fails before calling the library when there is no active client or no instance. Otherwise it calls its own encoder once and returns that encoder's output. |
| SdkEncrypt.Encrypt | packages/fhevm-sdk/src/core/encrypt.ts:88-108 | An unknown tag throws `Unsupported encryption type: <tag>` and calls nothing. A known tag delegates to its guard. |
| SdkEncrypt.EncryptPassesValueThrough | packages/fhevm-sdk/src/core/encrypt.ts:28-34 | With an active session, the caller's value reaches the encoder unchanged, and the encoder's output is returned unchanged. |
| SdkEncrypt.EncryptDoesNotValidate | packages/fhevm-sdk/src/core/encrypt.ts:28-34 | 256 is refused by the `uint8` pre-check but still reaches the `uint8` encoder. |
| SdkEncrypt.EncryptAfterReset | packages/fhevm-sdk/src/core/encrypt.ts:12-17 | After a reset, every encryption fails without reaching the library. |
| Computation.TruncDiv | examples/nextjs-showcase/src/hooks/useComputation.ts:41 | The BigInt quotient leaves a remainder smaller than the divisor in magnitude, and zero or of the dividend's sign. |
| Computation.TruncDivUnique | examples/nextjs-showcase/src/hooks/useComputation.ts:41 | Those two properties single out the quotient. |
| Computation.TruncDivOfNonNegative | examples/nextjs-showcase/src/hooks/useComputation.ts:41 | On non-negative operands it agrees with Euclidean division. |
| Computation.TruncDivDiffersFromEuclidean | examples/nextjs-showcase/src/hooks/useComputation.ts:41 | `-7n / 2n` is −3, while Euclidean division gives −4. |
| Computation.Evaluate | examples/nextjs-showcase/src/hooks/useComputation.ts:30-45 | The results by operation: <br>- `add`, `subtract` and `multiply` give a+b, a−b and a·b; <br>- `divide` gives the truncated quotient, or throws on a zero divisor; <br>- any other tag throws `Unsupported operation: <op>`. |
| Computation.Compute | examples/nextjs-showcase/src/hooks/useComputation.ts:19-62 | The busy flag is down after every call. <br>- On success the result is `{value, success: true, now}`, and the error is cleared. <br>- On failure the error `Evaluate` throws is both recorded and rethrown, and the previous result is kept. |
| Computation.FailureThenSuccess | examples/nextjs-showcase/src/hooks/useComputation.ts:24-61 | A division by zero leaves the earlier result, and the next successful call clears the recorded error. |
| KeyManager.ToUint8Array | examples/nextjs-showcase/src/lib/fhe/keys.ts:18 | `new Uint8Array(numbers)` keeps every element modulo 256. |
| KeyManager.GetPublicKey | examples/nextjs-showcase/src/lib/fhe/keys.ts:10-24 | A cached key is returned without a fetch. Without one, a failed fetch rethrows and caches nothing, and a successful one caches and returns the converted key. |
| KeyManager.SetThenGet | examples/nextjs-showcase/src/lib/fhe/keys.ts:10-37 | After `setPublicKey(k)`, `hasPublicKey()` holds and `getPublicKey` returns `k` without a fetch. |
| KeyManager.ClearThenHas | examples/nextjs-showcase/src/lib/fhe/keys.ts:10-37 | After `clearKeys()`, `hasPublicKey()` is false and the next get fetches. |
| KeyManager.FetchIsCached | examples/nextjs-showcase/src/lib/fhe/keys.ts:10-24 | A failed fetch leaves the cache empty. After a successful fetch, later gets return the same key without fetching. |
| KeyManager.PrivateKeyNeverSet | examples/nextjs-showcase/src/lib/fhe/keys.ts:6-37 | No operation writes the private key, so an empty private slot stays empty. |
| Pausers.Deploy | examples/insurance-platform/test/PauserSet.test.ts:20-83 | The constructor's outcomes: <br>- an empty list reverts with `At least one pauser required`; <br>- entries are checked front to back (an assumed order, see Left out), so it fails with `Invalid pauser address` or `Duplicate pauser address` exactly when the first rejected entry is zero or repeated; <br>- it succeeds exactly for non-empty, zero-free, duplicate-free lists; <br>- on success it stores the list in order and emits one `PauserAdded` per entry. |
| Pausers.AcceptedIffDistinctNonZero | examples/insurance-platform/test/PauserSet.test.ts:71-83 | The constructor accepting every entry in turn is the same as the list being free of zeros and duplicates. |
| Pausers.PauserAt | examples/insurance-platform/test/PauserSet.test.ts:113-116 | `pausers(i)` succeeds exactly for an index inside the list and returns the address at that position; past the end it reverts without a reason. |
| Pausers.DeployedQueries | examples/insurance-platform/test/PauserSet.test.ts:96-158 | After deployment: <br>- the count is the list length; <br>- exactly the listed addresses are authorised; <br>- `getPausers()` and `pausers(i)` return the addresses in constructor order; <br>- the zero address is not authorised. |
| Insurance.StatusOf | examples/insurance-platform/test/PrivateVehicleInsurance.test.ts:268-331 | A status code decodes exactly when it is at most 4, and decodes to the status with that code. |
| Insurance.StatusCodeRoundTrip | examples/insurance-platform/test/PrivateVehicleInsurance.test.ts:268-331 | Encoding a status and decoding it gives the status back. |
| Insurance.SampleRulesAgreeWithTests | examples/insurance-platform/test/PrivateVehicleInsurance.test.ts:102-116 | Some eligibility rule meets every age and driving-years example the tests assert. |
| Insurance.Deploy | examples/insurance-platform/test/PrivateVehicleInsurance.test.ts:38-66 | It reverts exactly for a zero `PauserSet` address. Otherwise the contract starts unpaused, with the given `PauserSet` and its address stored, both counters at 1, no policies, claims, reviews, per-holder lists or reviewers, and the deployer as company. |
| Insurance.CreatePolicy | examples/insurance-platform/test/PrivateVehicleInsurance.test.ts:70-138 | Each failing condition gives the revert reason the tests assert: `Contract is paused`, `Invalid age`, `Invalid driving years`, `Vehicle value must be positive`, `Premium must be positive`. When several fail, the first in that order is reported (an assumed order, see Left out). It succeeds exactly when all checks pass. On success: <br>- the new active policy takes id `nextPolicyId` and the counter grows by one; <br>- the id is appended to the holder's list, and other holders' lists are untouched; <br>- nothing else in the state changes; <br>- one `PolicyCreated` event is emitted. |
| Insurance.SubmitClaim | examples/insurance-platform/test/PrivateVehicleInsurance.test.ts:152-246 | Each failing condition gives the revert reason the tests assert: `Not policy holder`, `Damage amount must be positive`, `Repair cost must be positive`, `Document hash required`; a severity above 3 reverts without a reason. When several fail, the first in the modelled order is reported (an assumed order, see Left out). It succeeds exactly for the holder with positive amounts, a severity of 0 to 3 and a document hash. On success: <br>- a Submitted claim takes the next id; <br>- the id is appended to the claimant's list; <br>- nothing else in the state changes; <br>- one `ClaimSubmitted` event is emitted. |
| Insurance.ReviewClaim | examples/insurance-platform/test/PrivateVehicleInsurance.test.ts:268-331 | Each failing condition gives the revert reason the tests assert: `Not authorized reviewer`, `Claim does not exist`, `Assessed damage must be positive`, `Cannot revert to submitted`; a code above 4 reverts without a reason. When several fail, the first in that order is reported (an assumed order, see Left out). On success: <br>- the status becomes the requested code and the review is recorded; <br>- nothing else in the state changes; <br>- the event log is exactly `ClaimReviewed`, followed by `ClaimApproved` when the new status is Approved and by nothing otherwise. |
| Insurance.ProcessPayment | examples/insurance-platform/test/PrivateVehicleInsurance.test.ts:350-378 | Only the company may pay, and only an Approved claim. Payment moves the claim to Paid and emits `ClaimPaid` to its claimant. |
| Insurance.AuthorizeReviewer | examples/insurance-platform/test/PrivateVehicleInsurance.test.ts:394-449 | Only the company may authorise. It refuses the zero address and an already authorised reviewer, and otherwise adds the reviewer and emits an event. |
| Insurance.RevokeReviewer | examples/insurance-platform/test/PrivateVehicleInsurance.test.ts:394-449 | Only the company may revoke. It refuses an unauthorised address, and otherwise removes the reviewer and emits an event. |
| Insurance.Pause | examples/insurance-platform/test/PrivateVehicleInsurance.test.ts:452-500 | Only an authorised pauser may pause, and not while already paused. Pausing sets the flag and emits an event. |
| Insurance.Unpause | examples/insurance-platform/test/PrivateVehicleInsurance.test.ts:452-500 | Only an authorised pauser may unpause, and only while paused. Unpausing clears the flag and emits an event. |
| Insurance.UpdateInsuranceCompany | examples/insurance-platform/test/PrivateVehicleInsurance.test.ts:549-570 | Only the current company may update, and only to a non-zero address. Nothing else changes. |
| Insurance.GetClaimDetails | examples/insurance-platform/test/PrivateVehicleInsurance.test.ts:518-546 | The details are visible exactly to the claimant, the company and authorised reviewers, and return that claim's policy id, claimant, document hash, confidentiality flag and status. |
| Insurance.DeployEstablishesValid | examples/insurance-platform/test/PrivateVehicleInsurance.test.ts:38-66 | A freshly deployed contract satisfies the invariant: <br>- dense ids; <br>- claims filed by policy holders; <br>- reviews exactly for non-Submitted claims; <br>- per-holder lists that are ordered and complete; <br>- non-zero roles. |
| Insurance.CreatePolicyPreservesValid | examples/insurance-platform/test/PrivateVehicleInsurance.test.ts:70-100 | A successful `createPolicy` keeps the invariant. |
| Insurance.SubmitClaimPreservesValid | examples/insurance-platform/test/PrivateVehicleInsurance.test.ts:152-246 | A successful `submitClaim` keeps the invariant. |
| Insurance.ReviewClaimPreservesValid | examples/insurance-platform/test/PrivateVehicleInsurance.test.ts:268-331 | A successful `reviewClaim` keeps the invariant. |
| Insurance.ProcessPaymentPreservesValid | examples/insurance-platform/test/PrivateVehicleInsurance.test.ts:350-378 | A successful `processPayment` keeps the invariant. |
| Insurance.Execute | examples/insurance-platform/test/PrivateVehicleInsurance.test.ts:70-570 | No entry point changes the `PauserSet` in use. When ids are dense, no entry point lowers a counter, removes or rewrites a policy, or changes a claim's claimant. |
| Insurance.NextPreservesValid | examples/insurance-platform/test/PrivateVehicleInsurance.test.ts:70-570 | Any transaction from a non-zero sender, successful or reverted, keeps the invariant. |
| Insurance.RunAllPreservesValid | examples/insurance-platform/test/PrivateVehicleInsurance.test.ts:574-628 | Every state reached by a sequence of transactions satisfies the invariant. |
| Insurance.RunAllKeepsPauserSet | examples/insurance-platform/test/PauserSet.test.ts:120-139 | No sequence of transactions changes the pauser set or its address. |
| Insurance.RunAllKeepsRecords | examples/insurance-platform/test/PrivateVehicleInsurance.test.ts:574-628 | Over any run, the counters never decrease, and every existing policy and claimant survives unchanged. |
| Insurance.AuthorizeThenRevoke | examples/insurance-platform/test/PrivateVehicleInsurance.test.ts:395-421 | Authorising and then revoking a reviewer restores the reviewer set, and leaves the reviewer unauthorised. |
| Insurance.PauseThenUnpause | examples/insurance-platform/test/PrivateVehicleInsurance.test.ts:453-500 | Pause then unpause restores the state, a second pause fails, and `isPauseAllowed` tracks the flag. |
| Insurance.PaymentIsFinal | examples/insurance-platform/test/PrivateVehicleInsurance.test.ts:350-372 | A paid claim reads Paid and cannot be paid again without a new review, and paying a different claim leaves its record unchanged. |
| Insurance.FullClaimLifecycle | examples/insurance-platform/test/PrivateVehicleInsurance.test.ts:598-628 | The tests' lifecycle goes through, with statuses 0, then 2, then 4, and the asserted events: <br>- create a policy; <br>- submit a claim; <br>- authorise a reviewer; <br>- approve the claim; <br>- pay it. |

## Left out

- `core/decrypt.ts` is not part of this model. It is a gateway client built on `fetch` and typed-data signing.
- React hooks and providers are not modelled. This includes `useEncrypt`, `useDecrypt`, `useFhevmClient`, `FHEProvider`, `useFHE` and `useEncryption`, and also the `FHEClient` singleton. They are state glue whose meaning rests on React's asynchronous updates.
- The FHE library is not modelled; it is foreign code. Its encoders and `createInstance` are parameters.
- `BrowserProvider`, `getSigner`, `getCode` and `fetch` are parameters too, for the same reason.
- `isValidUrl` (`validation.ts`:10-17) is not modelled; it rests on the URL parser of the host.
- `isEncrypted` (`utils/index.ts`:35-37) is not modelled; it is an `instanceof` check on host objects.
- JavaScript values other than booleans, BigInts, finite numbers, strings, null and undefined are not modelled. This leaves out NaN, infinities and objects as inputs to `validateEncryptionInput`.
- The host's exception messages are reduced to their error class (`TypeError`, `SyntaxError`, `RangeError`). The computation hook is the exception: it records the thrown `Error` object, and the model keeps that object's message for both of its errors, V8's `Division by zero` and `Unsupported operation: <op>`, but not the error's class.
- Strings are sequences of Unicode code points, while JavaScript's `length`, `slice` and `substr` count UTF-16 code units. On text outside the Basic Multilingual Plane the lengths and indices therefore differ: `fromHex` of two emoji reads two bytes in JavaScript (`length` 4) and one in the model, and `hexToUint8Array` and `formatAddress` differ in the same way. Inside that plane the two agree.
- A JavaScript number is modelled as an exact real, not an IEEE 754 double. Rounding of large literals is not modelled: for instance, the number literal 18446744073709551615 is the double 2^64 in JavaScript, which `validateEncryptionInput` refuses for `uint64`, while the model accepts the exact value.
- SdkClient.CreateFhevmClient: each create is one atomic step. In the source it awaits the signer, the key and the instance (`client.ts`:28-34) before it writes the slot (`client.ts`:45). A reset or another create that overlaps a pending create is not modelled: there the pending create can write the slot after the reset, and of two overlapping creates the one that finishes last wins. `LastCreateWins` and `ResetThenGetFailsUntilCreate` hold for calls that do not overlap.
- KeyManager.GetPublicKey: each call is one atomic step. Overlapping calls are not modelled: in the source both would pass the cache test before either fetch completes, both would fetch, and the later write would win. `FetchIsCached` speaks only of calls that start after the first fetch has completed.
- Pausers.Deploy: the constructor is assumed to check entries front to back, rejecting the first zero or repeated entry. The tests trigger only one failing entry per list, so for a list like `[p, p, 0]` the reported reason (`Duplicate pauser address` here) is a modelling choice.
- Insurance.CreatePolicy: the order of its checks (pause, age, driving years, vehicle value, premium) is assumed. The tests trigger one failing condition per call.
- Insurance.SubmitClaim: the order of its checks (holder, damage, repair cost, severity, document hash) is assumed. The tests trigger one failing condition per call.
- Insurance.ReviewClaim: the order of its checks (reviewer, claim, assessed damage, status) is assumed. Status code 1 (`UnderReview`) is inferred from the gap in the codes the tests read (0, 2, 3, 4), and review accepts it.
- Computation.Compute: `Date.now()` is a parameter, and only the state after a call completes is modelled. The intermediate React state is not observable.
- Insurance.CreatePolicy: the age and driving-years rules are a parameter. The tests pin them only at the points `AgreesWithTests` lists.
- `calculateRiskScore` is not modelled. It is FHE arithmetic whose result the tests only decrypt.
- The contract's encrypted fields are held in the clear. Encryption does not change the control flow the tests assert.
- Insurance.ReviewClaim: reviewing a claim a second time is allowed. Setting Paid directly is allowed too. The tests pin neither case.
- The pause flag is checked only on `createPolicy`, the only entry point the tests exercise while paused.
- Insurance.SubmitClaim: a severity above 3 reverts without a reason string, as a failed enum conversion does.
- The event arguments the tests do not check are modelled from the event's name.
- The front end's status labels are not modelled (2 "Under Review", 3 "Approved", 4 "Rejected"). They disagree with the contract tests, which read 2, 3 and 4 as Approved, Rejected and Paid; this model follows the tests.
- UI pages, layouts, Next.js API route stubs, deploy scripts and build configuration are not modelled.
