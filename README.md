# Gas-less token pay-back: signature splitting and relay decision

This project models the two pieces of logic in the CQM token pay-back flow that can be
stated exactly, and proves properties of them in Dafny 4.11.

- **The pay-back page** (`src/index.ts`). `splitSignature` cuts a 65-byte EIP-712 signature,
  written as 130 hexadecimal characters after an optional `0x`, into `r`, `s` and the recovery
  value `v`. A recovery byte below 27 is raised by 27. Around it, `payBack` computes the
  deadline (latest block timestamp + 86400 s) and the amount (whole tokens × 10^18). It writes
  the `Transfer` message and the payload it POSTs to the relayer.
- **The relayer endpoint** (`public/backend.php`). An `OPTIONS` pre-flight gets 200 and nothing
  else. A JSON body with all six of `from, amount, deadline, v, r, s` set (PHP `isset`) leads to
  one `metaTransfer(from, owner, amount, deadline, v, r, s)` transaction, then 200
  `{"status":"ok","message":"OK"}`. Anything else gets 400
  `{"status":"error","message":"Invalid or missing parameters"}`.

Modules:

- `Wrappers`: `Option` and `Result`.
- `JsText`: JavaScript's `parseInt(…, 16)` and the decimal `toString()` of integers, with an
  independent decimal reader as the round-trip partner.
- `Json`: a decoded JSON value.
- `Signature`: `splitSignature`.
- `PayBack`: deadline, amount, message and payload.
- `Backend`: the relayer's decision. `Respond` is a pure function. `HandleRequest` is the
  script step by step, proved equal to `Respond`.
- `RelayFlow`: the page's payload as the relayer decodes it, and what the relayer does with it.

Inputs from outside the model: the chain reads (owner, nonces, latest block, the relayer's
nonce), the result of `send`, the connected account, the number typed by the user, and the
signature the wallet returns. All are parameters.

`parseInt` is modelled on every input text, so nothing is assumed about the signature's content. It skips
ECMAScript white space, reads a sign, drops `0x`, then reads the longest run of hexadecimal
digits, or gives NaN. So a signature whose last two characters are not hexadecimal is not
rejected. `1z` gives `v = 28`, `-1` gives `v = 26`, and `zz` gives NaN. `JSON.stringify` sends
NaN as null, and the relayer then answers 400 (`RelayAcceptsPayloadIffVIsNumber`).

The code does not check the request method beyond `OPTIONS`. A GET is served like a POST
(`Backend.OnlyOptionsIsSpecial`).

## Model

| member | source | states |
|---|---|---|
| `JsText.ParseHexDigits` | src/index.ts:90 | `parseInt(t, 16)` of a non-empty all-hexadecimal text is that text's value |
| `JsText.TrimStartSkipsWhiteSpace` | src/index.ts:90 | the text `parseInt` reads is a suffix; everything cut off is white space; it does not start with white space |
| `JsText.LongestHexPrefixIsLongest` | src/index.ts:90 | the digits `parseInt` uses are the longest prefix made only of hexadecimal digits |
| `JsText.ParseIntHexPrefixed` | src/index.ts:90 | `parseInt` with radix 16 accepts a `0x` in front of the digits (used below to read the chain id text) |
| `JsText.ParseStopsAtNonDigit` | src/index.ts:90 | `parseInt("1z", 16)` is 1: reading stops at the first non-digit |
| `JsText.ParseWithoutDigitIsNaN` | src/index.ts:90 | `parseInt("zz", 16)` is NaN |
| `JsText.ParseReadsSign` | src/index.ts:90 | `parseInt("-1", 16)` is -1 |
| `JsText.ParseSkipsWhiteSpace` | src/index.ts:90 | `parseInt(" 1", 16)` is 1: leading white space is skipped |
| `JsText.AllDigitsArePrefix` | src/index.ts:90 | a text made only of hexadecimal digits is read in full |
| `JsText.NatToDecimal` | src/index.ts:137-139 | `toString()` of a non-negative integer is non-empty decimal digits, with no leading zero, whose value is the integer |
| `JsText.DecimalRoundTrip` | src/index.ts:137-139 | every integer written by `toString()` reads back as itself |
| `JsText.TwoHexDigitsBelow256` | src/index.ts:90 | two hexadecimal digits have the value 16·d0 + d1, at most 255 |
| `Signature.StripHexPrefix` | src/index.ts:85 | exactly one leading `0x` is removed when present; otherwise the text is unchanged |
| `Signature.SplitSignature` | src/index.ts:84-96 | fails with "Invalid signature length" exactly when the length after prefix removal is not 130; on success `r` and `s` are 66 characters starting with `0x` |
| `Signature.PrefixIsOptional` | src/index.ts:85 | the same characters give the same result with or without a leading `0x` |
| `Signature.SecondPrefixIsKept` | src/index.ts:85-88 | only one prefix is dropped: in `0x0x…` the second `0x` is counted and lands at the front of `r` |
| `Signature.SplitJoinRoundTrip` | src/index.ts:88-90 | `r` is `0x` + characters 0..64 and `s` is `0x` + characters 64..128 of the stripped input; `r`'s digits, then `s`'s digits, then the last two characters give back the stripped input |
| `Signature.RecoveryValueInRange` | src/index.ts:90-93 | for a hexadecimal recovery byte b, `v` is b + 27 when b < 27 and b otherwise, so it lies in 27..255 |
| `Signature.RecoveryByteDecidesV` | src/index.ts:90-93 | with 128 characters in front, `v` is the normalised `parseInt` of the last two characters |
| `Signature.RecoveryByteGives` | src/index.ts:90-93 | a hexadecimal recovery byte `b` gives `v` = `b + 27` when `b < 27` and `b` otherwise |
| `Signature.RecoveryByteExamples` | src/index.ts:90-93 | recovery byte 00 gives 27, 01 gives 28, 1b gives 27 and 1c gives 28 |
| `Signature.NonHexRecoveryByte` | src/index.ts:90-93 | non-hexadecimal recovery bytes are not rejected: `1z` gives 28 and `zz` gives NaN |
| `Signature.SignedRecoveryByte` | src/index.ts:90-93 | recovery byte `-1` gives 26, outside 27..255 |
| `PayBack.BuildMessage` | src/index.ts:121-140 | the message's from and to are the account and the owner; its amount, nonce and deadline read back as whole tokens × 10^18, the nonce, and the timestamp + 86400 |
| `PayBack.PayBackPayload` | src/index.ts:117-168 | fails with "Failed to fetch the latest block." when there is no block, and otherwise exactly when the signature length is wrong; on success the payload's from is the account, its amount and deadline read back as tokens × 10^18 and timestamp + 86400, and its v, r, s are those of `splitSignature` |
| `PayBack.PayloadCopiesMessage` | src/index.ts:161-168 | the payload's from, amount and deadline are the signed message's own strings, and the message's recipient is the owner |
| `Backend.Respond` | public/backend.php:8-65 | the status is 200 or 400; a call goes to the chain's owner with the relayer's nonce; 400 comes exactly with the error response |
| `Backend.HandleRequest` | public/backend.php:8-69 | the script's status code, echoed text and transactions sent are those of `Respond`; at most one transaction is sent, and one is sent exactly when the method is not `OPTIONS` and the status is 200 |
| `Backend.OptionsShortCircuits` | public/backend.php:8-11 | an `OPTIONS` request gets 200 with no response body and no call, whatever the body |
| `Backend.AcceptedIffAllSet` | public/backend.php:32-64 | any other request gets 200, the ok response and a call exactly when all six parameters are set; otherwise 400, the error response and no call |
| `Backend.MissingKeyRejected` | public/backend.php:32-64 | a required key that is not set gives 400, the error response and no call |
| `Backend.NullValueRejected` | public/backend.php:32-64 | a required key whose value is JSON null counts as missing |
| `Backend.NonObjectRejected` | public/backend.php:29-64 | a body that does not decode, or is not a JSON object, gives 400 and no call |
| `Backend.FieldsPassedThrough` | public/backend.php:32-51 | the six values reach `metaTransfer` unchanged, in the order (from, owner, amount, deadline, v, r, s), with the relayer's nonce; the recipient is the chain's owner |
| `Backend.PresenceOnly` | public/backend.php:32-57 | two bodies that both set the six keys get the same status and response, whatever the values |
| `Backend.SendResultIgnored` | public/backend.php:51-57 | the answer does not depend on what `send` returned |
| `Backend.OnlyOptionsIsSpecial` | public/backend.php:8 | every method other than `OPTIONS` is served as a POST would be |
| `Backend.ExampleBodies` | public/backend.php:32-64 | a complete example body gets 200 and the ok response; the same body without `amount` gets 400 and no call |
| `RelayFlow.RelayAcceptsPayloadIffVIsNumber` | public/backend.php:29-51 | the relayer accepts the page's payload exactly when `v` is a number, and then calls `metaTransfer` with the payload's own values and its own read of the owner |
| `RelayFlow.HexSignatureIsRelayed` | src/index.ts:160-177 | a 130-character hexadecimal signature always gets through: `v` is a number in 27..255, and the relayer answers 200 with the ok response and submits a `metaTransfer` |
| `RelayFlow.RelayedCallMatchesMessage` | public/backend.php:33-51 | the relayed call carries the signed message's from, amount and deadline, and its recipient when the owner has not changed between the page's read and the relayer's |
| `RelayFlow.ChainIdsAgree` | src/index.ts:8 | the text `0x27d8` the page hands the wallet as the domain's chain id, read as a hexadecimal number, is the relayer's `chainId` 10200 of public/backend.php line 22 (`parseInt` stands in for the wallet's own reading of that text) |
| `RelayFlow.ChainIdDigits` | public/backend.php:22 | the hexadecimal digits 27d8 of the page's chain id text stand for the relayer's 10200 |

## Left out

- All wallet and RPC interaction: provider detection, `eth_requestAccounts`,
  `eth_signTypedData_v4`, `owner()`, `nonces()`, `getBlock`, `fetch`, and SWeb3's `call`,
  `send` and `getNonce`. These are foreign calls. Their results are parameters.
- The EIP-712 typed data (domain, `Transfer` types, `metamask_request`) is constant data passed
  to the wallet. Hashing and signing happen in the wallet. Only the message's field values are
  modelled.
- `load` and the balance display: a read-only `balanceOf` call through a `JsonRpcProvider`,
  with floating-point display formatting and no local logic.
- `src/admin.ts` (`mint`, `burn`): contract calls signed through the wallet, with no local logic.
- CORS headers, dotenv loading, reading the ABI file, `header('Content-Type…')`, DOM and
  event wiring, alerts, and the page's handling of the relayer's answer.
- `BigInt(amountInput.value)`: the parsing of the typed text is not modelled. The model takes
  the integer it yields. A text BigInt rejects (SyntaxError) is not modelled either.
- Exceptions thrown by the chain calls in the relayer (a PHP fatal error) are not modelled.
- Strings are sequences of Unicode scalar values. JavaScript counts UTF-16 code units, so the
  length check in the model differs from the source only for characters outside the Basic
  Multilingual Plane.
- Numbers: block timestamps and the deadline are unbounded integers. JavaScript Number addition
  is exact for these only below 2^53. JavaScript's negative zero is not told apart from zero;
  for `v` this makes no difference, since both normalise to 27.
- JsText.ParseIntHex: the value is the exact integer, where JavaScript rounds it to the nearest
  double above 2^53 and gives Infinity past 256 hexadecimal digits. The two-character slice at
  src/index.ts:90 (values -15..255) and the four-digit chain id never come near that.
- Json.Value: JSON numbers are integers only. Non-integral numbers are not modelled; the relayer
  passes field values through without looking at them.
- `Backend.EncodeResponse` writes the two fixed responses as `json_encode` does. General JSON
  string escaping is not modelled, because neither response needs it.
- `RelayFlow.PayloadAsJson` models `JSON.stringify`, the HTTP transport and `json_decode` as a
  single step. Strings arrive unchanged and NaN arrives as null.
