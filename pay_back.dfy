/**
 * The computations inside `payBack` of the pay-back page (src/index.ts): the deadline one day
 * after the latest block, the amount in the token's smallest unit, the message the wallet
 * signs, and the payload that is POSTed to the relayer once the signature is split.
 * The chain reads (owner, nonce, latest block), the account, the amount typed by the user and
 * the wallet's signature are inputs.
 */
module PayBack {
  import opened Wrappers
  import opened JsText
  import Signature

  /** One day, in seconds. */
  const DeadlineWindow := 86400
  /** `BigInt(10 ** 18)`: 10^18 is exactly representable as a Number, so nothing is lost. */
  const WeiPerToken := 1_000_000_000_000_000_000
  /** The `chainId` of the signing domain (Chiado). */
  const ChainId := "0x27d8"
  const BlockMissing := "Failed to fetch the latest block."

  /** The `Transfer` message the wallet signs; every field is a decimal or address string. */
  datatype TransferMessage = TransferMessage(from: string, to: string, amount: string, nonce: string, deadline: string)

  /** The body POSTed to the relayer. */
  datatype RelayPayload = RelayPayload(from: string, amount: string, deadline: string, v: JsNumber, r: string, s: string)

  /** `currentTimestamp + 86400`. */
  function Deadline(timestamp: int): int {
    timestamp + DeadlineWindow
  }

  /** `BigInt(input) * BigInt(10 ** 18)`: whole tokens to the smallest unit. */
  function AmountInWei(wholeTokens: int): int {
    wholeTokens * WeiPerToken
  }

  /** The `message` object: the account, the owner, and the amount, nonce and deadline
      written with `toString()`. Each number field reads back as the value it stands for. */
  function BuildMessage(account: string, owner: string, wholeTokens: int, nonce: nat, timestamp: int): (m: TransferMessage)
    ensures m.from == account && m.to == owner
    ensures DecimalValue(m.amount) == Some(wholeTokens * 1_000_000_000_000_000_000)
    ensures DecimalValue(m.nonce) == Some(nonce)
    ensures DecimalValue(m.deadline) == Some(timestamp + 86400)
  {
    DecimalRoundTrip(AmountInWei(wholeTokens));
    DecimalRoundTrip(nonce);
    DecimalRoundTrip(Deadline(timestamp));
    TransferMessage(account, owner, IntToString(AmountInWei(wholeTokens)), IntToString(nonce),
                    IntToString(Deadline(timestamp)))
  }

  /** The `payload` object: the message's from, amount and deadline, and the split signature. */
  function MakePayload(m: TransferMessage, parts: Signature.Parts): RelayPayload {
    RelayPayload(m.from, m.amount, m.deadline, parts.v, parts.r, parts.s)
  }

  /** What `payBack` computes before the POST: the payload, or the error it throws when the
      latest block is missing or the signature has the wrong length. */
  function PayBackPayload(account: string, owner: string, nonce: nat, latestBlock: Option<int>,
                          wholeTokens: int, signature: string): (res: Result<RelayPayload, string>)
    ensures latestBlock.None? ==> res == Failure(BlockMissing)
    ensures latestBlock.Some? ==>
      (res.Failure? <==> |Signature.StripHexPrefix(signature)| != Signature.SignatureHexLength)
    ensures latestBlock.Some? && res.Failure? ==> res.error == Signature.InvalidLength
    ensures res.Success? ==>
      var p := res.value;
      var parts := Signature.SplitSignature(signature).value;
      && latestBlock.Some?
      && p.from == account
      && DecimalValue(p.amount) == Some(wholeTokens * 1_000_000_000_000_000_000)
      && DecimalValue(p.deadline) == Some(latestBlock.value + 86400)
      && p.v == parts.v && p.r == parts.r && p.s == parts.s
  {
    if latestBlock.None? then Failure(BlockMissing)
    else
      var message := BuildMessage(account, owner, wholeTokens, nonce, latestBlock.value);
      match Signature.SplitSignature(signature)
      case Failure(e) => Failure(e)
      case Success(parts) => Success(MakePayload(message, parts))
  }

  /** The payload carries the signed message's own from, amount and deadline strings, so the
      relayer forwards exactly what was signed. */
  lemma PayloadCopiesMessage(account: string, owner: string, nonce: nat, timestamp: int,
                             wholeTokens: int, signature: string)
    requires Signature.SplitSignature(signature).Success?
    ensures var m := BuildMessage(account, owner, wholeTokens, nonce, timestamp);
            var res := PayBackPayload(account, owner, nonce, Some(timestamp), wholeTokens, signature);
            && res.Success?
            && res.value.from == m.from && res.value.amount == m.amount
            && res.value.deadline == m.deadline
            && m.to == owner
  {
  }
}
