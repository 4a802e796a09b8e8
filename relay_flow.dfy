/**
 * The pay-back page and the relayer together: the payload the page POSTs, as the relayer
 * decodes it, and what the relayer then does with it.
 */
module RelayFlow {
  import opened Wrappers
  import opened JsText
  import Json
  import Signature
  import PayBack
  import Backend

  /** `json_decode(JSON.stringify(payload), true)`: an object with the six keys; the strings
      arrive as they were sent, `v` as a number, or as null when it is NaN (which
      `JSON.stringify` writes as null). */
  function PayloadAsJson(p: PayBack.RelayPayload): Json.Value {
    Json.JObject(map[
      "from" := Json.JString(p.from),
      "amount" := Json.JString(p.amount),
      "deadline" := Json.JString(p.deadline),
      "v" := (if p.v.NaN? then Json.JNull else Json.JNumber(p.v.n)),
      "r" := Json.JString(p.r),
      "s" := Json.JString(p.s)])
  }

  /** The relayer accepts a payload from the page exactly when `v` is a number, and then
      calls `metaTransfer` with the payload's own values and the owner it reads itself. */
  lemma RelayAcceptsPayloadIffVIsNumber(p: PayBack.RelayPayload, chain: Backend.Chain)
    ensures var reply := Backend.Respond("POST", Some(PayloadAsJson(p)), chain);
      && (reply.code == 200 <==> p.v.Num?)
      && (p.v.Num? ==> reply.call == Some(Backend.MetaTransferCall(
            Json.JString(p.from), chain.owner, Json.JString(p.amount), Json.JString(p.deadline),
            Json.JNumber(p.v.n), Json.JString(p.r), Json.JString(p.s), chain.relayerNonce)))
  {
    var data := Some(PayloadAsJson(p));
    assert Backend.AllParametersSet(data) <==> p.v.Num?;
  }

  /** A well-formed hexadecimal signature always gets through: `v` is a number in 27..255,
      so the relayer answers 200 with the ok response and submits one `metaTransfer`. */
  lemma HexSignatureIsRelayed(account: string, owner: string, nonce: nat, timestamp: int,
                              wholeTokens: int, signature: string, chain: Backend.Chain)
    requires |Signature.StripHexPrefix(signature)| == Signature.SignatureHexLength
    requires AllHexDigits(Signature.StripHexPrefix(signature))
    ensures var res := PayBack.PayBackPayload(account, owner, nonce, Some(timestamp), wholeTokens, signature);
      && res.Success?
      && res.value.v.Num? && 27 <= res.value.v.n <= 255
      && var reply := Backend.Respond("POST", Some(PayloadAsJson(res.value)), chain);
      && reply.code == 200
      && reply.response == Some(Backend.OkResponse)
      && reply.call.Some?
  {
    var hex := Signature.StripHexPrefix(signature);
    assert AllHexDigits(hex[128..]);
    Signature.RecoveryValueInRange(signature);
    var p := PayBack.PayBackPayload(account, owner, nonce, Some(timestamp), wholeTokens, signature).value;
    RelayAcceptsPayloadIffVIsNumber(p, chain);
  }

  /** What the relayer submits for the page's payload is what the user signed: the account,
      the amount and deadline strings of the signed message, and, when the owner has not
      changed between the page's read and the relayer's, the signed recipient. */
  lemma RelayedCallMatchesMessage(account: string, owner: string, nonce: nat, timestamp: int,
                                  wholeTokens: int, signature: string, chain: Backend.Chain)
    requires PayBack.PayBackPayload(account, owner, nonce, Some(timestamp), wholeTokens, signature).Success?
    requires PayBack.PayBackPayload(account, owner, nonce, Some(timestamp), wholeTokens, signature).value.v.Num?
    ensures var m := PayBack.BuildMessage(account, owner, wholeTokens, nonce, timestamp);
      var p := PayBack.PayBackPayload(account, owner, nonce, Some(timestamp), wholeTokens, signature).value;
      var call := Backend.Respond("POST", Some(PayloadAsJson(p)), chain).call;
      && call.Some?
      && call.value.from == Json.JString(m.from)
      && call.value.amount == Json.JString(m.amount)
      && call.value.deadline == Json.JString(m.deadline)
      && (chain.owner == owner ==> call.value.to == m.to)
  {
    var p := PayBack.PayBackPayload(account, owner, nonce, Some(timestamp), wholeTokens, signature).value;
    RelayAcceptsPayloadIffVIsNumber(p, chain);
  }

  /** The page and the relayer name the same chain: `0x27d8` is 10200. */
  lemma ChainIdsAgree()
    ensures ParseIntHex(PayBack.ChainId) == Num(Backend.ChainId)
  {
    var digits := "27d8";
    assert PayBack.ChainId == "0x" + digits;
    ParseIntHexPrefixed(digits);
    ChainIdDigits();
  }

  /** The hexadecimal digits 27d8 stand for 10200. */
  lemma ChainIdDigits()
    ensures HexDigitsValue("27d8") == 10200
  {
    var digits := "27d8";
    assert digits[..3] == "27d" && digits[..3][..2] == "27" && digits[..3][..2][..1] == "2";
    assert HexDigitsValue("2") == 2;
    assert HexDigitsValue("27") == 39;
    assert HexDigitsValue("27d") == 637;
  }
}
