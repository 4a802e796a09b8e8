/**
 * The relayer endpoint (public/backend.php). A request is answered in one of three ways:
 * an `OPTIONS` pre-flight gets 200 and nothing else; a body with all six of `from`, `amount`,
 * `deadline`, `v`, `r`, `s` set leads to one `metaTransfer` transaction to the contract owner
 * and 200 `{"status":"ok","message":"OK"}`; anything else gets 400
 * `{"status":"error","message":"Invalid or missing parameters"}`.
 * The chain reads the script makes (the owner, the relayer's nonce) and the result of `send`
 * are inputs.
 */
module Backend {
  import opened Wrappers
  import Json

  type Address = string

  /** The chain id the relayer signs for (Chiado). */
  const ChainId := 10200

  const OptionsMethod := "OPTIONS"
  /** The request fields that must all be set, in the order the script tests them. */
  const RequiredKeys := ["from", "amount", "deadline", "v", "r", "s"]

  datatype Response = Response(status: string, message: string)

  const OkResponse := Response("ok", "OK")
  const InvalidResponse := Response("error", "Invalid or missing parameters")

  /** The one contract call the relayer submits: `metaTransfer(from, to, amount, deadline, v,
      r, s)` in that argument order, with the relayer's nonce as extra data. */
  datatype MetaTransferCall = MetaTransferCall(
    from: Json.Value, to: Address, amount: Json.Value, deadline: Json.Value,
    v: Json.Value, r: Json.Value, s: Json.Value, nonce: nat)

  /** What the chain answers: the contract's owner, the relayer's nonce, and what `send`
      returns. */
  datatype Chain = Chain(owner: Address, relayerNonce: nat, sendResult: Json.Value)

  /** The status code, the JSON response echoed (none after the pre-flight's `exit`), and the
      transaction submitted, if any. */
  datatype Reply = Reply(code: int, response: Option<Response>, call: Option<MetaTransferCall>)

  /** PHP's `isset($data[key])` for `$data = json_decode($body, true)`. `$data` is null when the
      body does not decode; only a decoded object has string keys; a key whose value is JSON
      null is not set. */
  predicate Isset(data: Option<Json.Value>, key: string) {
    && data.Some?
    && data.value.JObject?
    && key in data.value.fields
    && data.value.fields[key] != Json.JNull
  }

  /** `isset($data['from'], $data['amount'], $data['deadline'], $data['v'], $data['r'], $data['s'])`. */
  predicate AllParametersSet(data: Option<Json.Value>) {
    && Isset(data, "from") && Isset(data, "amount") && Isset(data, "deadline")
    && Isset(data, "v") && Isset(data, "r") && Isset(data, "s")
  }

  /** The decision the script makes for one request. */
  function Respond(requestMethod: string, data: Option<Json.Value>, chain: Chain): (reply: Reply)
    ensures reply.code == 200 || reply.code == 400
    ensures reply.call.Some? ==> reply.call.value.to == chain.owner && reply.call.value.nonce == chain.relayerNonce
    ensures reply.code == 400 <==> reply.response == Some(InvalidResponse)
  {
    if requestMethod == OptionsMethod then Reply(200, None, None)
    else if AllParametersSet(data) then
      var fields := data.value.fields;
      var call := MetaTransferCall(fields["from"], chain.owner, fields["amount"], fields["deadline"],
                                   fields["v"], fields["r"], fields["s"], chain.relayerNonce);
      Reply(200, Some(OkResponse), Some(call))
    else Reply(400, Some(InvalidResponse), None)
  }

  /** `json_encode($response)` for the two responses the script builds (neither string needs
      escaping). */
  function EncodeResponse(response: Response): string {
    "{\"status\":\"" + response.status + "\",\"message\":\"" + response.message + "\"}"
  }

  /** The script, step by step: the status code set with `http_response_code`, the text
      echoed, and the transactions sent. */
  method HandleRequest(requestMethod: string, data: Option<Json.Value>, chain: Chain)
    returns (code: int, output: string, sent: seq<MetaTransferCall>)
    ensures var reply := Respond(requestMethod, data, chain);
      && code == reply.code
      && output == (if reply.response.Some? then EncodeResponse(reply.response.value) else "")
      && sent == (if reply.call.Some? then [reply.call.value] else [])
    ensures |sent| <= 1
    ensures sent != [] <==> requestMethod != OptionsMethod && code == 200
  {
    code, output, sent := 200, "", [];
    if requestMethod == OptionsMethod {
      code := 200;
      return;
    }
    var response: Response;
    if AllParametersSet(data) {
      var from, amount, deadline := data.value.fields["from"], data.value.fields["amount"], data.value.fields["deadline"];
      var v, r, s := data.value.fields["v"], data.value.fields["r"], data.value.fields["s"];
      var owner := chain.owner;
      var nonce := chain.relayerNonce;
      sent := sent + [MetaTransferCall(from, owner, amount, deadline, v, r, s, nonce)];
      code := 200;
      response := OkResponse;
    } else {
      code := 400;
      response := InvalidResponse;
    }
    output := EncodeResponse(response);
  }

  /** A pre-flight request gets 200 and nothing else, whatever the body: no check, no call,
      no response body. */
  lemma OptionsShortCircuits(data: Option<Json.Value>, chain: Chain)
    ensures Respond(OptionsMethod, data, chain) == Reply(200, None, None)
  {
  }

  /** Any other request succeeds exactly when the six parameters are set; success means 200,
      the ok response and a call, failure 400, the error response and no call. */
  lemma AcceptedIffAllSet(requestMethod: string, data: Option<Json.Value>, chain: Chain)
    requires requestMethod != OptionsMethod
    ensures var reply := Respond(requestMethod, data, chain);
      && (reply.code == 200 <==> AllParametersSet(data))
      && (reply.call.Some? <==> AllParametersSet(data))
      && (AllParametersSet(data) ==> reply.response == Some(OkResponse))
      && (!AllParametersSet(data) ==> reply == Reply(400, Some(InvalidResponse), None))
  {
  }

  /** One required key that is not set makes the request fail. */
  lemma MissingKeyRejected(requestMethod: string, data: Option<Json.Value>, chain: Chain, key: string)
    requires requestMethod != OptionsMethod
    requires key in RequiredKeys && !Isset(data, key)
    ensures Respond(requestMethod, data, chain) == Reply(400, Some(InvalidResponse), None)
  {
  }

  /** A required key present with the value null counts as missing. */
  lemma NullValueRejected(requestMethod: string, fields: map<string, Json.Value>, chain: Chain, key: string)
    requires requestMethod != OptionsMethod
    requires key in RequiredKeys && key in fields && fields[key] == Json.JNull
    ensures Respond(requestMethod, Some(Json.JObject(fields)), chain) == Reply(400, Some(InvalidResponse), None)
  {
    MissingKeyRejected(requestMethod, Some(Json.JObject(fields)), chain, key);
  }

  /** A body that does not decode (`$data` is null), or decodes to anything but an object,
      fails like a missing key. */
  lemma NonObjectRejected(requestMethod: string, data: Option<Json.Value>, chain: Chain)
    requires requestMethod != OptionsMethod
    requires data.None? || !data.value.JObject?
    ensures Respond(requestMethod, data, chain) == Reply(400, Some(InvalidResponse), None)
  {
  }

  /** The field values are not inspected: they reach `metaTransfer` unchanged, and the
      recipient is always the owner read from the chain, never a request field. */
  lemma FieldsPassedThrough(requestMethod: string, fields: map<string, Json.Value>, chain: Chain)
    requires requestMethod != OptionsMethod
    requires AllParametersSet(Some(Json.JObject(fields)))
    ensures Respond(requestMethod, Some(Json.JObject(fields)), chain).call ==
      Some(MetaTransferCall(fields["from"], chain.owner, fields["amount"], fields["deadline"],
                            fields["v"], fields["r"], fields["s"], chain.relayerNonce))
  {
  }

  /** Validation checks presence only: two bodies that both set the six keys get the same
      status and response, whatever their values. */
  lemma PresenceOnly(requestMethod: string, d1: Option<Json.Value>, d2: Option<Json.Value>, chain: Chain)
    requires AllParametersSet(d1) && AllParametersSet(d2)
    ensures Respond(requestMethod, d1, chain).code == Respond(requestMethod, d2, chain).code
    ensures Respond(requestMethod, d1, chain).response == Respond(requestMethod, d2, chain).response
  {
  }

  /** The answer does not depend on what `send` returned: `$result` is never looked at. */
  lemma SendResultIgnored(requestMethod: string, data: Option<Json.Value>, c1: Chain, c2: Chain)
    requires c1.owner == c2.owner && c1.relayerNonce == c2.relayerNonce
    ensures Respond(requestMethod, data, c1) == Respond(requestMethod, data, c2)
  {
  }

  /** The method is compared with `OPTIONS` only: a GET or any other method is served as a
      POST would be. */
  lemma OnlyOptionsIsSpecial(requestMethod: string, data: Option<Json.Value>, chain: Chain)
    requires requestMethod != OptionsMethod
    ensures Respond(requestMethod, data, chain) == Respond("POST", data, chain)
  {
  }

  /** A complete body gets 200 and the ok response; the same body without `amount` gets 400. */
  lemma ExampleBodies(chain: Chain)
    ensures var body := map[
              "from" := Json.JString("0xabc"), "amount" := Json.JString("1000"),
              "deadline" := Json.JString("1700000000"), "v" := Json.JNumber(27),
              "r" := Json.JString("0x01"), "s" := Json.JString("0x02")];
      && Respond("POST", Some(Json.JObject(body)), chain).code == 200
      && Respond("POST", Some(Json.JObject(body)), chain).response == Some(OkResponse)
      && Respond("POST", Some(Json.JObject(body - {"amount"})), chain) == Reply(400, Some(InvalidResponse), None)
  {
  }
}
