/**
 * `splitSignature` of the pay-back page (src/index.ts): a 65-byte Ethereum signature written
 * as 130 hexadecimal characters, optionally after `0x`, is cut into `r` (bytes 0..32),
 * `s` (bytes 32..64) and the recovery byte `v`, which is raised by 27 when a wallet wrote
 * it as 0 or 1.
 */
module Signature {
  import opened Wrappers
  import opened JsText

  /** 65 bytes, two characters each. */
  const SignatureHexLength := 130
  /** The smallest recovery value of the 27/28 convention; smaller ones are offset by it. */
  const RecoveryOffset := 27
  const InvalidLength := "Invalid signature length"

  datatype Parts = Parts(r: string, s: string, v: JsNumber)

  /** `signature.startsWith("0x")`. */
  predicate HasHexPrefix(signature: string) {
    |signature| >= 2 && signature[0] == '0' && signature[1] == 'x'
  }

  /** The signature with at most one leading `0x` removed. */
  function StripHexPrefix(signature: string): (hex: string)
    ensures HasHexPrefix(signature) ==> signature == "0x" + hex
    ensures !HasHexPrefix(signature) ==> hex == signature
  {
    if HasHexPrefix(signature) then signature[2..] else signature
  }

  /** `if (v < 27) v += 27` on a parsed value. */
  function NormalizedValue(raw: int): int {
    if raw < RecoveryOffset then raw + RecoveryOffset else raw
  }

  /** The normalisation on a JavaScript Number: NaN is not below 27 and stays NaN. */
  function NormalizeV(raw: JsNumber): JsNumber {
    match raw
    case NaN => NaN
    case Num(n) => Num(NormalizedValue(n))
  }

  /** `splitSignature`, with its exception as a Failure. */
  function SplitSignature(signature: string): (res: Result<Parts, string>)
    ensures res.Failure? <==> |StripHexPrefix(signature)| != SignatureHexLength
    ensures res.Failure? ==> res.error == InvalidLength
    ensures res.Success? ==>
      && |res.value.r| == 66 && res.value.r[..2] == "0x"
      && |res.value.s| == 66 && res.value.s[..2] == "0x"
  {
    var hex := StripHexPrefix(signature);
    if |hex| != SignatureHexLength then Failure(InvalidLength)
    else
      var r := "0x" + hex[0..64];
      var s := "0x" + hex[64..128];
      var v := NormalizeV(ParseIntHex(hex[128..130]));
      Success(Parts(r, s, v))
  }

  /** The leading `0x` is optional: the same characters split the same way with or without
      it. (Only one prefix is removed, so `h` itself must not start with `0x`.) */
  lemma PrefixIsOptional(h: string)
    requires !HasHexPrefix(h)
    ensures SplitSignature("0x" + h) == SplitSignature(h)
  {
    assert ("0x" + h)[..2] == "0x";
    assert ("0x" + h)[2..] == h;
  }

  /** Only one `0x` is dropped: a second one counts towards the 130 characters and ends up
      at the front of `r`. */
  lemma SecondPrefixIsKept(rest: string)
    requires |rest| == 128
    ensures SplitSignature("0x0x" + rest).Success?
    ensures SplitSignature("0x0x" + rest).value.r == "0x0x" + rest[..62]
  {
    var signature := "0x0x" + rest;
    assert signature[..2] == "0x";
    var hex := signature[2..];
    assert hex == "0x" + rest;
    assert hex[0..64] == "0x" + rest[..62];
  }

  /** `r` and `s` are the first and second 64 characters after the prefix, and putting them
      back together with the last two characters gives the stripped signature again. */
  lemma SplitJoinRoundTrip(signature: string)
    requires SplitSignature(signature).Success?
    ensures var hex := StripHexPrefix(signature);
            var parts := SplitSignature(signature).value;
            && parts.r == "0x" + hex[..64]
            && parts.s == "0x" + hex[64..128]
            && parts.r[2..] + parts.s[2..] + hex[128..] == hex
  {
    var hex := StripHexPrefix(signature);
    var parts := SplitSignature(signature).value;
    assert parts.r[2..] == hex[..64];
    assert parts.s[2..] == hex[64..128];
    assert hex[..64] + hex[64..128] + hex[128..] == hex;
  }

  /** For a hexadecimal recovery byte `b`, `v` is `b + 27` when `b < 27` and `b` otherwise,
      so it always lies in 27..255. */
  lemma RecoveryValueInRange(signature: string)
    requires SplitSignature(signature).Success?
    requires AllHexDigits(StripHexPrefix(signature)[128..])
    ensures var raw := HexDigitsValue(StripHexPrefix(signature)[128..]);
            var v := SplitSignature(signature).value.v;
            && raw <= 255
            && v.Num?
            && (raw < 27 ==> v.n == raw + 27)
            && (raw >= 27 ==> v.n == raw)
            && 27 <= v.n <= 255
  {
    var byte := StripHexPrefix(signature)[128..];
    assert byte == StripHexPrefix(signature)[128..130];
    TwoHexDigitsBelow256(byte);
    ParseHexDigits(byte);
  }

  /** With a 128-character `r`/`s` part that does not start with `0x`, only the last two
      characters decide `v`. */
  lemma RecoveryByteDecidesV(rs: string, byte: string)
    requires |rs| == 128 && !HasHexPrefix(rs) && |byte| == 2
    ensures SplitSignature(rs + byte).Success?
    ensures SplitSignature(rs + byte).value.v == NormalizeV(ParseIntHex(byte))
  {
    var sig := rs + byte;
    assert sig[..2] == rs[..2];
    assert sig[128..130] == byte;
  }

  /** `v` for a signature ending in the hexadecimal `byte`, given that byte's normalised value. */
  lemma RecoveryByteGives(rs: string, byte: string)
    requires |rs| == 128 && !HasHexPrefix(rs) && |byte| == 2 && AllHexDigits(byte)
    ensures SplitSignature(rs + byte).value.v
         == Num(NormalizedValue(16 * DigitValue(byte[0]) + DigitValue(byte[1])))
  {
    RecoveryByteDecidesV(rs, byte);
    TwoHexDigitsBelow256(byte);
    ParseHexDigits(byte);
  }

  /** Wallets that write the recovery byte as 00 or 01 get 27 or 28; 1b and 1c stay 27 and 28. */
  lemma RecoveryByteExamples(rs: string)
    requires |rs| == 128 && !HasHexPrefix(rs)
    ensures SplitSignature(rs + "00").value.v == Num(27)
    ensures SplitSignature(rs + "01").value.v == Num(28)
    ensures SplitSignature(rs + "1b").value.v == Num(27)
    ensures SplitSignature(rs + "1c").value.v == Num(28)
  {
    RecoveryByteGives(rs, "00");
    RecoveryByteGives(rs, "01");
    RecoveryByteGives(rs, "1b");
    RecoveryByteGives(rs, "1c");
  }

  /** Characters that are not hexadecimal are not rejected: a recovery byte `1z` gives
      1 and then 28, and `zz` gives NaN, which the normalisation leaves as it is. */
  lemma NonHexRecoveryByte(rs: string)
    requires |rs| == 128 && !HasHexPrefix(rs)
    ensures SplitSignature(rs + "1z").value.v == Num(28)
    ensures SplitSignature(rs + "zz").value.v == NaN
  {
    RecoveryByteDecidesV(rs, "1z");
    RecoveryByteDecidesV(rs, "zz");
    ParseStopsAtNonDigit();
    ParseWithoutDigitIsNaN();
  }

  /** A sign is read too: a recovery byte `-1` gives -1 and then 26, below the range that
      hexadecimal bytes always land in. */
  lemma SignedRecoveryByte(rs: string)
    requires |rs| == 128 && !HasHexPrefix(rs)
    ensures SplitSignature(rs + "-1").value.v == Num(26)
  {
    RecoveryByteDecidesV(rs, "-1");
    ParseReadsSign();
  }
}
