/**
 * The pieces of JavaScript's text and number handling that the client relies on:
 * `parseInt(text, 16)` (section 19.2.5 of ECMA-262), which splits a signature's recovery
 * byte, and the decimal `toString()` of an integral Number or BigInt, which writes the
 * amount, nonce and deadline of the signed message.
 */
module JsText {
  import opened Wrappers

  /** A JavaScript Number as far as this model needs one: NaN or an integral value.
      Negative zero is not told apart from zero (nothing downstream can tell them apart). */
  datatype JsNumber = NaN | Num(n: int)

  /** The WhiteSpace and LineTerminator code points of ECMA-262 (sections 12.2 and 12.3),
      which `parseInt` skips before the digits. The space separators listed are those of
      Unicode general category Zs. */
  predicate IsJsWhiteSpace(c: char) {
    if c < '\U{A0}' then c == ' ' || ('\t' <= c <= '\r')
    else
      || c == '\U{A0}' || c == '\U{1680}' || ('\U{2000}' <= c <= '\U{200A}')
      || c == '\U{2028}' || c == '\U{2029}' || c == '\U{202F}' || c == '\U{205F}'
      || c == '\U{3000}' || c == '\U{FEFF}'
  }

  predicate IsHexDigit(c: char) {
    ('0' <= c <= '9') || ('a' <= c <= 'f') || ('A' <= c <= 'F')
  }

  predicate IsDecimalDigit(c: char) {
    '0' <= c <= '9'
  }

  predicate AllHexDigits(s: string) {
    forall i :: 0 <= i < |s| ==> IsHexDigit(s[i])
  }

  predicate AllDecimalDigits(s: string) {
    forall i :: 0 <= i < |s| ==> IsDecimalDigit(s[i])
  }

  /** The value of one digit, in either letter case. */
  function DigitValue(c: char): (d: nat)
    requires IsHexDigit(c)
    ensures d < 16
    ensures d < 10 <==> IsDecimalDigit(c)
  {
    if '0' <= c <= '9' then c as int - '0' as int
    else if 'a' <= c <= 'f' then c as int - 'a' as int + 10
    else c as int - 'A' as int + 10
  }

  /** The lower-case digit of a value below 16, as `toString` writes it. */
  function DigitChar(d: nat): (c: char)
    requires d < 16
    ensures IsHexDigit(c) && DigitValue(c) == d
  {
    if d < 10 then ('0' as int + d) as char else ('a' as int + d - 10) as char
  }

  /** The value of a hexadecimal digit string, most significant digit first. */
  function HexDigitsValue(ds: string): nat
    requires AllHexDigits(ds)
  {
    if ds == [] then 0 else HexDigitsValue(ds[..|ds| - 1]) * 16 + DigitValue(ds[|ds| - 1])
  }

  /** The value of a decimal digit string, most significant digit first. */
  function DecimalDigitsValue(ds: string): nat
    requires AllDecimalDigits(ds)
  {
    if ds == [] then 0 else DecimalDigitsValue(ds[..|ds| - 1]) * 10 + DigitValue(ds[|ds| - 1])
  }

  /** What `parseInt` reads after skipping leading white space. */
  function TrimStart(s: string): string {
    if s != [] && IsJsWhiteSpace(s[0]) then TrimStart(s[1..]) else s
  }

  /** `TrimStart` removes exactly the leading white space: what remains is a suffix that does
      not start with white space, and everything before it is white space. */
  lemma {:induction false} TrimStartSkipsWhiteSpace(s: string)
    ensures var t := TrimStart(s);
      && |t| <= |s| && t == s[|s| - |t|..]
      && (forall i :: 0 <= i < |s| - |t| ==> IsJsWhiteSpace(s[i]))
      && (t == [] || !IsJsWhiteSpace(t[0]))
  {
    if s != [] && IsJsWhiteSpace(s[0]) {
      TrimStartSkipsWhiteSpace(s[1..]);
      var t := TrimStart(s[1..]);
      assert s[1..][|s| - 1 - |t|..] == s[|s| - |t|..];
      forall i | 0 <= i < |s| - |t| ensures IsJsWhiteSpace(s[i]) {
        if i > 0 { assert s[i] == s[1..][i - 1]; }
      }
    }
  }

  /** The longest prefix made of hexadecimal digits only: the digits `parseInt` uses. */
  function LongestHexPrefix(s: string): string {
    if s == [] || !IsHexDigit(s[0]) then [] else [s[0]] + LongestHexPrefix(s[1..])
  }

  /** `LongestHexPrefix` is a prefix of hexadecimal digits that cannot be extended. */
  lemma {:induction false} LongestHexPrefixIsLongest(s: string)
    ensures var p := LongestHexPrefix(s);
      && p <= s && AllHexDigits(p)
      && (|p| == |s| || !IsHexDigit(s[|p|]))
  {
    if s != [] && IsHexDigit(s[0]) {
      LongestHexPrefixIsLongest(s[1..]);
      var p := LongestHexPrefix(s[1..]);
      assert LongestHexPrefix(s) == [s[0]] + p;
      assert forall i :: 1 <= i <= |p| ==> ([s[0]] + p)[i] == p[i - 1];
      assert |p| < |s| - 1 ==> s[1 + |p|] == s[1..][|p|];
    }
  }

  /** `parseInt(s, 16)`: skip white space, then read a signed hexadecimal number. */
  function ParseIntHex(s: string): JsNumber {
    ParseSignedHex(TrimStart(s))
  }

  /** An optional `-` or `+`, then an unsigned hexadecimal number. */
  function ParseSignedHex(t: string): JsNumber {
    if t != [] && t[0] == '-' then
      match ParseUnsignedHex(t[1..])
      case NaN => NaN
      case Num(n) => Num(0 - n)
    else if t != [] && t[0] == '+' then ParseUnsignedHex(t[1..])
    else ParseUnsignedHex(t)
  }

  /** An optional `0x` or `0X`, then the longest run of hexadecimal digits; NaN when that run
      is empty. */
  function ParseUnsignedHex(u: string): JsNumber {
    var body := if |u| >= 2 && u[0] == '0' && (u[1] == 'x' || u[1] == 'X') then u[2..] else u;
    var digits := LongestHexPrefix(body);
    LongestHexPrefixIsLongest(body);
    if digits == [] then NaN else Num(HexDigitsValue(digits))
  }

  /** A string of hexadecimal digits is its own longest hexadecimal prefix. */
  lemma {:induction false} AllDigitsArePrefix(s: string)
    requires AllHexDigits(s)
    ensures LongestHexPrefix(s) == s
  {
    if s != [] {
      AllDigitsArePrefix(s[1..]);
      assert [s[0]] + s[1..] == s;
    }
  }

  /** `parseInt(s, 16)` of a non-empty string of hexadecimal digits is its value. */
  lemma ParseHexDigits(s: string)
    requires s != [] && AllHexDigits(s)
    ensures ParseIntHex(s) == Num(HexDigitsValue(s))
  {
    assert TrimStart(s) == s;
    AllDigitsArePrefix(s);
  }

  /** `parseInt(s, 16)` accepts a `0x` prefix in front of the digits. */
  lemma ParseIntHexPrefixed(digits: string)
    requires digits != [] && AllHexDigits(digits)
    ensures ParseIntHex("0x" + digits) == Num(HexDigitsValue(digits))
  {
    var s := "0x" + digits;
    assert s[0] == '0' && s[1] == 'x' && s[2..] == digits;
    assert TrimStart(s) == s;
    AllDigitsArePrefix(digits);
  }

  /** `parseInt` stops at the first character that is not a digit: `1z` reads as 1. */
  lemma ParseStopsAtNonDigit()
    ensures ParseIntHex("1z") == Num(1)
  {
    var s := "1z";
    assert TrimStart(s) == s;
    assert LongestHexPrefix(s[1..]) == [];
    assert LongestHexPrefix(s) == "1";
    assert HexDigitsValue("1") == 1;
  }

  /** Without a leading digit `parseInt` gives NaN. */
  lemma ParseWithoutDigitIsNaN()
    ensures ParseIntHex("zz") == NaN
  {
    var s := "zz";
    assert TrimStart(s) == s;
    assert LongestHexPrefix(s) == [];
  }

  /** `parseInt` reads a leading minus sign: `-1` is -1. */
  lemma ParseReadsSign()
    ensures ParseIntHex("-1") == Num(-1)
  {
    var s := "-1";
    assert TrimStart(s) == s;
    assert s[1..] == "1";
    assert LongestHexPrefix(s[1..]) == "1";
    assert HexDigitsValue("1") == 1;
  }

  /** Leading white space is skipped: ` 1` is 1. */
  lemma ParseSkipsWhiteSpace()
    ensures ParseIntHex(" 1") == Num(1)
  {
    var s := " 1";
    assert s[1..] == "1";
    assert TrimStart(s[1..]) == "1";
    assert TrimStart(s) == "1";
    assert LongestHexPrefix("1") == "1";
    assert HexDigitsValue("1") == 1;
  }

  /** The decimal digits `toString()` writes for a non-negative integer: no leading zero. */
  function NatToDecimal(n: nat): (s: string)
    ensures s != [] && AllDecimalDigits(s)
    ensures |s| > 1 ==> s[0] != '0'
    ensures DecimalDigitsValue(s) == n
  {
    if n < 10 then [DigitChar(n)]
    else
      var prefix := NatToDecimal(n / 10);
      var s := prefix + [DigitChar(n % 10)];
      assert s[..|s| - 1] == prefix;
      s
  }

  /** `toString()` of an integral Number or of a BigInt. */
  function IntToString(i: int): string {
    if i < 0 then "-" + NatToDecimal(-i) else NatToDecimal(i)
  }

  /** The integer a decimal text denotes: an optional minus sign and at least one digit. */
  function DecimalValue(s: string): Option<int> {
    if s != [] && s[0] == '-' then
      if |s| > 1 && AllDecimalDigits(s[1..]) then Some(0 - DecimalDigitsValue(s[1..])) else None
    else if s != [] && AllDecimalDigits(s) then Some(DecimalDigitsValue(s))
    else None
  }

  /** Every integer written by `toString()` reads back as itself. */
  lemma DecimalRoundTrip(i: int)
    ensures DecimalValue(IntToString(i)) == Some(i)
  {
    if i < 0 {
      var digits := NatToDecimal(-i);
      assert IntToString(i)[1..] == digits;
    }
  }

  /** A two-digit hexadecimal text has a value below 256. */
  lemma TwoHexDigitsBelow256(t: string)
    requires |t| == 2 && AllHexDigits(t)
    ensures HexDigitsValue(t) == 16 * DigitValue(t[0]) + DigitValue(t[1]) <= 255
  {
    var head := t[..1];
    assert t[..|t| - 1] == head && head[..0] == [] && head[0] == t[0];
    assert HexDigitsValue(head) == DigitValue(t[0]);
    assert HexDigitsValue(t) == HexDigitsValue(head) * 16 + DigitValue(t[1]);
  }
}
