/** String normalisation of addresses and method ids. `TrimLeading0x` and `NormalizeAddress` are the
    helpers of the same names in @celo/base; letters are ASCII, as in hexadecimal text. */
module Hex {

  type Byte = b: int | 0 <= b < 256

  function TrimLeading0x(s: string): string {
    if |s| >= 2 && s[0] == '0' && s[1] == 'x' then s[2..] else s
  }

  function LowerChar(c: char): char {
    if 'A' <= c <= 'Z' then ((c as int) + 32) as char else c
  }

  function Lower(s: string): (r: string)
    ensures |r| == |s| && forall i :: 0 <= i < |s| ==> r[i] == LowerChar(s[i])
  {
    seq(|s|, i requires 0 <= i < |s| => LowerChar(s[i]))
  }

  function Take(s: string, n: nat): string {
    if |s| <= n then s else s[..n]
  }

  function NormalizeAddress(a: string): string { Lower(TrimLeading0x(a)) }

  /** The selector: the first four bytes of the call data, eight hex digits. */
  function ExtractMethodId(calldata: string): string { Lower(Take(TrimLeading0x(calldata), 8)) }

  function NormalizeMethodId(id: string): string { Lower(TrimLeading0x(id)) }

  function HexDigit(d: int): char
    requires 0 <= d < 16
  {
    "0123456789abcdef"[d]
  }

  /** Buffer.toString('hex'). */
  function ToHex(bytes: seq<Byte>): string {
    if bytes == [] then ""
    else ToHex(bytes[..|bytes| - 1]) + [HexDigit(bytes[|bytes| - 1] / 16), HexDigit(bytes[|bytes| - 1] % 16)]
  }

  lemma HexDigitInjective(a: int, b: int)
    requires 0 <= a < 16 && 0 <= b < 16 && HexDigit(a) == HexDigit(b)
    ensures a == b
  {
  }

  lemma {:induction false} ToHexLength(bytes: seq<Byte>)
    ensures |ToHex(bytes)| == 2 * |bytes|
  {
    if bytes == [] {
    } else {
      ToHexLength(bytes[..|bytes| - 1]);
    }
  }

  /** The last byte and what comes before it. */
  lemma ToHexLast(bytes: seq<Byte>)
    requires bytes != []
    ensures var n := |bytes| - 1;
      var hex := ToHex(bytes);
      && |hex| == 2 * n + 2 && hex[..2 * n] == ToHex(bytes[..n])
      && hex[2 * n] == HexDigit(bytes[n] / 16) && hex[2 * n + 1] == HexDigit(bytes[n] % 16)
  {
    ToHexLength(bytes[..|bytes| - 1]);
  }

  lemma ByteOfDigits(x: Byte, y: Byte)
    requires HexDigit(x / 16) == HexDigit(y / 16) && HexDigit(x % 16) == HexDigit(y % 16)
    ensures x == y
  {
    HexDigitInjective(x / 16, y / 16);
    HexDigitInjective(x % 16, y % 16);
  }

  /** No information is lost in the hexadecimal form. */
  lemma {:induction false} ToHexInjective(a: seq<Byte>, b: seq<Byte>)
    requires ToHex(a) == ToHex(b)
    ensures a == b
  {
    ToHexLength(a);
    ToHexLength(b);
    if a == [] {
    } else {
      var n := |a| - 1;
      ToHexLast(a);
      ToHexLast(b);
      ToHexInjective(a[..n], b[..n]);
      ByteOfDigits(a[n], b[n]);
      assert a == a[..n] + [a[n]] && b == b[..n] + [b[n]];
    }
  }

  // ----- What the strings stand for

  /** The value of a hexadecimal digit in either letter case, -1 for any other character. */
  function DigitValue(c: char): int {
    if '0' <= c <= '9' then c as int - '0' as int
    else if 'a' <= c <= 'f' then 10 + (c as int - 'a' as int)
    else if 'A' <= c <= 'F' then 10 + (c as int - 'A' as int)
    else -1
  }

  predicate IsHex(s: string) {
    forall i :: 0 <= i < |s| ==> DigitValue(s[i]) >= 0
  }

  /** The same digits, whatever the letter case. */
  predicate SameDigits(a: string, b: string) {
    |a| == |b| && forall i :: 0 <= i < |a| ==> DigitValue(a[i]) == DigitValue(b[i])
  }

  /** Digits with or without a leading 0x. */
  function Written(digits: string, prefixed: bool): string {
    if prefixed then "0x" + digits else digits
  }

  lemma DigitIs(d: int)
    requires 0 <= d < 16
    ensures DigitValue(HexDigit(d)) == d && !('A' <= HexDigit(d) <= 'Z')
  {
  }

  lemma {:induction false} ToHexPrefix(bytes: seq<Byte>, k: nat)
    requires k <= |bytes|
    ensures |ToHex(bytes)| == 2 * |bytes| && ToHex(bytes)[..2 * k] == ToHex(bytes[..k])
    decreases |bytes|
  {
    ToHexLength(bytes);
    var n := |bytes| - 1;
    if k == |bytes| {
      assert bytes[..k] == bytes;
    } else {
      ToHexPrefix(bytes[..n], k);
      ToHexLast(bytes);
      assert bytes[..n][..k] == bytes[..k];
      assert ToHex(bytes)[..2 * k] == ToHex(bytes[..n])[..2 * k];
    }
  }

  /** Two digits for every byte, the high one first, in lower case. */
  lemma ToHexIsPositional(bytes: seq<Byte>, i: nat)
    requires i < |bytes|
    ensures |ToHex(bytes)| == 2 * |bytes|
    ensures var high, low := ToHex(bytes)[2 * i], ToHex(bytes)[2 * i + 1];
      && 0 <= DigitValue(high) < 16 && 0 <= DigitValue(low) < 16
      && 16 * DigitValue(high) + DigitValue(low) == bytes[i]
      && !('A' <= high <= 'Z') && !('A' <= low <= 'Z')
  {
    ToHexPrefix(bytes, i + 1);
    ToHexLast(bytes[..i + 1]);
    assert ToHex(bytes)[2 * i] == ToHex(bytes[..i + 1])[2 * i];
    assert ToHex(bytes)[2 * i + 1] == ToHex(bytes[..i + 1])[2 * i + 1];
    DigitIs(bytes[i] / 16);
    DigitIs(bytes[i] % 16);
  }

  lemma LowerDigit(c: char, d: char)
    requires DigitValue(c) >= 0 && DigitValue(d) >= 0
    ensures LowerChar(c) == LowerChar(d) <==> DigitValue(c) == DigitValue(d)
  {
  }

  lemma LowerAgrees(a: string, b: string)
    requires IsHex(a) && IsHex(b)
    ensures Lower(a) == Lower(b) <==> SameDigits(a, b)
  {
    forall i | 0 <= i < |a| && i < |b|
      ensures Lower(a)[i] == Lower(b)[i] <==> DigitValue(a[i]) == DigitValue(b[i])
    {
      LowerDigit(a[i], b[i]);
    }
  }

  lemma LowerIsHex(s: string)
    requires IsHex(s)
    ensures IsHex(Lower(s)) && Lower(Lower(s)) == Lower(s)
  {
    forall i | 0 <= i < |s|
      ensures DigitValue(Lower(s)[i]) >= 0
    {
      assert DigitValue(s[i]) >= 0;
    }
  }

  lemma TrimWritten(digits: string, prefixed: bool)
    requires IsHex(digits)
    ensures TrimLeading0x(Written(digits, prefixed)) == digits
  {
    if !prefixed && |digits| >= 2 {
      assert DigitValue(digits[1]) >= 0;
    }
  }

  /** A selector is already normal. */
  lemma SelectorIsNormal(calldata: string)
    requires IsHex(calldata)
    ensures NormalizeMethodId(ExtractMethodId(calldata)) == ExtractMethodId(calldata)
  {
    TrimWritten(calldata, false);
    var digits := Take(calldata, 8);
    assert IsHex(digits);
    LowerIsHex(digits);
    TrimWritten(Lower(digits), false);
  }

  /** Addresses are equal after normalisation exactly when they have the same digits, and so are method ids:
      neither letter case nor a leading 0x matters, and nothing else is ignored. */
  lemma NormalizedEqualExactly(a: string, b: string, p: bool, q: bool)
    requires IsHex(a) && IsHex(b)
    ensures NormalizeAddress(Written(a, p)) == NormalizeAddress(Written(b, q)) <==> SameDigits(a, b)
    ensures NormalizeMethodId(Written(a, p)) == NormalizeMethodId(Written(b, q)) <==> SameDigits(a, b)
  {
    TrimWritten(a, p);
    TrimWritten(b, q);
    LowerAgrees(a, b);
  }

  lemma HexOfBytes(bytes: seq<Byte>)
    ensures IsHex(ToHex(bytes)) && |ToHex(bytes)| == 2 * |bytes|
  {
    ToHexLength(bytes);
    forall j | 0 <= j < |ToHex(bytes)|
      ensures DigitValue(ToHex(bytes)[j]) >= 0
    {
      ToHexIsPositional(bytes, j / 2);
      assert j == 2 * (j / 2) || j == 2 * (j / 2) + 1;
    }
  }

  lemma SameBytes(a: seq<Byte>, b: seq<Byte>)
    ensures SameDigits(ToHex(a), ToHex(b)) <==> a == b
  {
    ToHexLength(a);
    ToHexLength(b);
    if SameDigits(ToHex(a), ToHex(b)) {
      forall i | 0 <= i < |a|
        ensures a[i] == b[i]
      {
        ToHexIsPositional(a, i);
        ToHexIsPositional(b, i);
        assert DigitValue(ToHex(a)[2 * i]) == DigitValue(ToHex(b)[2 * i]);
        assert DigitValue(ToHex(a)[2 * i + 1]) == DigitValue(ToHex(b)[2 * i + 1]);
      }
    }
  }

  /** Call data selects a method exactly when its first four bytes are the four bytes of the method id. */
  lemma SelectorExactly(calldata: seq<Byte>, p: bool, id: seq<Byte>, q: bool)
    requires |calldata| >= 4
    ensures ExtractMethodId(Written(ToHex(calldata), p)) == NormalizeMethodId(Written(ToHex(id), q))
       <==> calldata[..4] == id
  {
    HexOfBytes(calldata);
    HexOfBytes(id);
    HexOfBytes(calldata[..4]);
    TrimWritten(ToHex(calldata), p);
    TrimWritten(ToHex(id), q);
    ToHexPrefix(calldata, 4);
    LowerAgrees(ToHex(calldata[..4]), ToHex(id));
    SameBytes(calldata[..4], id);
  }
}
