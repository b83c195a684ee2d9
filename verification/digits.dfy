/** Decimal text for whole numbers: `String(n)`, `padStart(2, '0')` and
    `parseInt`, with the round trips between them. */
module Digits {
  import opened Wrappers
  import Text

  predicate IsDigit(c: char) {
    '0' <= c <= '9'
  }

  predicate AllDigits(s: string) {
    forall i :: 0 <= i < |s| ==> IsDigit(s[i])
  }

  predicate IsHexDigit(c: char) {
    IsDigit(c) || 'a' <= c <= 'f' || 'A' <= c <= 'F'
  }

  predicate AllHexDigits(s: string) {
    forall i :: 0 <= i < |s| ==> IsHexDigit(s[i])
  }

  function DigitChar(d: nat): (c: char)
    requires d < 10
    ensures IsDigit(c) && DigitValue(c) == d
  {
    (48 + d) as char
  }

  function DigitValue(c: char): nat
    requires IsDigit(c)
  {
    (c as int) - 48
  }

  function HexDigitValue(c: char): nat
    requires IsHexDigit(c)
  {
    if IsDigit(c) then DigitValue(c)
    else if 'a' <= c <= 'f' then (c as int) - 87
    else (c as int) - 55
  }

  /** `String(n)` for a whole number: its shortest decimal spelling. */
  function NatToString(n: nat): (s: string)
    ensures |s| >= 1 && AllDigits(s)
    ensures s[0] == '0' ==> n == 0
    decreases n
  {
    if n < 10 then [DigitChar(n)]
    else NatToString(n / 10) + [DigitChar(n % 10)]
  }

  /** The number a string of decimal digits spells. */
  function ValueOf(s: string): nat
    requires AllDigits(s)
  {
    if |s| == 0 then 0 else ValueOf(s[..|s| - 1]) * 10 + DigitValue(s[|s| - 1])
  }

  function HexValueOf(s: string): nat
    requires AllHexDigits(s)
  {
    if |s| == 0 then 0 else HexValueOf(s[..|s| - 1]) * 16 + HexDigitValue(s[|s| - 1])
  }

  lemma {:induction false} ValueOfNatToString(n: nat)
    ensures ValueOf(NatToString(n)) == n
    decreases n
  {
    var s := NatToString(n);
    if n >= 10 {
      ValueOfNatToString(n / 10);
      assert s[..|s| - 1] == NatToString(n / 10);
    }
  }

  lemma {:induction false} ValueOfLeadingZero(s: string)
    requires AllDigits(s)
    ensures AllDigits("0" + s) && ValueOf("0" + s) == ValueOf(s)
    decreases |s|
  {
    if |s| > 0 {
      var t := "0" + s;
      assert t[..|t| - 1] == "0" + s[..|s| - 1];
      ValueOfLeadingZero(s[..|s| - 1]);
    }
  }

  /** `String(n).padStart(2, '0')`: at least two digits, zero-filled. */
  function Pad2(n: nat): (s: string)
    ensures AllDigits(s) && |s| >= 2
    ensures ValueOf(s) == n
    ensures n < 100 ==> |s| == 2
    ensures n >= 10 ==> s == NatToString(n)
  {
    var t := NatToString(n);
    ValueOfNatToString(n);
    if |t| < 2 then
      ValueOfLeadingZero(t);
      "0" + t
    else
      assert n < 100 ==> |t| <= 2 by {
        if n < 100 && n >= 10 { assert NatToString(n / 10) == [DigitChar(n / 10)]; }
      }
      t
  }

  /** Length of the run of decimal digits at the front of `s`. */
  function DigitRun(s: string): (k: nat)
    ensures k <= |s| && AllDigits(s[..k])
    ensures k < |s| ==> !IsDigit(s[k])
  {
    if |s| > 0 && IsDigit(s[0]) then
      var k := DigitRun(s[1..]);
      assert s[..k + 1] == [s[0]] + s[1..][..k];
      k + 1
    else 0
  }

  /** Length of the run of hexadecimal digits at the front of `s`. */
  function HexRun(s: string): (k: nat)
    ensures k <= |s| && AllHexDigits(s[..k])
    ensures k < |s| ==> !IsHexDigit(s[k])
  {
    if |s| > 0 && IsHexDigit(s[0]) then
      var k := HexRun(s[1..]);
      assert s[..k + 1] == [s[0]] + s[1..][..k];
      k + 1
    else 0
  }

  /** `parseInt(s)` with no radix: leading whitespace is skipped, one sign
      is read, and the digits after it are read by `ParseUnsigned`; no
      digits means NaN (`None`). */
  function ParseInt(s: string): (r: Option<int>)
    ensures Text.AllWhitespace(s) ==> r.None?
    decreases |s|
  {
    if |s| > 0 && Text.IsWhitespace(s[0]) then ParseInt(s[1..])
    else if |s| > 0 && s[0] == '-' then Negate(ParseUnsigned(s[1..]))
    else if |s| > 0 && s[0] == '+' then ParseUnsigned(s[1..])
    else ParseUnsigned(s)
  }

  function Negate(r: Option<int>): Option<int> {
    if r.Some? then Some(-r.value) else None
  }

  /** The number after the sign: a `0x`/`0X` prefix switches to
      hexadecimal, and the longest digit run that follows is the value. */
  function ParseUnsigned(u: string): (r: Option<int>)
    ensures r.Some? ==> r.value >= 0
  {
    if |u| >= 2 && u[0] == '0' && (u[1] == 'x' || u[1] == 'X') then
      var h := u[2..][..HexRun(u[2..])];
      if |h| == 0 then None else Some(HexValueOf(h))
    else
      var d := u[..DigitRun(u)];
      if |d| == 0 then None else Some(ValueOf(d))
  }

  /** `parseInt` reads back what `String(n)` wrote, and stops at the first
      character that cannot continue the number. */
  lemma ParseIntNatToString(n: nat, rest: string)
    requires rest == "" || (!IsDigit(rest[0]) && rest[0] != 'x' && rest[0] != 'X')
    ensures ParseInt(NatToString(n) + rest) == Some(n)
  {
    var s := NatToString(n);
    var full := s + rest;
    assert full[0] == s[0];
    DigitRunPrefix(s, rest);
    assert full[..|s|] == s;
    if |full| >= 2 && full[0] == '0' {
      assert n == 0 && |s| == 1;
      assert full[1] == rest[0];
    }
    ValueOfNatToString(n);
  }

  lemma {:induction false} DigitRunPrefix(s: string, rest: string)
    requires AllDigits(s)
    requires rest == "" || !IsDigit(rest[0])
    ensures DigitRun(s + rest) == |s|
    decreases |s|
  {
    if |s| > 0 {
      assert (s + rest)[1..] == s[1..] + rest;
      DigitRunPrefix(s[1..], rest);
    } else {
      assert s + rest == rest;
    }
  }

  /** `parseInt` reads a non-empty string of decimal digits, leading zeros
      included, as the number it spells. */
  lemma ParseIntDigits(s: string)
    requires AllDigits(s) && |s| > 0
    ensures ParseInt(s) == Some(ValueOf(s))
  {
    assert IsDigit(s[0]);
    DigitRunPrefix(s, "");
    assert s + "" == s;
    assert s[..|s|] == s;
  }
}
