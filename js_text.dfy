/**
 * The JavaScript text built-ins the dashboard relies on: `parseInt(s, 10)`,
 * `Number(s)` on strings, `toString()` of a non-negative integer and
 * `padStart`. Numbers are exact integers here; NaN is `None`.
 */
module JsText {
  import opened Wrappers

  /** StrWhiteSpaceChar: the white space and line terminators that `parseInt` and `Number` skip. */
  predicate IsJsWhitespace(c: char) {
    var n := c as int;
    n == 0x09 || n == 0x0A || n == 0x0B || n == 0x0C || n == 0x0D || n == 0x20
    || n == 0xA0 || n == 0x1680 || (0x2000 <= n <= 0x200A) || n == 0x2028 || n == 0x2029
    || n == 0x202F || n == 0x205F || n == 0x3000 || n == 0xFEFF
  }

  predicate IsDigit(c: char) {
    '0' <= c <= '9'
  }

  function DigitValue(c: char): (d: nat)
    requires IsDigit(c)
    ensures d < 10
  {
    c as int - '0' as int
  }

  function DigitChar(d: nat): (c: char)
    requires d < 10
    ensures IsDigit(c) && DigitValue(c) == d
  {
    (d + '0' as int) as char
  }

  predicate AllDigits(s: string) {
    forall i :: 0 <= i < |s| ==> IsDigit(s[i])
  }

  /** The value of a string of decimal digits, most significant digit first. */
  function DigitsValue(s: string): nat
    requires AllDigits(s)
  {
    if s == [] then 0 else DigitsValue(s[..|s| - 1]) * 10 + DigitValue(s[|s| - 1])
  }

  /**
   * `n.toString()` for a non-negative integer: its decimal digits without
   * leading zeros, which read back as `n`.
   */
  function NatToDecimal(n: nat): (s: string)
    ensures 1 <= |s| && AllDigits(s) && DigitsValue(s) == n
    ensures s[0] == '0' ==> s == "0"
  {
    if n < 10 then [DigitChar(n)]
    else
      var prefix := NatToDecimal(n / 10);
      var s := prefix + [DigitChar(n % 10)];
      assert s[..|s| - 1] == prefix;
      s
  }

  /** `i.toString()` for any integer: a minus sign before the digits of a negative one. */
  function IntToDecimal(i: int): (s: string)
    ensures 1 <= |s|
  {
    if i < 0 then "-" + NatToDecimal(-i) else NatToDecimal(i)
  }

  /** Drops the leading white space, as both `parseInt` and `Number` do. */
  function TrimStart(s: string): (r: string)
    ensures |r| <= |s| && r == s[|s| - |r|..]
    ensures r == [] || !IsJsWhitespace(r[0])
    ensures forall i :: 0 <= i < |s| - |r| ==> IsJsWhitespace(s[i])
  {
    if s != [] && IsJsWhitespace(s[0]) then TrimStart(s[1..]) else s
  }

  /** Drops the trailing white space, as `Number` does. */
  function TrimEnd(s: string): (r: string)
    ensures |r| <= |s| && r == s[..|r|]
    ensures r == [] || !IsJsWhitespace(r[|r| - 1])
    ensures forall i :: |r| <= i < |s| ==> IsJsWhitespace(s[i])
  {
    if s != [] && IsJsWhitespace(s[|s| - 1]) then TrimEnd(s[..|s| - 1]) else s
  }

  /** The number of decimal digits at the start of `s`. */
  function LeadingDigits(s: string): (n: nat)
    ensures n <= |s| && AllDigits(s[..n])
    ensures n < |s| ==> !IsDigit(s[n])
  {
    if s != [] && IsDigit(s[0]) then
      var k := LeadingDigits(s[1..]);
      assert s[..k + 1] == [s[0]] + s[1..][..k];
      k + 1
    else 0
  }

  /** Drops one leading `+` or `-`. */
  function DropSign(t: string): string {
    if t != [] && (t[0] == '-' || t[0] == '+') then t[1..] else t
  }

  /**
   * `parseInt(s, 10)`: skip leading white space, read an optional sign and
   * then the longest run of decimal digits; no digit at all gives NaN
   * (`None`). Whatever follows the digits is ignored.
   */
  function ParseInt(s: string): Option<int> {
    ParseIntTrimmed(TrimStart(s))
  }

  /** `parseInt` on text that starts with the sign or the first digit. */
  function ParseIntTrimmed(t: string): Option<int> {
    var body := DropSign(t);
    var n := LeadingDigits(body);
    if n == 0 then None
    else if t[0] == '-' then Some(0 - DigitsValue(body[..n]))
    else Some(DigitsValue(body[..n]))
  }

  /**
   * `Number(s)` on a string, restricted to integer literals: surrounding
   * white space is ignored, an empty or blank string is 0, an optional sign
   * followed by digits only is their value, and anything else is NaN.
   */
  function StringToNumber(s: string): Option<int> {
    TrimmedToNumber(TrimEnd(TrimStart(s)))
  }

  /** `Number` on text with no white space at either end. */
  function TrimmedToNumber(t: string): Option<int> {
    if t == [] then Some(0)
    else
      var body := DropSign(t);
      if body != [] && AllDigits(body) then
        Some(if t[0] == '-' then 0 - DigitsValue(body) else DigitsValue(body))
      else None
  }

  /** `s.padStart(width, fill)`: prefixes copies of `fill` until `s` is `width` long. */
  function PadStart(s: string, width: nat, fill: char): (r: string)
    ensures |r| == if |s| < width then width else |s|
    ensures r[|r| - |s|..] == s
    ensures forall i :: 0 <= i < |r| - |s| ==> r[i] == fill
  {
    if |s| < width then seq(width - |s|, _ => fill) + s else s
  }

  /** The value of one digit and of two digits. */
  lemma SmallDigitsValue(a: char, b: char)
    requires IsDigit(a) && IsDigit(b)
    ensures AllDigits([a]) && DigitsValue([a]) == DigitValue(a)
    ensures AllDigits([a, b]) && DigitsValue([a, b]) == DigitValue(a) * 10 + DigitValue(b)
  {
    assert [a][..0] == [];
    assert [a, b][..1] == [a];
  }

  /** Digits followed by anything that is not a digit leave `LeadingDigits` at the digits. */
  lemma {:induction false} LeadingDigitsOfPrefix(ds: string, rest: string)
    requires AllDigits(ds)
    requires rest == [] || !IsDigit(rest[0])
    ensures LeadingDigits(ds + rest) == |ds|
  {
    if ds != [] {
      assert (ds + rest)[1..] == ds[1..] + rest;
      LeadingDigitsOfPrefix(ds[1..], rest);
    }
  }

  /** Text that starts with a digit or a sign has no white space to trim. */
  lemma TrimStartAtSignOrDigit(s: string)
    requires s != [] && (IsDigit(s[0]) || s[0] == '-' || s[0] == '+')
    ensures TrimStart(s) == s
  {
  }

  /** Once the sign is dropped, digits followed by a non-digit tail are the number read. */
  lemma ParseIntTrimmedReads(t: string, ds: string, rest: string)
    requires DropSign(t) == ds + rest
    requires ds != [] && AllDigits(ds)
    requires rest == [] || !IsDigit(rest[0])
    ensures t != []
    ensures ParseIntTrimmed(t) == Some(if t[0] == '-' then 0 - DigitsValue(ds) else DigitsValue(ds))
  {
    LeadingDigitsOfPrefix(ds, rest);
    assert (ds + rest)[..|ds|] == ds;
  }

  /** Digits and a non-digit tail, with no sign: `parseInt` reads the digits. */
  lemma ParseIntTrimmedOfDigits(ds: string, rest: string)
    requires ds != [] && AllDigits(ds)
    requires rest == [] || !IsDigit(rest[0])
    ensures ParseIntTrimmed(ds + rest) == Some(DigitsValue(ds))
  {
    assert IsDigit((ds + rest)[0]);
    ParseIntTrimmedReads(ds + rest, ds, rest);
  }

  /** A minus sign, digits and a non-digit tail: `parseInt` reads the negated digits. */
  lemma ParseIntTrimmedOfNegated(ds: string, rest: string)
    requires ds != [] && AllDigits(ds)
    requires rest == [] || !IsDigit(rest[0])
    ensures ParseIntTrimmed("-" + ds + rest) == Some(0 - DigitsValue(ds))
  {
    var t := "-" + ds + rest;
    assert t[0] == '-' && t[1..] == ds + rest;
    ParseIntTrimmedReads(t, ds, rest);
  }

  /** `parseInt` reads back the digits `toString` writes, whatever non-digit text follows. */
  lemma ParseIntOfDecimal(n: nat, rest: string)
    requires rest == [] || !IsDigit(rest[0])
    ensures ParseInt(NatToDecimal(n) + rest) == Some(n)
  {
    var ds := NatToDecimal(n);
    TrimStartAtSignOrDigit(ds + rest);
    ParseIntTrimmedOfDigits(ds, rest);
  }

  /** The same for a negative number written with a leading minus sign. */
  lemma ParseIntOfNegativeDecimal(n: nat, rest: string)
    requires rest == [] || !IsDigit(rest[0])
    ensures ParseInt("-" + NatToDecimal(n) + rest) == Some(0 - n)
  {
    var ds := NatToDecimal(n);
    TrimStartAtSignOrDigit("-" + ds + rest);
    ParseIntTrimmedOfNegated(ds, rest);
  }

  /** Text that starts with `k` digits followed by a non-digit (or its end) reads as those digits. */
  lemma ParseIntOfDigitPrefix(s: string, k: nat)
    requires 0 < k <= |s| && AllDigits(s[..k])
    requires k == |s| || !IsDigit(s[k])
    ensures ParseInt(s) == Some(DigitsValue(s[..k]))
  {
    assert s == s[..k] + s[k..];
    TrimStartAtSignOrDigit(s);
    ParseIntTrimmedOfDigits(s[..k], s[k..]);
  }

  /** `parseInt` skips any white space before the number. */
  lemma ParseIntSkipsWhitespace(c: char, s: string)
    requires IsJsWhitespace(c)
    ensures ParseInt([c] + s) == ParseInt(s)
  {
    assert ([c] + s)[1..] == s;
  }

  /** A run of white space before the text is trimmed with the text's own. */
  lemma {:induction false} TrimStartPadded(ws: string, s: string)
    requires forall i :: 0 <= i < |ws| ==> IsJsWhitespace(ws[i])
    ensures TrimStart(ws + s) == TrimStart(s)
  {
    if ws == [] {
      assert ws + s == s;
    } else {
      assert (ws + s)[0] == ws[0] && (ws + s)[1..] == ws[1..] + s;
      TrimStartPadded(ws[1..], s);
    }
  }

  /** Text without white space at either end is left alone by the trims. */
  lemma TrimOfUnpadded(s: string)
    requires s != [] && !IsJsWhitespace(s[0]) && !IsJsWhitespace(s[|s| - 1])
    ensures TrimEnd(TrimStart(s)) == s
  {
  }

  /** Once the sign is dropped, text made only of digits is the number `Number` reads. */
  lemma TrimmedToNumberReads(t: string, ds: string)
    requires t != [] && DropSign(t) == ds
    requires ds != [] && AllDigits(ds)
    ensures TrimmedToNumber(t) == Some(if t[0] == '-' then 0 - DigitsValue(ds) else DigitsValue(ds))
  {
  }

  /** `Number` is NaN for text that starts with a digit but has a non-digit further on (and no trailing white space). */
  lemma NumberRejectsInnerNonDigit(s: string, k: nat)
    requires 0 < k < |s| && IsDigit(s[0]) && !IsDigit(s[k]) && !IsJsWhitespace(s[|s| - 1])
    ensures StringToNumber(s) == None
  {
    TrimOfUnpadded(s);
    assert DropSign(s) == s;
  }

  /** `Number` reads back what `toString` writes, for every integer. */
  lemma StringToNumberOfDecimal(i: int)
    ensures StringToNumber(IntToDecimal(i)) == Some(i)
  {
    var s := IntToDecimal(i);
    if i < 0 {
      var ds := NatToDecimal(-i);
      assert s == "-" + ds && s[1..] == ds;
      assert IsDigit(s[|s| - 1]);
      TrimOfUnpadded(s);
      TrimmedToNumberReads(s, ds);
    } else {
      assert IsDigit(s[0]) && IsDigit(s[|s| - 1]);
      TrimOfUnpadded(s);
      TrimmedToNumberReads(s, s);
    }
  }
}
