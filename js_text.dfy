/**
 * The few JavaScript string and number conversions the application relies on:
 * `String.prototype.trim`, truthiness of strings, `x || fallback`, `includes`,
 * `parseInt(text)` with no radix, and `String(n)` for integers.
 */
module JsText {
  import opened Wrappers

  /** JavaScript's white space and line terminators, the characters `trim` and `parseInt` skip. */
  predicate IsJsSpace(c: char) {
    || c == '\t' || c == '\n' || c == '\U{B}' || c == '\U{C}' || c == '\r' || c == ' '
    || c == '\U{A0}' || c == '\U{1680}' || ('\U{2000}' <= c <= '\U{200A}')
    || c == '\U{2028}' || c == '\U{2029}' || c == '\U{202F}' || c == '\U{205F}'
    || c == '\U{3000}' || c == '\U{FEFF}'
  }

  predicate AllSpace(s: string) {
    forall i :: 0 <= i < |s| ==> IsJsSpace(s[i])
  }

  function TrimStart(s: string): (r: string)
    ensures |r| <= |s| && r == s[|s| - |r|..]
    ensures r == [] || !IsJsSpace(r[0])
    ensures forall i | 0 <= i < |s| - |r| :: IsJsSpace(s[i])
    ensures r == [] <==> AllSpace(s)
  {
    if |s| > 0 && IsJsSpace(s[0]) then
      var r := TrimStart(s[1..]);
      assert forall i | 1 <= i < |s| :: s[i] == s[1..][i - 1];
      r
    else s
  }

  function TrimEnd(s: string): (r: string)
    ensures |r| <= |s| && r == s[..|r|]
    ensures r == [] || !IsJsSpace(r[|r| - 1])
    ensures forall i | |r| <= i < |s| :: IsJsSpace(s[i])
    ensures r == [] <==> AllSpace(s)
  {
    if |s| > 0 && IsJsSpace(s[|s| - 1]) then
      var r := TrimEnd(s[..|s| - 1]);
      assert forall i | 0 <= i < |s| - 1 :: s[i] == s[..|s| - 1][i];
      r
    else s
  }

  /** `s.trim()` */
  function Trim(s: string): string {
    TrimEnd(TrimStart(s))
  }

  /** `!s.trim()`: the text is empty or white space only. */
  predicate IsBlank(s: string) {
    Trim(s) == ""
  }

  /** A blank text is exactly one made of white space only. */
  lemma BlankIsAllSpace(s: string)
    ensures IsBlank(s) <==> AllSpace(s)
  {
    var t := TrimStart(s);
    assert AllSpace(t) ==> t == [];
  }

  /** `opt || fallback` for an optional string: the empty string is falsy. */
  function OrElse(opt: Option<string>, fallback: string): (r: string)
    ensures opt.Some? && opt.value != "" ==> r == opt.value
    ensures (opt.None? || opt.value == "") ==> r == fallback
  {
    if opt.Some? && opt.value != "" then opt.value else fallback
  }

  /**
   * `!!opt` for a nullable string, as `if (!token)` tests what `localStorage.getItem` returned:
   * null and the empty string are both falsy.
   */
  predicate IsTruthy(opt: Option<string>) {
    opt.Some? && opt.value != ""
  }

  /** `s || null` */
  function OrNull(s: string): (r: Option<string>)
    ensures r.None? <==> s == ""
    ensures r.Some? ==> r.value == s
  {
    if s == "" then None else Some(s)
  }

  /** `s.includes(t)` */
  predicate Includes(s: string, t: string) {
    exists i | 0 <= i <= |s| - |t| :: OccursAt(s, t, i)
  }

  predicate OccursAt(s: string, t: string, i: nat) {
    i + |t| <= |s| && s[i..i + |t|] == t
  }

  /** The value of a digit in the given radix (10 or 16), or -1 when it is not one. */
  function DigitValue(c: char, radix: nat): (v: int)
    ensures -1 <= v < radix
    ensures radix == 10 ==> (v >= 0 <==> IsDecimalDigit(c))
  {
    var d :=
      if '0' <= c <= '9' then c as int - '0' as int
      else if 'a' <= c <= 'z' then c as int - 'a' as int + 10
      else if 'A' <= c <= 'Z' then c as int - 'A' as int + 10
      else -1;
    if 0 <= d < radix then d else -1
  }

  predicate IsDecimalDigit(c: char) {
    '0' <= c <= '9'
  }

  /** The longest prefix of `s` made of digits of the radix. */
  function DigitPrefix(s: string, radix: nat): (r: string)
    ensures |r| <= |s| && r == s[..|r|]
    ensures forall i :: 0 <= i < |r| ==> DigitValue(r[i], radix) >= 0
    ensures |r| < |s| ==> DigitValue(s[|r|], radix) < 0
  {
    if |s| > 0 && DigitValue(s[0], radix) >= 0 then [s[0]] + DigitPrefix(s[1..], radix) else []
  }

  /** The number a string of digits denotes in the radix, most significant digit first. */
  function DigitsValue(ds: string, radix: nat): nat
    requires forall i :: 0 <= i < |ds| ==> DigitValue(ds[i], radix) >= 0
  {
    if ds == [] then 0
    else
      var front := ds[..|ds| - 1];
      assert forall i | 0 <= i < |front| :: front[i] == ds[i];
      var high := DigitsValue(front, radix);
      assert high * radix >= 0;
      high * radix + DigitValue(ds[|ds| - 1], radix)
  }

  /**
   * `parseInt(s)` with no radix: leading white space is skipped, one optional sign is read,
   * a `0x`/`0X` prefix switches to hexadecimal, and the longest run of digits that follows is
   * read; with no digit at all the result is NaN, here `None`. (JavaScript's `-0` is
   * returned as 0: every caller compares it with `<=`, `===` or `||`, where the two agree.)
   */
  function ParseInt(s: string): Option<int> {
    ParseSigned(TrimStart(s))
  }

  /** parseInt after the leading white space: an optional sign, then the unsigned number. */
  function ParseSigned(t: string): Option<int> {
    if |t| > 0 && (t[0] == '-' || t[0] == '+') then
      match ParseUnsigned(t[1..])
      case None => None
      case Some(v) => Some(if t[0] == '-' then -(v as int) else v as int)
    else ParseUnsigned(t)
  }

  /** parseInt after the sign: a `0x`/`0X` prefix selects hexadecimal, otherwise decimal. */
  function ParseUnsigned(u: string): Option<nat> {
    var hex := |u| >= 2 && u[0] == '0' && (u[1] == 'x' || u[1] == 'X');
    var radix := if hex then 16 else 10;
    var digits := DigitPrefix(if hex then u[2..] else u, radix);
    if digits == [] then None else Some(DigitsValue(digits, radix))
  }

  function DigitChar(d: nat): (c: char)
    requires d < 10
    ensures IsDecimalDigit(c) && DigitValue(c, 10) == d
  {
    (d + '0' as int) as char
  }

  /** `String(n)` for a natural number: its decimal digits, without leading zeros. */
  function NatToString(n: nat): (s: string)
    ensures s != []
    ensures forall i :: 0 <= i < |s| ==> IsDecimalDigit(s[i])
    ensures |s| == 1 <==> n < 10
  {
    if n < 10 then [DigitChar(n)] else NatToString(n / 10) + [DigitChar(n % 10)]
  }

  /** `String(n)` for an integer. */
  function IntToString(n: int): string {
    if n < 0 then "-" + NatToString(-n) else NatToString(n)
  }

  lemma {:induction false} DigitsValueOfNatToString(n: nat)
    ensures DigitsValue(NatToString(n), 10) == n
  {
    if n >= 10 {
      var s := NatToString(n);
      assert s[..|s| - 1] == NatToString(n / 10);
      DigitsValueOfNatToString(n / 10);
    }
  }

  lemma {:induction false} DigitPrefixOfDigits(ds: string, rest: string)
    requires forall i :: 0 <= i < |ds| ==> IsDecimalDigit(ds[i])
    ensures DigitPrefix(ds + rest, 10) == ds + DigitPrefix(rest, 10)
  {
    if ds != [] {
      assert (ds + rest)[1..] == ds[1..] + rest;
      DigitPrefixOfDigits(ds[1..], rest);
    } else {
      assert ds + rest == rest;
    }
  }

  /** A run of decimal digits followed by a non-digit is read whole, in decimal. */
  lemma ParseUnsignedOfDigits(ds: string, rest: string)
    requires ds != [] && forall i :: 0 <= i < |ds| ==> IsDecimalDigit(ds[i])
    requires rest == [] || !IsDecimalDigit(rest[0])
    requires !(ds == "0" && rest != [] && (rest[0] == 'x' || rest[0] == 'X'))
    requires |ds| >= 2 ==> ds[0] != '0' || IsDecimalDigit(ds[1])
    ensures ParseUnsigned(ds + rest) == Some(DigitsValue(ds, 10))
  {
    var u := ds + rest;
    assert u[0] == ds[0];
    assert !(|u| >= 2 && u[0] == '0' && (u[1] == 'x' || u[1] == 'X')) by {
      if |ds| >= 2 {
        assert u[1] == ds[1];
      } else if rest != [] {
        assert u[1] == rest[0];
      }
    }
    DigitPrefixOfDigits(ds, rest);
    assert DigitPrefix(rest, 10) == [] by {
      if rest != [] { assert DigitValue(rest[0], 10) < 0; }
    }
    assert ds + [] == ds;
    assert DigitPrefix(u, 10) == ds;
  }

  /** A text made of decimal digits only is read whole, in decimal, leading zeros and all. */
  lemma ParseIntOfDigits(ds: string)
    requires ds != [] && forall i :: 0 <= i < |ds| ==> IsDecimalDigit(ds[i])
    ensures ParseInt(ds) == Some(DigitsValue(ds, 10) as int)
  {
    ParseIntOfDigitFirst(ds);
    assert ds + "" == ds;
    ParseUnsignedOfDigits(ds, "");
  }

  /** A text that starts with a digit is read by parseInt as an unsigned number. */
  lemma ParseIntOfDigitFirst(s: string)
    requires s != [] && IsDecimalDigit(s[0])
    ensures ParseInt(s) == ParseUnsigned(s)
  {
    TrimStartOfNonSpace(s);
  }

  /** Text that does not start with white space is left as it is by `trimStart`. */
  lemma TrimStartOfNonSpace(s: string)
    requires s != [] && !IsJsSpace(s[0])
    ensures TrimStart(s) == s
  {
  }

  /** A minus sign followed by digits is read by parseInt as a negative number. */
  lemma ParseIntOfMinus(ds: string, v: nat)
    requires ds != [] && IsDecimalDigit(ds[0]) && ParseUnsigned(ds) == Some(v)
    ensures ParseInt("-" + ds) == Some(-(v as int))
  {
    var s := "-" + ds;
    assert s[0] == '-' && s[1..] == ds;
    TrimStartOfNonSpace(s);
    assert ParseInt(s) == ParseSigned(s);
    assert ParseSigned(s) == Some(-(v as int));
  }

  /** The decimal text of a number has no superfluous leading zero. */
  lemma NatToStringLeadingZero(n: nat)
    ensures NatToString(n) == "0" <==> n == 0
    ensures |NatToString(n)| >= 2 ==> IsDecimalDigit(NatToString(n)[1])
  {
    if NatToString(n) == "0" {
      assert n < 10;
      assert DigitValue(NatToString(n)[0], 10) == n;
    }
  }

  /**
   * parseInt reads the leading decimal number and ignores what follows it ("3x" gives 3),
   * as long as the text after the number is not a digit and does not turn a lone "0"
   * into the hexadecimal prefix "0x".
   */
  lemma ParseIntLeadingNumber(n: nat, rest: string)
    requires rest == [] || !IsDecimalDigit(rest[0])
    requires !(n == 0 && rest != [] && (rest[0] == 'x' || rest[0] == 'X'))
    ensures ParseInt(NatToString(n) + rest) == Some(n)
  {
    var ds := NatToString(n);
    assert (ds + rest)[0] == ds[0];
    ParseIntOfDigitFirst(ds + rest);
    NatToStringLeadingZero(n);
    ParseUnsignedOfDigits(ds, rest);
    DigitsValueOfNatToString(n);
  }

  /** The text of a negative number, a minus sign and its magnitude, parses back to it. */
  lemma ParseIntOfNegative(n: int)
    requires n < 0
    ensures ParseInt(IntToString(n)) == Some(n)
  {
    var m: nat := -n;
    ParseUnsignedOfNatToString(m);
    ParseIntOfMinus(NatToString(m), m);
  }

  /** The text of a non-negative number parses back to it. */
  lemma ParseIntOfNonNegative(n: int)
    requires n >= 0
    ensures ParseInt(IntToString(n)) == Some(n)
  {
    ParseUnsignedOfNatToString(n);
    ParseIntOfDigitFirst(NatToString(n));
  }

  /** The decimal text of a number is read back as that number. */
  lemma ParseUnsignedOfNatToString(m: nat)
    ensures ParseUnsigned(NatToString(m)) == Some(m)
  {
    var ds := NatToString(m);
    NatToStringLeadingZero(m);
    ParseUnsignedOfDigits(ds, []);
    assert ds + [] == ds;
    DigitsValueOfNatToString(m);
  }

  /** parseInt(String(n)) == n: the decimal text of an integer parses back to it. */
  lemma ParseIntOfIntToString(n: int)
    ensures ParseInt(IntToString(n)) == Some(n)
  {
    if n >= 0 {
      ParseIntOfNonNegative(n);
    } else {
      ParseIntOfNegative(n);
    }
  }

  /** A blank text never parses. */
  lemma ParseIntOfBlank(s: string)
    requires IsBlank(s)
    ensures ParseInt(s) == None
  {
    BlankIsAllSpace(s);
  }
}
