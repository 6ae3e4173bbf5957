/**
  The small part of JavaScript's semantics that the modelled helpers rely on:
  values, the errors they can throw, white space as `\s` and `parseInt` see it,
  decimal rendering of integers, `parseInt(s, 10)`, ASCII case-insensitive
  matching as done by a regular expression with the `i` flag, and
  `String.prototype.length` counted in UTF-16 code units.
 */
module Js {

  /** A JavaScript value, as far as the helpers look into one. Arrays are
      objects keyed by their indices. */
  datatype Value =
    | Undefined
    | Null
    | Bool(b: bool)
    | Num(x: real)
    | Str(s: string)
    | Obj(fields: map<string, Value>)

  /** The exceptions the modelled code can throw. */
  datatype JsError = TypeError | SyntaxError

  /** What `parseInt` returns: an integer or `NaN`. */
  datatype IntOrNaN = NaN | Int(v: int)

  /** `a === b` on numbers: `NaN` equals nothing, itself included. */
  predicate StrictEquals(a: IntOrNaN, b: IntOrNaN) {
    a.Int? && b.Int? && a.v == b.v
  }

  /** `a >= b` on numbers: false as soon as one side is `NaN`. */
  predicate AtLeast(a: IntOrNaN, b: IntOrNaN) {
    a.Int? && b.Int? && a.v >= b.v
  }

  /** `a < b` on numbers: false as soon as one side is `NaN`. */
  predicate LessThan(a: IntOrNaN, b: IntOrNaN) {
    a.Int? && b.Int? && a.v < b.v
  }

  /** The characters of the regular-expression class `\s`, which are also the
      white space (WhiteSpace and LineTerminator) that `parseInt` skips. */
  predicate IsSpace(c: char) {
    || c == '\t' || c == '\n' || c == '\U{000B}' || c == '\U{000C}' || c == '\r'
    || c == ' ' || c == '\U{00A0}' || c == '\U{1680}'
    || ('\U{2000}' <= c <= '\U{200A}')
    || c == '\U{2028}' || c == '\U{2029}' || c == '\U{202F}' || c == '\U{205F}'
    || c == '\U{3000}' || c == '\U{FEFF}'
  }

  predicate AllSpace(s: string) {
    forall i | 0 <= i < |s| :: IsSpace(s[i])
  }

  /** The string with its leading white space removed. */
  function TrimStart(s: string): (r: string)
    ensures |r| <= |s| && r == s[|s| - |r|..]
    ensures AllSpace(s[..|s| - |r|])
    ensures |r| > 0 ==> !IsSpace(r[0])
  {
    if |s| > 0 && IsSpace(s[0]) then TrimStart(s[1..]) else s
  }

  /** The white space `TrimStart` drops ends exactly at the first character
      that is not white space. */
  lemma {:induction false} TrimStartAt(s: string, k: nat)
    requires k <= |s| && AllSpace(s[..k])
    requires k < |s| ==> !IsSpace(s[k])
    ensures TrimStart(s) == s[k..]
  {
    if k > 0 {
      assert s[..k][0] == s[0];
      assert s[1..][..k - 1] == s[..k][1..];
      assert s[1..][k - 1..] == s[k..];
      TrimStartAt(s[1..], k - 1);
    }
  }

  lemma {:induction false} TrimStartAfterSpace(ws: string, t: string)
    requires AllSpace(ws)
    requires |t| > 0 ==> !IsSpace(t[0])
    ensures TrimStart(ws + t) == t
  {
    if |ws| > 0 {
      assert (ws + t)[1..] == ws[1..] + t;
      TrimStartAfterSpace(ws[1..], t);
    } else {
      assert ws + t == t;
    }
  }

  predicate IsDigit(c: char) {
    '0' <= c <= '9'
  }

  predicate AllDigits(s: string) {
    forall i | 0 <= i < |s| :: IsDigit(s[i])
  }

  function DigitValue(c: char): (d: nat)
    requires IsDigit(c)
    ensures d < 10
  {
    c as int - '0' as int
  }

  function DigitChar(d: nat): (c: char)
    requires d < 10
    ensures IsDigit(c) && DigitValue(c) == d
  {
    ('0' as int + d) as char
  }

  /** The longest prefix of `s` made of decimal digits. */
  function LeadingDigits(s: string): (r: string)
    ensures r <= s && AllDigits(r)
    ensures |r| < |s| ==> !IsDigit(s[|r|])
  {
    if |s| > 0 && IsDigit(s[0]) then [s[0]] + LeadingDigits(s[1..]) else ""
  }

  /** The number a string of decimal digits denotes. */
  function DigitsValue(ds: string): nat
    requires AllDigits(ds)
  {
    if |ds| == 0 then 0 else 10 * DigitsValue(ds[..|ds| - 1]) + DigitValue(ds[|ds| - 1])
  }

  /** `String(n)` for a natural number: its shortest decimal form. */
  function NatToDecimal(n: nat): (r: string)
    ensures |r| >= 1 && AllDigits(r)
    ensures r[0] == '0' ==> n == 0 && |r| == 1
  {
    if n < 10 then [DigitChar(n)] else NatToDecimal(n / 10) + [DigitChar(n % 10)]
  }

  /** `String(n)` (or `${n}`) for an integer. */
  function IntToDecimal(n: int): (r: string)
    ensures |r| >= 1
    ensures n >= 0 <==> AllDigits(r)
  {
    if n < 0 then
      var r := "-" + NatToDecimal(-n);
      assert !IsDigit(r[0]);
      r
    else NatToDecimal(n)
  }

  lemma {:induction false} DecimalRoundTrip(n: nat)
    ensures DigitsValue(NatToDecimal(n)) == n
  {
    if n >= 10 {
      var r := NatToDecimal(n);
      assert r[..|r| - 1] == NatToDecimal(n / 10);
      DecimalRoundTrip(n / 10);
    }
  }

  /** Different numbers print differently. */
  lemma DecimalInjective(m: nat, n: nat)
    requires NatToDecimal(m) == NatToDecimal(n)
    ensures m == n
  {
    DecimalRoundTrip(m);
    DecimalRoundTrip(n);
  }

  /** `parseInt(s, 10)`: skip leading white space, read an optional sign, then
      the longest run of decimal digits; `NaN` when there is none. */
  function ParseInt(s: string): IntOrNaN {
    ParseSigned(TrimStart(s))
  }

  /** The part of `parseInt` after the white space: sign, then digits. */
  function ParseSigned(t: string): IntOrNaN {
    if |t| > 0 && t[0] == '-' then Negate(ParseDigits(t[1..]))
    else if |t| > 0 && t[0] == '+' then ParseDigits(t[1..])
    else ParseDigits(t)
  }

  function ParseDigits(t: string): IntOrNaN {
    var ds := LeadingDigits(t);
    if |ds| == 0 then NaN else Int(DigitsValue(ds))
  }

  function Negate(a: IntOrNaN): IntOrNaN {
    if a.NaN? then NaN else Int(-a.v)
  }

  lemma LeadingDigitsOf(ds: string, rest: string)
    requires AllDigits(ds)
    requires |rest| > 0 ==> !IsDigit(rest[0])
    ensures LeadingDigits(ds + rest) == ds
  {
    var s := ds + rest;
    var r := LeadingDigits(s);
    assert s[..|ds|] == ds;
    assert r == s[..|r|];
  }

  lemma ParseDigitsOfDecimal(n: nat, rest: string)
    requires |rest| > 0 ==> !IsDigit(rest[0])
    ensures ParseDigits(NatToDecimal(n) + rest) == Int(n)
  {
    LeadingDigitsOf(NatToDecimal(n), rest);
    DecimalRoundTrip(n);
  }

  lemma ParseSignedOfDecimal(n: int, rest: string)
    requires |rest| > 0 ==> !IsDigit(rest[0])
    ensures ParseSigned(IntToDecimal(n) + rest) == Int(n)
  {
    if n < 0 {
      ParseSignedOfNegative(n, rest);
    } else {
      ParseSignedOfNatural(n, rest);
    }
  }

  lemma ParseSignedOfNegative(n: int, rest: string)
    requires n < 0
    requires |rest| > 0 ==> !IsDigit(rest[0])
    ensures ParseSigned(IntToDecimal(n) + rest) == Int(n)
  {
    var d := NatToDecimal(-n);
    assert IntToDecimal(n) == "-" + d;
    ParseDigitsOfDecimal(-n, rest);
    ParseMinus(d, rest, -n);
  }

  /** A minus sign negates what the digits after it read as. */
  lemma ParseMinus(d: string, rest: string, v: int)
    requires ParseDigits(d + rest) == Int(v)
    ensures ParseSigned("-" + d + rest) == Int(-v)
  {
    assert ("-" + d + rest)[1..] == d + rest;
  }

  lemma ParseSignedOfNatural(n: nat, rest: string)
    requires |rest| > 0 ==> !IsDigit(rest[0])
    ensures ParseSigned(IntToDecimal(n) + rest) == Int(n)
  {
    var t := NatToDecimal(n) + rest;
    assert IsDigit(t[0]);
    ParseDigitsOfDecimal(n, rest);
  }

  /** `parseInt` reads back what `String(n)` prints, whatever white space
      precedes it and whatever non-digit text follows it. */
  lemma {:induction false} ParseIntOfDecimal(ws: string, n: int, rest: string)
    requires AllSpace(ws)
    requires |rest| > 0 ==> !IsDigit(rest[0])
    ensures ParseInt(ws + IntToDecimal(n) + rest) == Int(n)
  {
    var t := IntToDecimal(n) + rest;
    assert ws + IntToDecimal(n) + rest == ws + t;
    assert t[0] == IntToDecimal(n)[0];
    TrimStartAfterSpace(ws, t);
    ParseSignedOfDecimal(n, rest);
  }

  /** `parseInt(String(n), 10) === n`. */
  lemma ParseIntRoundTrip(n: int)
    ensures ParseInt(IntToDecimal(n)) == Int(n)
  {
    var d := IntToDecimal(n);
    assert "" + d + "" == d;
    ParseIntOfDecimal("", n, "");
  }

  /** `parseInt` reads a run of digits as the number it denotes, leading
      zeros included. */
  lemma ParseDigitRun(d: string)
    requires |d| > 0 && AllDigits(d)
    ensures ParseInt(d) == Int(DigitsValue(d))
  {
    assert IsDigit(d[0]);
    TrimStartAt(d, 0);
    assert d[0..] == d;
    assert d + "" == d;
    LeadingDigitsOf(d, "");
  }

  /** `c` equals `lower` up to ASCII case, as a case-insensitive regular
      expression without the `u` flag compares them. */
  predicate EqualsIgnoringCase(c: char, lower: char) {
    c == lower || ('a' <= lower <= 'z' && c as int == lower as int - 32)
  }

  /** `s` begins with `pattern` up to ASCII case. */
  predicate StartsWithIgnoringCase(s: string, pattern: string)
    ensures StartsWithIgnoringCase(s, pattern) ==> |pattern| <= |s|
  {
    |pattern| == 0 ||
    (|s| > 0 && EqualsIgnoringCase(s[0], pattern[0]) && StartsWithIgnoringCase(s[1..], pattern[1..]))
  }

  /** The recursive test agrees with the character-by-character reading of
      an anchored case-insensitive match. */
  lemma {:induction false} StartsWithIgnoringCaseAt(s: string, pattern: string)
    ensures StartsWithIgnoringCase(s, pattern) <==>
      |pattern| <= |s| && forall i | 0 <= i < |pattern| :: EqualsIgnoringCase(s[i], pattern[i])
  {
    if |pattern| > 0 && |s| > 0 {
      StartsWithIgnoringCaseAt(s[1..], pattern[1..]);
      if |pattern| <= |s| && forall i | 0 <= i < |pattern| :: EqualsIgnoringCase(s[i], pattern[i]) {
        forall i | 0 <= i < |pattern| - 1
          ensures EqualsIgnoringCase(s[1..][i], pattern[1..][i])
        {
          assert EqualsIgnoringCase(s[i + 1], pattern[i + 1]);
        }
      }
    }
  }

  /** `s.length`: characters outside the Basic Multilingual Plane take two
      UTF-16 code units. */
  function Utf16Length(s: string): (r: nat)
    ensures |s| <= r <= 2 * |s|
    ensures r == |s| <==> forall i | 0 <= i < |s| :: s[i] as int < 0x1_0000
  {
    if |s| == 0 then 0
    else (if s[0] as int < 0x1_0000 then 1 else 2) + Utf16Length(s[1..])
  }
}
