/**
 * The few JavaScript built-ins the client's logic leans on, stated over Dafny strings:
 * JS values and truthiness, the `\s` class and `String.prototype.trim`,
 * `Number.prototype.toString` on integers and `parseInt` without a radix.
 */
module JsText {
  import opened Types

  /** A JavaScript value that is expected to be a string but may be missing. */
  datatype JsValue = Undefined | Null | Str(s: string)

  /** The value in a boolean context (`||`, `if`, `!`): only non-empty strings are truthy. */
  predicate Truthy(v: JsValue) {
    v.Str? && v.s != ""
  }

  /** `String(v)`, as `localStorage.setItem` and template literals apply it. */
  function ToJsString(v: JsValue): (r: string)
    ensures v.Str? ==> r == v.s
  {
    match v
    case Undefined => "undefined"
    case Null => "null"
    case Str(s) => s
  }

  /** ECMAScript WhiteSpace and LineTerminator code points: the `\s` class, and what `trim` removes. */
  predicate IsSpace(c: char) {
    || c == '\t' || c == '\n' || c == '\U{000B}' || c == '\U{000C}' || c == '\r' || c == ' '
    || c == '\U{00A0}' || c == '\U{1680}' || ('\U{2000}' <= c <= '\U{200A}')
    || c == '\U{2028}' || c == '\U{2029}' || c == '\U{202F}' || c == '\U{205F}'
    || c == '\U{3000}' || c == '\U{FEFF}'
  }

  /** Drops leading white space. */
  function TrimStart(s: string): (r: string)
    ensures |r| <= |s| && r == s[|s| - |r|..]
    ensures r == "" || !IsSpace(r[0])
    ensures forall i :: 0 <= i < |s| - |r| ==> IsSpace(s[i])
  {
    if |s| > 0 && IsSpace(s[0]) then TrimStart(s[1..]) else s
  }

  /** Drops trailing white space. */
  function TrimEnd(s: string): (r: string)
    ensures |r| <= |s| && r == s[..|r|]
    ensures r == "" || !IsSpace(r[|r| - 1])
    ensures forall i :: |r| <= i < |s| ==> IsSpace(s[i])
  {
    if |s| > 0 && IsSpace(s[|s| - 1]) then TrimEnd(s[..|s| - 1]) else s
  }

  /** `s.trim()`. */
  function Trim(s: string): string {
    TrimEnd(TrimStart(s))
  }

  /** `!s.trim()`: the string is empty once trimmed, i.e. it holds only white space. */
  function IsBlank(s: string): (b: bool)
    ensures b <==> forall i :: 0 <= i < |s| ==> IsSpace(s[i])
  {
    Trim(s) == ""
  }

  predicate IsDecimalDigit(c: char) {
    '0' <= c <= '9'
  }

  function DigitChar(d: int): (c: char)
    requires 0 <= d < 10
    ensures IsDecimalDigit(c)
  {
    (48 + d) as char
  }

  /** The decimal numeral of `n`: digits only, and no leading zero. */
  function NatToString(n: nat): (s: string)
    ensures |s| > 0
    ensures forall i :: 0 <= i < |s| ==> IsDecimalDigit(s[i])
    ensures |s| > 1 ==> s[0] != '0'
  {
    if n < 10 then [DigitChar(n)] else NatToString(n / 10) + [DigitChar(n % 10)]
  }

  /** `n.toString()` for an integral number. */
  function IntToString(n: int): string {
    if n < 0 then "-" + NatToString(-n) else NatToString(n)
  }

  /** The value of `c` as a digit of the given radix (10, or 16 after a `0x` prefix). */
  function DigitValue(c: char, hex: bool): Option<nat> {
    if '0' <= c <= '9' then Some(c as int - 48)
    else if hex && 'a' <= c <= 'f' then Some(c as int - 87)
    else if hex && 'A' <= c <= 'F' then Some(c as int - 55)
    else None
  }

  ghost predicate AllDigits(s: string, hex: bool) {
    forall i :: 0 <= i < |s| ==> DigitValue(s[i], hex).Some?
  }

  /** The length of the longest prefix of `s` made of digits. */
  function DigitRun(s: string, hex: bool): (n: nat)
    ensures n <= |s|
    ensures AllDigits(s[..n], hex)
    ensures n < |s| ==> DigitValue(s[n], hex).None?
  {
    if |s| > 0 && DigitValue(s[0], hex).Some? then
      var n := 1 + DigitRun(s[1..], hex);
      assert forall i :: 1 <= i < n ==> s[..n][i] == s[1..][..n - 1][i - 1];
      n
    else 0
  }

  /** The numeric value of a string of digits, most significant first. */
  function DigitsValue(s: string, hex: bool): nat
    requires AllDigits(s, hex)
  {
    if |s| == 0 then 0
    else DigitsValue(s[..|s| - 1], hex) * (if hex then 16 else 10) + DigitValue(s[|s| - 1], hex).value
  }

  /** The value of the longest run of digits `d` starts with; none when it starts with no digit. */
  function ReadDigits(d: string, hex: bool): Option<nat> {
    var n := DigitRun(d, hex);
    if n == 0 then None else Some(DigitsValue(d[..n], hex))
  }

  /** An unsigned numeral: a `0x`/`0X` prefix selects radix 16, otherwise radix 10. */
  function ParseMagnitude(u: string): Option<nat> {
    if |u| >= 2 && u[0] == '0' && (u[1] == 'x' || u[1] == 'X') then ReadDigits(u[2..], true)
    else ReadDigits(u, false)
  }

  /** One optional sign, then an unsigned numeral. */
  function ParseSigned(t: string): Option<int> {
    if |t| > 0 && t[0] == '-' then
      match ParseMagnitude(t[1..])
      case None => None
      case Some(v) => Some(-(v as int))
    else if |t| > 0 && t[0] == '+' then
      match ParseMagnitude(t[1..])
      case None => None
      case Some(v) => Some(v)
    else
      match ParseMagnitude(t)
      case None => None
      case Some(v) => Some(v)
  }

  /**
   * `parseInt(s)` with no radix: leading white space is skipped, one sign is read, a `0x`/`0X`
   * prefix selects radix 16, then the longest run of digits is read; no digits gives NaN (None).
   */
  function ParseInt(s: string): Option<int> {
    ParseSigned(TrimStart(s))
  }

  lemma {:induction false} DigitRunOfDigits(s: string)
    requires forall i :: 0 <= i < |s| ==> IsDecimalDigit(s[i])
    ensures DigitRun(s, false) == |s|
    decreases |s|
  {
    if |s| > 0 {
      DigitRunOfDigits(s[1..]);
    }
  }

  lemma {:induction false} NatToStringValue(n: nat)
    ensures AllDigits(NatToString(n), false)
    ensures DigitsValue(NatToString(n), false) == n
    decreases n
  {
    var s := NatToString(n);
    if n >= 10 {
      NatToStringValue(n / 10);
      assert s[..|s| - 1] == NatToString(n / 10);
    }
  }

  /** A numeral reads back as the number it was written from. */
  lemma NumeralMagnitude(n: nat)
    ensures ParseMagnitude(NatToString(n)) == Some(n)
  {
    var s := NatToString(n);
    DigitRunOfDigits(s);
    NatToStringValue(n);
    assert s[..|s|] == s;
    assert ReadDigits(s, false) == Some(n);
  }

  /** A numeral starts with a digit, so no white space is skipped before it. */
  lemma NumeralUntrimmed(n: nat)
    ensures TrimStart(NatToString(n)) == NatToString(n)
  {
    assert !IsSpace(NatToString(n)[0]);
  }

  /** `parseInt` reads back every natural number's numeral. */
  lemma ParseNatToString(n: nat)
    ensures ParseInt(NatToString(n)) == Some(n)
  {
    NumeralUntrimmed(n);
    NumeralMagnitude(n);
  }

  /** `parseInt(n.toString())` is `n` for every integer `n`, negative ones included. */
  lemma ParseIntToString(n: int)
    ensures ParseInt(IntToString(n)) == Some(n)
  {
    if n < 0 {
      var s := IntToString(n);
      assert s == "-" + NatToString(-n);
      assert !IsSpace(s[0]);
      assert TrimStart(s) == s;
      assert s[1..] == NatToString(-n);
      NumeralMagnitude(-n);
    } else {
      ParseNatToString(n);
    }
  }

  /** Distinct integers have distinct numerals, so comparing id strings compares ids. */
  lemma IntToStringInjective(a: int, b: int)
    ensures IntToString(a) == IntToString(b) <==> a == b
  {
    ParseIntToString(a);
    ParseIntToString(b);
  }
}
