/**
 * The string operations of JavaScript that the model needs: decimal
 * rendering of a number in a template literal, `parseInt`,
 * `toLowerCase` on ASCII letters and `String.prototype.trim`.
 */
module Text {

  import opened Wrappers

  predicate IsDigit(c: char) {
    '0' <= c <= '9'
  }

  predicate AllDigits(s: string) {
    forall i | 0 <= i < |s| :: IsDigit(s[i])
  }

  function DigitChar(d: nat): (c: char)
    requires d < 10
    ensures IsDigit(c)
  {
    (48 + d) as char
  }

  function DigitValue(c: char): (d: nat)
    requires IsDigit(c)
    ensures d < 10 && DigitChar(d) == c
  {
    (c as int) - 48
  }

  /** The decimal text of `n`, as `${n}` renders a non-negative integer. */
  function NatToString(n: nat): (s: string)
    ensures |s| > 0 && AllDigits(s)
    ensures n < 10 <==> |s| == 1
  {
    if n < 10 then [DigitChar(n)] else NatToString(n / 10) + [DigitChar(n % 10)]
  }

  /** The value of a string of decimal digits, read from the left. */
  function DigitsValue(s: string): nat
    requires AllDigits(s)
  {
    if s == [] then 0 else 10 * DigitsValue(s[..|s| - 1]) + DigitValue(s[|s| - 1])
  }

  /** The longest prefix of `s` made of decimal digits. */
  function LeadingDigits(s: string): (d: string)
    ensures AllDigits(d) && d <= s
    ensures |d| < |s| ==> !IsDigit(s[|d|])
  {
    if s == [] || !IsDigit(s[0]) then [] else [s[0]] + LeadingDigits(s[1..])
  }

  predicate IsHexDigit(c: char) {
    IsDigit(c) || 'a' <= c <= 'f' || 'A' <= c <= 'F'
  }

  function HexDigitValue(c: char): (d: nat)
    requires IsHexDigit(c)
    ensures d < 16
  {
    if IsDigit(c) then DigitValue(c)
    else if 'a' <= c <= 'f' then (c as int) - ('a' as int) + 10
    else (c as int) - ('A' as int) + 10
  }

  /** The longest prefix of `s` made of hexadecimal digits. */
  function LeadingHexDigits(s: string): (d: string)
    ensures d <= s && forall i | 0 <= i < |d| :: IsHexDigit(d[i])
  {
    if s == [] || !IsHexDigit(s[0]) then [] else [s[0]] + LeadingHexDigits(s[1..])
  }

  function HexValue(s: string): nat
    requires forall i | 0 <= i < |s| :: IsHexDigit(s[i])
  {
    if s == [] then 0 else 16 * HexValue(s[..|s| - 1]) + HexDigitValue(s[|s| - 1])
  }

  /** The text begins with the `0x` or `0X` that makes `parseInt` read hexadecimal. */
  predicate HexPrefixed(s: string) {
    |s| >= 2 && s[0] == '0' && (s[1] == 'x' || s[1] == 'X')
  }

  /** The value of the leading decimal digits, or `None` when there are none. */
  function ParseDigits(s: string): Option<int> {
    var d := LeadingDigits(s);
    if d == [] then None else Some(DigitsValue(d))
  }

  /** The value of the leading hexadecimal digits, or `None` when there are none. */
  function ParseHexDigits(s: string): Option<int> {
    var d := LeadingHexDigits(s);
    if d == [] then None else Some(HexValue(d))
  }

  /** The digits after the sign: hexadecimal after `0x` or `0X`, decimal otherwise. */
  function ParseUnsigned(s: string): Option<int> {
    if HexPrefixed(s) then ParseHexDigits(s[2..]) else ParseDigits(s)
  }

  /**
   * `parseInt(s)` with no radix: leading white space is skipped, one `+` or
   * `-` is taken as the sign, a `0x` prefix selects hexadecimal, and the
   * longest run of digits after that is read; without any digit the result
   * is `NaN`, here `None`.
   */
  function ParseInt(s: string): Option<int> {
    var t := TrimStart(s);
    if t != [] && t[0] == '-' then
      match ParseUnsigned(t[1..])
      case None => None
      case Some(n) => Some(-n)
    else if t != [] && t[0] == '+' then ParseUnsigned(t[1..])
    else ParseUnsigned(t)
  }

  lemma {:induction false} LeadingDigitsOfDigits(s: string, rest: string)
    requires AllDigits(s)
    requires rest == [] || !IsDigit(rest[0])
    ensures LeadingDigits(s + rest) == s
  {
    if s != [] {
      assert (s + rest)[1..] == s[1..] + rest;
      LeadingDigitsOfDigits(s[1..], rest);
    }
  }

  lemma {:induction false} DigitsValueOfNatToString(n: nat)
    ensures DigitsValue(NatToString(n)) == n
  {
    if n >= 10 {
      var p := NatToString(n / 10);
      var s := p + [DigitChar(n % 10)];
      assert s[..|s| - 1] == p;
      DigitsValueOfNatToString(n / 10);
    }
  }

  /** Text that starts with a digit and no `0x` is read as its leading decimal digits. */
  lemma ParseDecimal(s: string)
    requires s != [] && IsDigit(s[0])
    requires |s| >= 2 ==> s[1] != 'x' && s[1] != 'X'
    ensures ParseInt(s) == ParseDigits(s)
  {
    assert !IsJsSpace(s[0]);
    assert TrimStart(s) == s;
  }

  /** Text that starts with a digit and no `0x` has its leading decimal digits as unsigned part. */
  lemma ParseDecimalUnsigned(s: string)
    requires s != [] && IsDigit(s[0])
    requires |s| >= 2 ==> s[1] != 'x' && s[1] != 'X'
    ensures ParseUnsigned(s) == ParseDigits(s)
  {
  }

  /** `parseInt` skips leading white space. */
  lemma ParseIntSkipsSpace(c: char, s: string)
    requires IsJsSpace(c)
    ensures ParseInt([c] + s) == ParseInt(s)
  {
    assert ([c] + s)[1..] == s;
  }

  /** A leading `-` negates the number read after it, and `NaN` stays `NaN`. */
  lemma ParseIntNegative(s: string)
    ensures ParseInt("-" + s) == match ParseUnsigned(s) case None => None case Some(n) => Some(-n)
  {
    var t := "-" + s;
    assert !IsJsSpace(t[0]) && TrimStart(t) == t;
    assert t[1..] == s;
  }

  /** `parseInt` reads back what the template literal `${n}` wrote, whatever non-digit text follows it. */
  lemma ParseIntOfNatToString(n: nat, rest: string)
    requires rest == [] || (!IsDigit(rest[0]) && rest[0] != 'x' && rest[0] != 'X')
    ensures ParseInt(NatToString(n) + rest) == Some(n)
  {
    var d := NatToString(n);
    var s := d + rest;
    assert s[0] == d[0];
    if |s| >= 2 {
      if |d| >= 2 {
        assert s[1] == d[1] && IsDigit(d[1]);
      } else {
        assert s[1] == rest[0];
      }
    }
    ParseDecimal(s);
    LeadingDigitsOfDigits(d, rest);
    DigitsValueOfNatToString(n);
  }

  /** Distinct numbers render as distinct text. */
  lemma NatToStringInjective(m: nat, n: nat)
    ensures NatToString(m) == NatToString(n) <==> m == n
  {
    if NatToString(m) == NatToString(n) {
      ParseIntOfNatToString(m, []);
      ParseIntOfNatToString(n, []);
      assert NatToString(m) + [] == NatToString(m);
      assert NatToString(n) + [] == NatToString(n);
    }
  }

  /** `toLowerCase` on one character, for the ASCII letters that the filename pattern uses. */
  function LowerChar(c: char): char {
    if 'A' <= c <= 'Z' then (c as int + 32) as char else c
  }

  function Lower(s: string): (r: string)
    ensures |r| == |s|
    ensures forall i | 0 <= i < |s| :: r[i] == LowerChar(s[i])
  {
    if s == [] then [] else [LowerChar(s[0])] + Lower(s[1..])
  }

  /** Lowercasing twice is lowercasing once. */
  lemma LowerIdempotent(s: string)
    ensures Lower(Lower(s)) == Lower(s)
  {
    assert forall i | 0 <= i < |s| :: LowerChar(LowerChar(s[i])) == LowerChar(s[i]);
  }

  /** The characters `String.prototype.trim` removes: white space and line terminators. */
  predicate IsJsSpace(c: char) {
    c == '\t' || c == '\n' || c == '\U{B}' || c == '\U{C}' || c == '\r' || c == ' '
    || c == '\U{A0}' || c == '\U{1680}' || ('\U{2000}' <= c <= '\U{200A}')
    || c == '\U{2028}' || c == '\U{2029}' || c == '\U{202F}' || c == '\U{205F}'
    || c == '\U{3000}' || c == '\U{FEFF}'
  }

  function TrimStart(s: string): (r: string)
    ensures |r| <= |s|
    ensures r == [] || !IsJsSpace(r[0])
  {
    if s != [] && IsJsSpace(s[0]) then TrimStart(s[1..]) else s
  }

  function TrimEnd(s: string): (r: string)
    ensures |r| <= |s|
    ensures r == [] || !IsJsSpace(r[|r| - 1])
  {
    if s != [] && IsJsSpace(s[|s| - 1]) then TrimEnd(s[..|s| - 1]) else s
  }

  /** `TrimStart` removes a prefix of white space and nothing else. */
  lemma {:induction false} TrimStartDrops(s: string) returns (k: nat)
    ensures k <= |s| && TrimStart(s) == s[k..]
    ensures forall i | 0 <= i < k :: IsJsSpace(s[i])
  {
    if s != [] && IsJsSpace(s[0]) {
      var j := TrimStartDrops(s[1..]);
      k := j + 1;
      assert s[1..][j..] == s[k..];
      assert forall i | 1 <= i < k :: s[i] == s[1..][i - 1];
    } else {
      k := 0;
    }
  }

  /** `TrimEnd` removes a suffix of white space and nothing else. */
  lemma {:induction false} TrimEndDrops(s: string) returns (k: nat)
    ensures k <= |s| && TrimEnd(s) == s[..k]
    ensures forall i | k <= i < |s| :: IsJsSpace(s[i])
  {
    if s != [] && IsJsSpace(s[|s| - 1]) {
      var p := s[..|s| - 1];
      k := TrimEndDrops(p);
      assert p[..k] == s[..k];
      assert forall i | k <= i < |p| :: s[i] == p[i];
    } else {
      k := |s|;
    }
  }

  /** `s.trim()`: `s` without its leading and trailing white space. */
  function Trim(s: string): string {
    TrimEnd(TrimStart(s))
  }

  /**
   * `trim` cuts white space off both ends and nothing else: what is left is a
   * slice of the text that neither starts nor ends with white space.
   */
  lemma TrimDrops(s: string) returns (i: nat, j: nat)
    ensures i <= j <= |s| && Trim(s) == s[i..j]
    ensures forall k | 0 <= k < i :: IsJsSpace(s[k])
    ensures forall k | j <= k < |s| :: IsJsSpace(s[k])
    ensures Trim(s) != [] ==> !IsJsSpace(s[i]) && !IsJsSpace(s[j - 1])
  {
    i := TrimStartDrops(s);
    var t := s[i..];
    var k := TrimEndDrops(t);
    j := i + k;
    assert t[..k] == s[i..j];
    assert forall q | k <= q < |t| :: t[q] == s[i + q];
    if Trim(s) != [] {
      TrimStartEmpty(s);
      assert TrimStart(s) != [];
      assert s[i] == TrimStart(s)[0];
      assert s[j - 1] == Trim(s)[k - 1];
    }
  }

  lemma {:induction false} TrimStartEmpty(s: string)
    ensures TrimStart(s) == [] <==> forall i | 0 <= i < |s| :: IsJsSpace(s[i])
  {
    if s != [] && IsJsSpace(s[0]) {
      TrimStartEmpty(s[1..]);
      assert forall i | 1 <= i < |s| :: s[i] == s[1..][i - 1];
    }
  }

  lemma {:induction false} TrimEndEmpty(s: string)
    ensures TrimEnd(s) == [] <==> forall i | 0 <= i < |s| :: IsJsSpace(s[i])
  {
    if s != [] && IsJsSpace(s[|s| - 1]) {
      TrimEndEmpty(s[..|s| - 1]);
      assert forall i | 0 <= i < |s| - 1 :: s[i] == s[..|s| - 1][i];
    }
  }

  /** A string trims to the empty string exactly when it is all white space. */
  lemma TrimEmpty(s: string)
    ensures Trim(s) == [] <==> forall i | 0 <= i < |s| :: IsJsSpace(s[i])
  {
    var t := TrimStart(s);
    TrimStartEmpty(s);
    TrimEndEmpty(t);
    assert (forall i | 0 <= i < |t| :: IsJsSpace(t[i])) <==> t == [];
  }
}
