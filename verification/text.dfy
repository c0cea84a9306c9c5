/** String helpers shared by the front end and the back end: white-space
    trimming in the two languages' own senses, and decimal rendering of the
    integers that appear in default chat titles. */
module Text {

  /** Whose definition of white space a trim follows. */
  datatype Dialect = JavaScript | Python

  /** The code points `String.prototype.trim` removes: ECMAScript's
      WhiteSpace (TAB, VT, FF, SP, NBSP, ZWNBSP and category Zs) and its
      LineTerminator set (LF, CR, LS, PS). */
  predicate IsJsSpace(c: char)
  {
    || c == '\t' || c == '\n' || c == '\U{B}' || c == '\U{C}' || c == '\r'
    || c == ' ' || c == '\U{A0}' || c == '\U{1680}'
    || ('\U{2000}' <= c <= '\U{200A}')
    || c == '\U{2028}' || c == '\U{2029}' || c == '\U{202F}' || c == '\U{205F}'
    || c == '\U{3000}' || c == '\U{FEFF}'
  }

  /** The code points for which Python's `str.isspace` holds, which is what
      `str.strip()` with no argument removes. Unlike JavaScript it counts the
      information separators U+001C..U+001F and NEL (U+0085), and not ZWNBSP. */
  predicate IsPySpace(c: char)
  {
    || c == '\t' || c == '\n' || c == '\U{B}' || c == '\U{C}' || c == '\r'
    || ('\U{1C}' <= c <= '\U{1F}')
    || c == ' ' || c == '\U{85}' || c == '\U{A0}' || c == '\U{1680}'
    || ('\U{2000}' <= c <= '\U{200A}')
    || c == '\U{2028}' || c == '\U{2029}' || c == '\U{202F}' || c == '\U{205F}'
    || c == '\U{3000}'
  }

  predicate IsSpace(d: Dialect, c: char)
  {
    match d
    case JavaScript => IsJsSpace(c)
    case Python => IsPySpace(c)
  }

  /** Every character of `s` is white space (the empty string included). */
  predicate IsBlank(d: Dialect, s: string)
  {
    forall k :: 0 <= k < |s| ==> IsSpace(d, s[k])
  }

  /** `r` is `s[i..j]`, everything outside `[i, j)` is white space, and `r`
      neither starts nor ends with white space. */
  ghost predicate IsStrippedAt(d: Dialect, s: string, r: string, i: int, j: int)
  {
    && 0 <= i <= j <= |s|
    && r == s[i..j]
    && (forall k :: 0 <= k < i ==> IsSpace(d, s[k]))
    && (forall k :: j <= k < |s| ==> IsSpace(d, s[k]))
    && (r == [] || (!IsSpace(d, r[0]) && !IsSpace(d, r[|r| - 1])))
  }

  /** Reference definition of trimming: `r` is `s` with its leading and
      trailing white space removed. */
  ghost predicate IsStripped(d: Dialect, s: string, r: string)
  {
    exists i, j :: IsStrippedAt(d, s, r, i, j)
  }

  /** Drops leading white space. */
  function TrimStart(d: Dialect, s: string): (r: string)
    ensures |r| <= |s| && r == s[|s| - |r|..]
    ensures forall k :: 0 <= k < |s| - |r| ==> IsSpace(d, s[k])
    ensures r == [] || !IsSpace(d, r[0])
  {
    if |s| > 0 && IsSpace(d, s[0]) then TrimStart(d, s[1..]) else s
  }

  /** Drops trailing white space. */
  function TrimEnd(d: Dialect, s: string): (r: string)
    ensures |r| <= |s| && r == s[..|r|]
    ensures forall k :: |r| <= k < |s| ==> IsSpace(d, s[k])
    ensures r == [] || !IsSpace(d, r[|r| - 1])
  {
    if |s| > 0 && IsSpace(d, s[|s| - 1]) then TrimEnd(d, s[..|s| - 1]) else s
  }

  /** JavaScript's `s.trim()` or Python's `s.strip()`, by dialect. */
  function Strip(d: Dialect, s: string): (r: string)
    ensures IsStripped(d, s, r)
  {
    var t := TrimStart(d, s);
    var r := TrimEnd(d, t);
    assert IsStrippedAt(d, s, r, |s| - |t|, |s| - |t| + |r|);
    r
  }

  /** The reference definition admits exactly one result, so `Strip` is
      determined by it. */
  lemma StrippedIsUnique(d: Dialect, s: string, r1: string, r2: string)
    requires IsStripped(d, s, r1) && IsStripped(d, s, r2)
    ensures r1 == r2
  {
  }

  /** A string trims to nothing exactly when it is all white space: this is
      the "empty input" test of the front end's send handler. */
  lemma StripEmptyIffBlank(d: Dialect, s: string)
    ensures Strip(d, s) == [] <==> IsBlank(d, s)
  {
  }

  /** Trimming an already trimmed string changes nothing. */
  lemma StripIdempotent(d: Dialect, s: string)
    ensures Strip(d, Strip(d, s)) == Strip(d, s)
  {
  }

  /** The decimal digit for `n`. */
  function DigitChar(n: nat): (c: char)
    requires n < 10
    ensures '0' <= c <= '9' && c as int - '0' as int == n
  {
    ('0' as int + n) as char
  }

  predicate IsDigits(s: string)
  {
    forall k :: 0 <= k < |s| ==> '0' <= s[k] <= '9'
  }

  /** The numeric value of a string of decimal digits. */
  function DecimalValue(s: string): nat
    requires IsDigits(s)
  {
    if s == [] then 0
    else DecimalValue(s[..|s| - 1]) * 10 + (s[|s| - 1] as int - '0' as int)
  }

  /** How a template literal renders a non-negative integer: its shortest
      decimal representation. */
  function NatToDecimal(n: nat): (s: string)
    ensures |s| >= 1 && IsDigits(s)
    ensures |s| > 1 ==> s[0] != '0'
    decreases n
  {
    if n < 10 then [DigitChar(n)] else NatToDecimal(n / 10) + [DigitChar(n % 10)]
  }

  /** Reading back the digits gives the number: the rendering loses nothing. */
  lemma {:induction false} DecimalRoundTrip(n: nat)
    ensures DecimalValue(NatToDecimal(n)) == n
    decreases n
  {
    if n >= 10 {
      var s := NatToDecimal(n);
      assert s[..|s| - 1] == NatToDecimal(n / 10);
      DecimalRoundTrip(n / 10);
    }
  }

  /** How a template literal renders an integer, sign included. */
  function IntToDecimal(i: int): (s: string)
    ensures |s| >= 1
    ensures i >= 0 ==> IsDigits(s) && DecimalValue(s) == i
    ensures i < 0 ==> s[0] == '-' && IsDigits(s[1..]) && DecimalValue(s[1..]) == -i
    ensures i >= 0 && |s| > 1 ==> s[0] != '0'
    ensures i < 0 && |s| > 2 ==> s[1] != '0'
  {
    if i < 0 then
      DecimalRoundTrip(-i);
      "-" + NatToDecimal(-i)
    else
      DecimalRoundTrip(i);
      NatToDecimal(i)
  }
}
