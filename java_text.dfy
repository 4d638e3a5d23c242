/**
 * The parts of `java.lang.String` and `java.lang.Character` that the domain
 * layer relies on: `isBlank`, `trim`, `toLowerCase`, `indexOf`,
 * `equalsIgnoreCase` and the decimal rendering of a `long`. Case mapping is
 * modelled for ASCII letters only.
 */
module JavaText {
  import opened Results

  /** `Character.isWhitespace`: the space separators other than the
      no-break ones, the line and paragraph separators, and the ASCII
      controls TAB, LF, VT, FF, CR and FS..US. */
  predicate IsWhitespace(c: char) {
    || c == ' ' || c == '\t' || c == '\n' || c == '\U{000B}' || c == '\U{000C}' || c == '\r'
    || ('\U{001C}' <= c <= '\U{001F}')
    || c == '\U{1680}'
    || ('\U{2000}' <= c <= '\U{2006}')
    || ('\U{2008}' <= c <= '\U{200A}')
    || c == '\U{2028}' || c == '\U{2029}' || c == '\U{205F}' || c == '\U{3000}'
  }

  /** `String.isBlank`: empty, or whitespace only. */
  predicate IsBlank(s: string) {
    forall i :: 0 <= i < |s| ==> IsWhitespace(s[i])
  }

  /** The characters `String.trim` removes: every code up to U+0020. */
  predicate IsTrimmable(c: char) {
    c <= ' '
  }

  /** The leading half of `String.trim`. */
  function TrimStart(s: string): (r: string)
    ensures |r| <= |s| && r == s[|s| - |r|..]
    ensures forall i :: 0 <= i < |s| - |r| ==> IsTrimmable(s[i])
    ensures r == [] || !IsTrimmable(r[0])
  {
    if s != [] && IsTrimmable(s[0]) then TrimStart(s[1..]) else s
  }

  /** The trailing half of `String.trim`. */
  function TrimEnd(s: string): (r: string)
    ensures |r| <= |s| && r == s[..|r|]
    ensures forall i :: |r| <= i < |s| ==> IsTrimmable(s[i])
    ensures r == [] || !IsTrimmable(r[|r| - 1])
  {
    if s != [] && IsTrimmable(s[|s| - 1]) then TrimEnd(s[..|s| - 1]) else s
  }

  /** `String.trim`. */
  function Trim(s: string): string {
    TrimEnd(TrimStart(s))
  }

  /** A string that starts and ends with a character `trim` keeps is its own trim. */
  lemma TrimKeeps(s: string)
    requires s == [] || (!IsTrimmable(s[0]) && !IsTrimmable(s[|s| - 1]))
    ensures Trim(s) == s
  {
    assert TrimStart(s) == s;
  }

  predicate AllTrimmable(s: string) {
    forall i :: 0 <= i < |s| ==> IsTrimmable(s[i])
  }

  /** Leading padding is removed and nothing more. */
  lemma {:induction false} TrimStartPadded(pad: string, r: string)
    requires AllTrimmable(pad)
    requires r == [] || !IsTrimmable(r[0])
    ensures TrimStart(pad + r) == r
    decreases |pad|
  {
    if pad == [] {
      assert pad + r == r;
    } else {
      assert (pad + r)[1..] == pad[1..] + r;
      TrimStartPadded(pad[1..], r);
    }
  }

  /** Trailing padding is removed and nothing more. */
  lemma {:induction false} TrimEndPadded(r: string, pad: string)
    requires AllTrimmable(pad)
    requires r == [] || !IsTrimmable(r[|r| - 1])
    ensures TrimEnd(r + pad) == r
    decreases |pad|
  {
    if pad == [] {
      assert r + pad == r;
    } else {
      assert (r + pad)[..|r + pad| - 1] == r + pad[..|pad| - 1];
      TrimEndPadded(r, pad[..|pad| - 1]);
    }
  }

  /** `trim` strips exactly the padding around a text whose ends it keeps. */
  lemma TrimPadded(before: string, t: string, after: string)
    requires AllTrimmable(before) && AllTrimmable(after)
    requires t != [] && !IsTrimmable(t[0]) && !IsTrimmable(t[|t| - 1])
    ensures Trim(before + t + after) == t
  {
    assert before + t + after == before + (t + after);
    TrimStartPadded(before, t + after);
    TrimEndPadded(t, after);
  }

  predicate IsUpper(c: char) {
    'A' <= c <= 'Z'
  }

  /** A string in which `toLowerCase` changes nothing. */
  predicate NoUpper(s: string) {
    forall i :: 0 <= i < |s| ==> !IsUpper(s[i])
  }

  /** `Character.toLowerCase`, on ASCII letters. */
  function ToLowerChar(c: char): (r: char)
    ensures !IsUpper(r)
    ensures !IsUpper(c) ==> r == c
  {
    if IsUpper(c) then (c as int + ('a' as int - 'A' as int)) as char else c
  }

  /** `String.toLowerCase`, on ASCII letters. */
  function ToLower(s: string): (r: string)
    ensures |r| == |s|
    ensures forall i :: 0 <= i < |s| ==> r[i] == ToLowerChar(s[i])
  {
    seq(|s|, i requires 0 <= i < |s| => ToLowerChar(s[i]))
  }

  /** A string without upper-case letters is its own lower-case form. */
  lemma {:induction false} ToLowerKeeps(s: string)
    requires NoUpper(s)
    ensures ToLower(s) == s
  {
    assert forall i :: 0 <= i < |s| ==> ToLower(s)[i] == s[i];
  }

  /** `String.equalsIgnoreCase`: a null argument is never equal. */
  predicate EqualsIgnoreCase(s: string, other: Option<string>) {
    other.Some? && ToLower(s) == ToLower(other.value)
  }

  predicate IsDigit(c: char) {
    '0' <= c <= '9'
  }

  /** `Character.getNumericValue` on an ASCII digit. */
  function DigitValue(c: char): (d: nat)
    requires IsDigit(c)
    ensures d <= 9
  {
    c as int - '0' as int
  }

  /** `String.indexOf(char)`; Java's -1 is `None`. */
  function IndexOf(s: string, c: char): (r: Option<nat>)
    ensures r.None? <==> forall i :: 0 <= i < |s| ==> s[i] != c
    ensures r.Some? ==> r.value < |s| && s[r.value] == c
    ensures r.Some? ==> forall i :: 0 <= i < r.value ==> s[i] != c
  {
    if s == [] then None
    else if s[0] == c then Some(0)
    else match IndexOf(s[1..], c)
      case None => None
      case Some(k) => Some(k + 1)
  }

  /** `String.lastIndexOf(char)`; Java's -1 is `None`. */
  function LastIndexOf(s: string, c: char): (r: Option<nat>)
    ensures r.None? <==> forall i :: 0 <= i < |s| ==> s[i] != c
    ensures r.Some? ==> r.value < |s| && s[r.value] == c
    ensures r.Some? ==> forall i :: r.value < i < |s| ==> s[i] != c
  {
    if s == [] then None
    else if s[|s| - 1] == c then Some(|s| - 1)
    else LastIndexOf(s[..|s| - 1], c)
  }

  function DigitChar(d: nat): (c: char)
    requires d <= 9
    ensures IsDigit(c) && DigitValue(c) == d
  {
    ('0' as int + d) as char
  }

  /** The number a string of decimal digits denotes, most significant first. */
  function DecimalValue(s: string): nat
    requires forall i :: 0 <= i < |s| ==> IsDigit(s[i])
  {
    if s == [] then 0 else DecimalValue(s[..|s| - 1]) * 10 + DigitValue(s[|s| - 1])
  }

  /** The decimal digits of a natural number, most significant first, with
      no leading zero. */
  function NatToString(n: nat): (s: string)
    ensures s != []
    ensures forall i :: 0 <= i < |s| ==> IsDigit(s[i])
    ensures DecimalValue(s) == n
    ensures |s| == 1 || s[0] != '0'
  {
    if n < 10 then [DigitChar(n)]
    else
      var t := NatToString(n / 10);
      var s := t + [DigitChar(n % 10)];
      assert s[..|s| - 1] == t;
      assert |t| == 1 ==> DecimalValue(t) == DigitValue(t[0]);
      s
  }

  /** `Long.toString`, used when an id is concatenated into a message: a
      minus sign for a negative number, then the digits of its magnitude. */
  function IntToString(n: int): (s: string)
    ensures n >= 0 ==> s == NatToString(n)
    ensures n < 0 ==> s == "-" + NatToString(-n)
  {
    if n < 0 then "-" + NatToString(-n) else NatToString(n)
  }
}
