/** The string operations the reset-password handler applies to the new password. */
module Text {

  /** The characters `String.prototype.trim` removes: ECMAScript WhiteSpace and LineTerminator. */
  predicate IsJsWhitespace(c: char) {
    c == ' ' || c == '\t' || c == '\n' || c == '\r' ||
    c == '\U{000B}' || c == '\U{000C}' || c == '\U{00A0}' || c == '\U{1680}' ||
    ('\U{2000}' <= c <= '\U{200A}') ||
    c == '\U{2028}' || c == '\U{2029}' || c == '\U{202F}' || c == '\U{205F}' ||
    c == '\U{3000}' || c == '\U{FEFF}'
  }

  function TrimStart(s: string): (t: string)
    ensures |t| <= |s| && t == s[|s| - |t|..]
    ensures forall j :: 0 <= j < |s| - |t| ==> IsJsWhitespace(s[j])
    ensures |t| > 0 ==> !IsJsWhitespace(t[0])
  {
    if |s| > 0 && IsJsWhitespace(s[0]) then TrimStart(s[1..]) else s
  }

  function TrimEnd(s: string): (t: string)
    ensures t <= s
    ensures forall j :: |t| <= j < |s| ==> IsJsWhitespace(s[j])
    ensures |t| > 0 ==> !IsJsWhitespace(t[|t| - 1])
  {
    if |s| > 0 && IsJsWhitespace(s[|s| - 1]) then TrimEnd(s[..|s| - 1]) else s
  }

  /** `s.trim()`. */
  function Trim(s: string): string {
    TrimEnd(TrimStart(s))
  }

  lemma {:induction false} TrimStartEmptyIff(s: string)
    ensures TrimStart(s) == [] <==> forall j :: 0 <= j < |s| ==> IsJsWhitespace(s[j])
  {
    if |s| > 0 && IsJsWhitespace(s[0]) {
      TrimStartEmptyIff(s[1..]);
      assert forall j :: 1 <= j < |s| ==> s[j] == s[1..][j - 1];
    }
  }

  lemma {:induction false} TrimEndKeepsLeadingChar(s: string)
    requires |s| > 0 && !IsJsWhitespace(s[0])
    ensures |TrimEnd(s)| > 0
  {
    if IsJsWhitespace(s[|s| - 1]) {
      TrimEndKeepsLeadingChar(s[..|s| - 1]);
    }
  }

  /** Every character of `s` is whitespace. */
  predicate Blank(s: string) {
    forall j :: 0 <= j < |s| ==> IsJsWhitespace(s[j])
  }

  /** `s.trim().length === 0` exactly when every character of `s` is whitespace. */
  lemma TrimEmptyIff(s: string)
    ensures |Trim(s)| == 0 <==> Blank(s)
  {
    TrimStartEmptyIff(s);
    if TrimStart(s) != [] {
      TrimEndKeepsLeadingChar(TrimStart(s));
    }
  }
}
