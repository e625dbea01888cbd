/** The JavaScript string operations the components rely on: `trim()` in the
    required-field checks and `replace(/_/g, ' ')` in the verdict badges. */
module JsText {

  /** ECMAScript WhiteSpace and LineTerminator code points, which `trim()` removes. */
  predicate IsJsWhitespace(c: char)
  {
    || ('\U{9}' <= c <= '\U{D}')            // tab, line feed, vertical tab, form feed, carriage return
    || c == ' ' || c == '\U{A0}' || c == '\U{1680}'
    || ('\U{2000}' <= c <= '\U{200A}')      // the en/em space family
    || c == '\U{2028}' || c == '\U{2029}'   // line and paragraph separators
    || c == '\U{202F}' || c == '\U{205F}' || c == '\U{3000}'
    || c == '\U{FEFF}'                      // byte order mark
  }

  /** Every character is whitespace (the empty string included). */
  predicate IsBlank(s: string)
  {
    forall k :: 0 <= k < |s| ==> IsJsWhitespace(s[k])
  }

  function TrimStart(s: string): (r: string)
    ensures |r| <= |s| && r == s[|s| - |r|..]
    ensures r == [] || !IsJsWhitespace(r[0])
    ensures forall k :: 0 <= k < |s| - |r| ==> IsJsWhitespace(s[k])
  {
    if |s| > 0 && IsJsWhitespace(s[0]) then TrimStart(s[1..]) else s
  }

  function TrimEnd(s: string): (r: string)
    ensures r <= s
    ensures r == [] || !IsJsWhitespace(r[|r| - 1])
    ensures forall k :: |r| <= k < |s| ==> IsJsWhitespace(s[k])
  {
    if |s| > 0 && IsJsWhitespace(s[|s| - 1]) then TrimEnd(s[..|s| - 1]) else s
  }

  /** `String.prototype.trim`: the string without leading and trailing whitespace. It is
      empty, so that `!s.trim()` holds, exactly when `s` is blank. */
  function Trim(s: string): (r: string)
    ensures r == [] <==> IsBlank(s)
  {
    TrimStartEmptyIffBlank(s);
    TrimEnd(TrimStart(s))
  }

  /** Trimming the start leaves nothing exactly when the string is blank. */
  lemma {:induction false} TrimStartEmptyIffBlank(s: string)
    ensures TrimStart(s) == [] <==> IsBlank(s)
  {
    if |s| > 0 && IsJsWhitespace(s[0]) {
      TrimStartEmptyIffBlank(s[1..]);
      assert forall k :: 1 <= k < |s| ==> s[k] == s[1..][k - 1];
    }
  }

  /** A trimmed string neither starts nor ends with whitespace. */
  lemma TrimEnds(s: string)
    ensures Trim(s) == [] || (!IsJsWhitespace(Trim(s)[0]) && !IsJsWhitespace(Trim(s)[|Trim(s)| - 1]))
  {
    TrimEndKeepsStart(TrimStart(s));
  }

  /** Trimming the end of a string that starts with no whitespace keeps that start. */
  lemma TrimEndKeepsStart(t: string)
    requires t == [] || !IsJsWhitespace(t[0])
    ensures TrimEnd(t) == [] || (!IsJsWhitespace(TrimEnd(t)[0]) && !IsJsWhitespace(TrimEnd(t)[|TrimEnd(t)| - 1]))
  {
    var r := TrimEnd(t);
    if r != [] {
      assert r[0] == t[0];
    }
  }

  /** `s.replace(/_/g, ' ')`: every underscore becomes a space. */
  function UnderscoresToSpaces(s: string): (r: string)
    ensures |r| == |s|
    ensures forall k :: 0 <= k < |s| ==> r[k] == (if s[k] == '_' then ' ' else s[k])
  {
    if |s| == 0 then []
    else [if s[0] == '_' then ' ' else s[0]] + UnderscoresToSpaces(s[1..])
  }

  /** The display text has no underscore left, and a text without underscores is
      displayed as it is; so the replacement is idempotent. */
  lemma UnderscoresToSpacesResult(s: string)
    ensures '_' !in UnderscoresToSpaces(s)
    ensures '_' !in s ==> UnderscoresToSpaces(s) == s
    ensures UnderscoresToSpaces(UnderscoresToSpaces(s)) == UnderscoresToSpaces(s)
  {
    var r := UnderscoresToSpaces(s);
    assert forall k :: 0 <= k < |r| ==> r[k] != '_';
  }
}
