/** Strings as the page sees them, and the trimming that guards the Add action. */
module Text {

  /** The whitespace that trimming strips. This is a simplified table:
      ASCII spaces and line breaks, no-break space, the byte-order mark
      and the line and paragraph separators. */
  predicate IsWhitespace(c: char) {
    c == ' ' || c == '\t' || c == '\n' || c == '\r' || c == '\U{000B}' || c == '\U{000C}'
    || c == '\U{00A0}' || c == '\U{FEFF}' || c == '\U{2028}' || c == '\U{2029}'
  }

  /** Every character of `s` is whitespace. */
  predicate IsBlank(s: string) {
    forall i :: 0 <= i < |s| ==> IsWhitespace(s[i])
  }

  /** The number of whitespace characters at the start of `s`. */
  function LeadingBlanks(s: string): (n: nat)
    ensures n <= |s|
    ensures IsBlank(s[..n])
    ensures n < |s| ==> !IsWhitespace(s[n])
  {
    if s == [] || !IsWhitespace(s[0]) then 0
    else
      var tail := s[1..];
      var m := LeadingBlanks(tail);
      assert s[..m + 1] == [s[0]] + tail[..m];
      m + 1
  }

  /** The number of whitespace characters at the end of `s`. */
  function TrailingBlanks(s: string): (n: nat)
    ensures n <= |s|
    ensures IsBlank(s[|s| - n..])
    ensures n < |s| ==> !IsWhitespace(s[|s| - n - 1])
  {
    if s == [] || !IsWhitespace(s[|s| - 1]) then 0
    else
      var init := s[..|s| - 1];
      var m := TrailingBlanks(init);
      assert s[|s| - (m + 1)..] == init[|init| - m..] + [s[|s| - 1]];
      m + 1
  }

  /** `s` without its leading and trailing whitespace. The result is the
      infix of `s` that starts after the leading whitespace; it is empty
      exactly when `s` is blank, and otherwise it neither starts nor ends
      with whitespace. */
  function Trim(s: string): (r: string)
    ensures LeadingBlanks(s) + |r| <= |s|
    ensures r == [] <==> IsBlank(s)
    ensures r != [] ==> !IsWhitespace(r[0]) && !IsWhitespace(r[|r| - 1])
    ensures r == s[LeadingBlanks(s)..LeadingBlanks(s) + |r|]
    ensures IsBlank(s[..LeadingBlanks(s)]) && IsBlank(s[LeadingBlanks(s) + |r|..])
  {
    var a := LeadingBlanks(s);
    if a == |s| then
      assert s[..a] == s;
      []
    else
      var b := TrailingBlanks(s);
      s[a..|s| - b]
  }

  /** A string that neither starts nor ends with whitespace is its own trim. */
  lemma TrimOfTrimmed(s: string)
    requires s != [] ==> !IsWhitespace(s[0]) && !IsWhitespace(s[|s| - 1])
    ensures Trim(s) == s
  {
  }

  /** Trimming twice is trimming once. */
  lemma TrimIdempotent(s: string)
    ensures Trim(Trim(s)) == Trim(s)
  {
  }
}
