/** strings.TrimSpace: leading and trailing white space removed, where white
    space is what unicode.IsSpace accepts. */
module Whitespace {

  /** unicode.IsSpace: the Latin-1 spaces '\t', '\n', '\v', '\f', '\r', ' ',
      U+0085 and U+00A0, and the other characters with the White_Space
      property. */
  predicate IsSpace(c: char)
  {
    c == '\t' || c == '\n' || c == '\U{000B}' || c == '\U{000C}' || c == '\r' || c == ' '
    || c == '\U{0085}' || c == '\U{00A0}' || c == '\U{1680}'
    || ('\U{2000}' <= c <= '\U{200A}')
    || c == '\U{2028}' || c == '\U{2029}' || c == '\U{202F}' || c == '\U{205F}' || c == '\U{3000}'
  }

  predicate AllSpace(s: string)
  {
    forall i :: 0 <= i < |s| ==> IsSpace(s[i])
  }

  /** The number of white-space characters at the front of s. */
  function LeadingSpace(s: string): (n: nat)
    ensures n <= |s|
    ensures AllSpace(s[..n])
    ensures n < |s| ==> !IsSpace(s[n])
  {
    if s == [] || !IsSpace(s[0]) then 0
    else
      var n := 1 + LeadingSpace(s[1..]);
      assert s[..n] == [s[0]] + s[1..][..n - 1];
      n
  }

  /** The number of white-space characters at the end of s. */
  function TrailingSpace(s: string): (n: nat)
    ensures n <= |s|
    ensures AllSpace(s[|s| - n..])
    ensures n < |s| ==> !IsSpace(s[|s| - n - 1])
  {
    if s == [] || !IsSpace(s[|s| - 1]) then 0
    else
      var init := s[..|s| - 1];
      var n := 1 + TrailingSpace(init);
      assert s[|s| - n..] == init[|init| - (n - 1)..] + [s[|s| - 1]];
      n
  }

  /** strings.TrimSpace(s): the middle of s left once white space is dropped
      from both ends; it neither starts nor ends with white space, and what was
      dropped is all white space. */
  function TrimSpace(s: string): (t: string)
    ensures |t| <= |s|
    ensures t != [] ==> !IsSpace(t[0]) && !IsSpace(t[|t| - 1])
  {
    var i := LeadingSpace(s);
    var rest := s[i..];
    var k := TrailingSpace(rest);
    assert k < |rest| ==> rest[0] == s[i];
    s[i..i + |rest| - k]
  }

  /** What TrimSpace drops from either end is all white space. */
  lemma TrimSpaceIsMiddle(s: string)
    ensures exists i, j :: 0 <= i <= j <= |s| && TrimSpace(s) == s[i..j] && AllSpace(s[..i]) && AllSpace(s[j..])
  {
    hide AllSpace, IsSpace;
    var i := LeadingSpace(s);
    var rest := s[i..];
    var k := TrailingSpace(rest);
    var j := i + |rest| - k;
    assert TrimSpace(s) == s[i..j];
    assert AllSpace(s[..i]);
    assert s[j..] == rest[|rest| - k..];
    assert AllSpace(s[j..]);
  }

  /** A string trims to "" exactly when it is all white space. */
  lemma TrimSpaceEmpty(s: string)
    ensures TrimSpace(s) == [] <==> AllSpace(s)
  {
  }

  /** Trimming twice trims nothing more. */
  lemma TrimSpaceIdempotent(s: string)
    ensures TrimSpace(TrimSpace(s)) == TrimSpace(s)
  {
    var t := TrimSpace(s);
    if t != [] {
      assert LeadingSpace(t) == 0;
      assert TrailingSpace(t) == 0;
      assert t[0..|t|] == t;
    }
  }
}
