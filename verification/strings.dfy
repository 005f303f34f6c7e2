/**
 * Go's strings.TrimSpace, as the catalogue's validator uses it.
 *
 * A Go string is a byte sequence; here a string is a sequence of Unicode
 * code points, which is what TrimSpace decodes it into before testing.
 */
module Strings {

  /** The white-space characters of Go's unicode.IsSpace: the six ASCII
      spaces, NEL, NO-BREAK SPACE and the other Unicode White_Space code points. */
  predicate IsSpace(c: char) {
    var n := c as int;
    n == 0x09 || n == 0x0A || n == 0x0B || n == 0x0C || n == 0x0D || n == 0x20
    || n == 0x85 || n == 0xA0 || n == 0x1680 || (0x2000 <= n <= 0x200A)
    || n == 0x2028 || n == 0x2029 || n == 0x202F || n == 0x205F || n == 0x3000
  }

  /** A string is blank when every one of its characters is white space
      (the empty string included). */
  predicate IsBlank(s: string) {
    forall i :: 0 <= i < |s| ==> IsSpace(s[i])
  }

  /** The number of white-space characters `s` starts with. */
  function LeadingSpaces(s: string): (k: nat)
    ensures k <= |s|
    ensures forall i :: 0 <= i < k ==> IsSpace(s[i])
    ensures k == |s| || !IsSpace(s[k])
  {
    if |s| > 0 && IsSpace(s[0]) then 1 + LeadingSpaces(s[1..]) else 0
  }

  /** The index at which the white space that `s` ends with begins. */
  function TrailingStart(s: string): (k: nat)
    ensures k <= |s|
    ensures forall i :: k <= i < |s| ==> IsSpace(s[i])
    ensures k == 0 || !IsSpace(s[k - 1])
  {
    if |s| > 0 && IsSpace(s[|s| - 1]) then TrailingStart(s[..|s| - 1]) else |s|
  }

  /** strings.TrimSpace: the string without its leading and trailing white
      space. The result is empty exactly when the whole string is blank, and
      otherwise neither starts nor ends with white space; TrimSpaceStripsEnds
      shows that only blank ends were removed. */
  function TrimSpace(s: string): (r: string)
    ensures r == [] <==> IsBlank(s)
    ensures r == [] || (!IsSpace(r[0]) && !IsSpace(r[|r| - 1]))
    ensures |r| <= |s|
  {
    var rest := s[LeadingSpaces(s)..];
    rest[..TrailingStart(rest)]
  }

  /** Only white space is removed, and only at the ends: the trimmed string
      is the slice of `s` that starts after its leading white space, and every
      character of `s` before or after that slice is white space. */
  lemma TrimSpaceStripsEnds(s: string)
    ensures var r, k := TrimSpace(s), LeadingSpaces(s);
            && k + |r| <= |s|
            && (forall i :: 0 <= i < |r| ==> r[i] == s[k + i])
            && (forall i :: 0 <= i < |s| && !(k <= i < k + |r|) ==> IsSpace(s[i]))
  {
    var k := LeadingSpaces(s);
    var rest := s[k..];
    var e := TrailingStart(rest);
    assert TrimSpace(s) == rest[..e];
    forall i | k + e <= i < |s|
      ensures IsSpace(s[i])
    {
      assert s[i] == rest[i - k];
    }
  }
}
