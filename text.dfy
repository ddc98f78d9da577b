/**
 * The three string operations the client's search relies on: `trim()`,
 * `toLowerCase()` and `includes()`.
 */
module Text {

  /** The single white-space and line-terminator characters `String.prototype.trim` removes. */
  const SpaceChars: set<char> := {
    '\t', '\n', '\U{000B}', '\U{000C}', '\r', ' ', '\U{00A0}', '\U{1680}',
    '\U{2028}', '\U{2029}', '\U{202F}', '\U{205F}', '\U{3000}', '\U{FEFF}'
  }

  /** The characters `String.prototype.trim` removes: those above and the spaces U+2000 to U+200A. */
  predicate IsWhitespace(c: char)
  {
    c in SpaceChars || ('\U{2000}' <= c <= '\U{200A}')
  }

  function TrimStart(s: string): string
  {
    if |s| > 0 && IsWhitespace(s[0]) then TrimStart(s[1..]) else s
  }

  function TrimEnd(s: string): string
  {
    if |s| > 0 && IsWhitespace(s[|s| - 1]) then TrimEnd(s[..|s| - 1]) else s
  }

  /** `s.trim()`. */
  function Trim(s: string): string
  {
    TrimEnd(TrimStart(s))
  }

  /** Neither end of `s` is white space. */
  predicate IsTrimmed(s: string)
  {
    |s| == 0 || (!IsWhitespace(s[0]) && !IsWhitespace(s[|s| - 1]))
  }

  predicate AllWhitespace(s: string)
  {
    forall i :: 0 <= i < |s| ==> IsWhitespace(s[i])
  }

  /** `toLowerCase()` on one character, for the ASCII letters. */
  function LowerChar(c: char): char
  {
    if 'A' <= c <= 'Z' then ((c as int) + 32) as char else c
  }

  /** `s.toLowerCase()`. */
  function ToLower(s: string): string
  {
    seq(|s|, i requires 0 <= i < |s| => LowerChar(s[i]))
  }

  predicate StartsWith(s: string, prefix: string)
  {
    |prefix| <= |s| && s[..|prefix|] == prefix
  }

  /** `s.includes(part)`. */
  predicate Contains(s: string, part: string)
  {
    StartsWith(s, part) || (|s| > 0 && Contains(s[1..], part))
  }

  // ---------------------------------------------------------------------------

  lemma {:induction false} TrimStartProperties(s: string)
    ensures |TrimStart(s)| <= |s|
    ensures |TrimStart(s)| == 0 || !IsWhitespace(TrimStart(s)[0])
    ensures TrimStart(s) == s[|s| - |TrimStart(s)|..]
    ensures AllWhitespace(s[..|s| - |TrimStart(s)|])
  {
    if |s| > 0 && IsWhitespace(s[0]) {
      var rest := s[1..];
      TrimStartProperties(rest);
      var k := |rest| - |TrimStart(rest)|;
      assert TrimStart(s) == TrimStart(rest);
      assert s[k + 1..] == rest[k..];
      var dropped := s[..k + 1];
      forall i | 0 <= i < |dropped| ensures IsWhitespace(dropped[i]) {
        if i > 0 { assert dropped[i] == rest[..k][i - 1]; }
      }
    }
  }

  lemma {:induction false} TrimEndProperties(s: string)
    ensures |TrimEnd(s)| <= |s|
    ensures |TrimEnd(s)| == 0 || !IsWhitespace(TrimEnd(s)[|TrimEnd(s)| - 1])
    ensures TrimEnd(s) == s[..|TrimEnd(s)|]
    ensures AllWhitespace(s[|TrimEnd(s)|..])
    ensures |TrimEnd(s)| > 0 && !IsWhitespace(s[0]) ==> !IsWhitespace(TrimEnd(s)[0])
  {
    if |s| > 0 && IsWhitespace(s[|s| - 1]) {
      TrimEndProperties(s[..|s| - 1]);
      var k := |TrimEnd(s[..|s| - 1])|;
      assert s[k..] == s[..|s| - 1][k..] + [s[|s| - 1]];
    }
  }

  /** `trim()` leaves no white space at either end, and removes nothing else. */
  lemma TrimProperties(s: string)
    ensures IsTrimmed(Trim(s))
    ensures Trim(s) == [] <==> AllWhitespace(s)
    ensures IsTrimmed(s) ==> Trim(s) == s
    ensures exists i, j :: 0 <= i <= j <= |s| && Trim(s) == s[i..j] && AllWhitespace(s[..i]) && AllWhitespace(s[j..])
  {
    TrimStartProperties(s);
    TrimEndProperties(TrimStart(s));
    var t := TrimStart(s);
    var i := |s| - |t|;
    var j := i + |TrimEnd(t)|;
    assert t == s[i..];
    assert TrimEnd(t) == s[i..j] && s[j..] == t[|TrimEnd(t)|..];
    if IsTrimmed(s) && |s| > 0 {
      assert t == s;
      assert TrimEnd(s) == s;
    }
  }

  lemma LowerCharKeepsWhitespace(c: char)
    ensures IsWhitespace(LowerChar(c)) <==> IsWhitespace(c)
  {
  }

  /** Lower-casing the trimmed query leaves it trimmed and is itself stable. */
  lemma ToLowerOfTrimmed(s: string)
    requires IsTrimmed(s)
    ensures IsTrimmed(ToLower(s))
    ensures ToLower(ToLower(s)) == ToLower(s)
  {
    if |s| > 0 {
      LowerCharKeepsWhitespace(s[0]);
      LowerCharKeepsWhitespace(s[|s| - 1]);
    }
  }
}
