/** IRC case folding, src/irc_string.c. */
module IrcString {
  import opened Basics

  function ToLower(c: char): char {
    if 'A' <= c <= 'Z' then c - 'A' + 'a' else c
  }

  /** `_irc_tolower`: backslash and bar are one letter. */
  function FoldChar(c: char): char {
    if c == '\\' then '|' else ToLower(c)
  }

  function Fold(s: string): (r: string)
    ensures |r| == |s|
    ensures forall i :: 0 <= i < |s| ==> r[i] == FoldChar(s[i])
  {
    seq(|s|, i requires 0 <= i < |s| => FoldChar(s[i]))
  }

  function Lower(s: string): (r: string)
    ensures |r| == |s|
  {
    seq(|s|, i requires 0 <= i < |s| => ToLower(s[i]))
  }

  /** Two characters are the same to IRC exactly if they are equal, a letter in its two cases, or
      backslash and bar. */
  lemma SameLetter(a: char, b: char)
    ensures FoldChar(a) == FoldChar(b) <==>
              a == b || (a in "\\|" && b in "\\|") || Cases(a, b) || Cases(b, a)
  {
  }

  predicate Cases(upper: char, lower: char) {
    'A' <= upper <= 'Z' && lower as int == upper as int + 32
  }

  /** A C string holds no NUL before its terminator. */
  predicate CString(s: string) {
    Without(s, NUL)
  }

  /** `irc_strcasecmp`: zero exactly for strings that fold to the same text. */
  method IrcStrCaseCmp(s1: string, s2: string) returns (r: int)
    requires CString(s1) && CString(s2)
    ensures r == 0 <==> Fold(s1) == Fold(s2)
  {
    var i := 0;
    while FoldChar(CharAt(s1, i)) == FoldChar(CharAt(s2, i))
      invariant i <= |s1| && i <= |s2|
      invariant forall k :: 0 <= k < i ==> FoldChar(s1[k]) == FoldChar(s2[k])
      decreases |s1| - i
    {
      if CharAt(s1, i) == NUL {
        assert i == |s1| && i == |s2|;
        return 0;
      }
      i := i + 1;
    }
    assert |s1| == |s2| ==> Fold(s1)[i] != Fold(s2)[i];
    return FoldChar(CharAt(s1, i)) as int - FoldChar(CharAt(s2, i)) as int;
  }
}
