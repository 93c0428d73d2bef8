/** Types and texts that several modules share. */
module Basics {

  datatype Option<+T> = None | Some(value: T)

  /** What ends a C string. */
  const NUL := 0 as char

  function Min(a: int, b: int): int {
    if a < b then a else b
  }

  /** The character at `i`, or the terminator. */
  function CharAt(s: string, i: nat): char {
    if i < |s| then s[i] else NUL
  }

  /** Index of the first `c` at or after `at`, or the end. */
  function IndexOf(s: string, c: char, at: nat): (i: nat)
    requires at <= |s|
    ensures at <= i <= |s| && (i < |s| ==> s[i] == c)
    decreases |s| - at
  {
    if at == |s| || s[at] == c then at else IndexOf(s, c, at + 1)
  }

  predicate Without(s: string, c: char) {
    forall i :: 0 <= i < |s| ==> s[i] != c
  }

  lemma {:induction false} IndexIs(s: string, c: char, at: nat, i: nat)
    requires at <= i < |s| && s[i] == c
    requires forall x :: at <= x < i ==> s[x] != c
    ensures IndexOf(s, c, at) == i
    decreases i - at
  {
    if at < i {
      IndexIs(s, c, at + 1, i);
    }
  }

  lemma {:induction false} NoneBefore(s: string, c: char, at: nat)
    requires at <= |s|
    ensures forall x :: at <= x < IndexOf(s, c, at) ==> s[x] != c
    decreases |s| - at
  {
    if at < |s| && s[at] != c {
      NoneBefore(s, c, at + 1);
    }
  }

  /** The same one is found from anywhere before it. */
  lemma {:induction false} IndexFrom(s: string, c: char, at: nat, mid: nat)
    requires at <= |s| && at <= mid <= IndexOf(s, c, at)
    ensures IndexOf(s, c, mid) == IndexOf(s, c, at)
    decreases mid - at
  {
    if at < mid {
      IndexFrom(s, c, at + 1, mid);
    }
  }

  lemma PieceBefore(s: string, c: char, at: nat)
    requires at <= |s|
    ensures Without(s[at..IndexOf(s, c, at)], c)
  {
    NoneBefore(s, c, at);
  }

  /** What stands behind a `w` without `c` in it, and before a rest, anywhere in a text. */
  lemma FirstIs(s: string, at: nat, w: string, c: char, rest: string)
    requires at <= |s| && s[at..] == w + ([c] + rest) && Without(w, c)
    ensures IndexOf(s, c, at) == at + |w| < |s| && s[at..at + |w|] == w && s[at + |w| + 1..] == rest
  {
    var t := s[at..];
    assert forall x {:trigger s[x]} :: at <= x < at + |w| ==> s[x] == t[x - at] == w[x - at];
    assert s[at + |w|] == t[|w|] == c;
    IndexIs(s, c, at, at + |w|);
    assert s[at + |w| + 1..] == t[|w| + 1..];
  }

  /** A word that the space at `end` ends. */
  predicate WordAt(s: string, at: nat, w: string, end: nat) {
    at <= end < |s| && IndexOf(s, ' ', at) == end && s[at..end] == w
  }

  lemma WordIn(s: string, at: nat, w: string, rest: string) returns (end: nat)
    requires Without(w, ' ') && at <= |s| && s[at..] == w + (" " + rest)
    ensures WordAt(s, at, w, end) && s[end + 1..] == rest
  {
    FirstIs(s, at, w, ' ', rest);
    end := at + |w|;
  }

  lemma {:induction false} NoneFrom(s: string, c: char, at: nat)
    requires at <= |s| && Without(s[at..], c)
    ensures IndexOf(s, c, at) == |s|
    decreases |s| - at
  {
    if at < |s| {
      assert s[at..][0] == s[at] && s[at..][1..] == s[at + 1..];
      NoneFrom(s, c, at + 1);
    }
  }

  method StrChr(s: string, c: char, from: nat) returns (i: nat)
    requires from <= |s|
    ensures i == IndexOf(s, c, from)
  {
    i := from;
    while i < |s| && s[i] != c
      invariant from <= i <= |s| && IndexOf(s, c, i) == IndexOf(s, c, from)
    {
      i := i + 1;
    }
  }
}
