/** The nickname generator of src/irc_client.c (`ircclient_generate_nick`). */
module NickGenerator {

  const FALLBACK_NICKNAME := "dircproxy"
  const NICK_LENGTH := 9

  function Successor(c: char): char {
    if c == '-' then '0'
    else if '0' <= c < '9' then c + 1 as char
    else if c == '9' then '_'
    else '-'
  }

  /** How many of the last characters are already `_`. */
  function Trailing(nick: string): (n: nat)
    ensures n <= |nick|
    ensures n < |nick| ==> nick[|nick| - 1 - n] != '_'
    ensures forall i :: |nick| - n <= i < |nick| ==> nick[i] == '_'
  {
    if nick == "" || nick[|nick| - 1] != '_' then 0 else 1 + Trailing(nick[..|nick| - 1])
  }

  function NextNick(tried: string): string {
    if |tried| < NICK_LENGTH then tried + "-"
    else
      var n := Trailing(tried);
      if n == |tried| then FALLBACK_NICKNAME
      else tried[|tried| - 1 - n := Successor(tried[|tried| - 1 - n])]
  }

  /** `ircclient_generate_nick`, on its character buffer. */
  method GenerateNick(tried: string) returns (nick: string)
    ensures nick == NextNick(tried)
  {
    var buf := new char[|tried| + 2];
    for i := 0 to |tried|
      invariant forall k :: 0 <= k < i ==> buf[k] == tried[k]
    {
      buf[i] := tried[i];
    }
    var c := |tried| - 1;
    if |tried| < NICK_LENGTH {
      c := c + 1;
      buf[c] := '-';
      assert buf[..c + 1] == tried + "-";
      return buf[..c + 1];
    }
    while c >= 0
      invariant -1 <= c < |tried| && buf[..|tried|] == tried
      invariant forall k :: c < k < |tried| ==> tried[k] == '_'
    {
      if buf[c] == '-' {
        buf[c] := '0';
        break;
      } else if '0' <= buf[c] < '9' {
        buf[c] := buf[c] + 1 as char;
        break;
      } else if buf[c] == '9' {
        buf[c] := '_';
        break;
      } else if buf[c] == '_' {
        c := c - 1;
      } else {
        buf[c] := '-';
        break;
      }
    }
    if c < 0 {
      TrailingIs(tried, |tried|);
      return FALLBACK_NICKNAME;
    }
    TrailingIs(tried, |tried| - 1 - c);
    assert buf[..|tried|] == tried[c := Successor(tried[c])];
    return buf[..|tried|];
  }

  lemma TrailingIs(nick: string, n: nat)
    requires n <= |nick| && forall i :: |nick| - n <= i < |nick| ==> nick[i] == '_'
    requires n < |nick| ==> nick[|nick| - 1 - n] != '_'
    ensures Trailing(nick) == n
  {
  }

  // ---- progress ----

  /** other < '-' < '0' .. '9' < '_' */
  function Rank(c: char): nat {
    if c == '-' then 1
    else if '0' <= c <= '9' then 2 + (c as nat - '0' as nat)
    else if c == '_' then 12
    else 0
  }

  function RankSum(s: string): nat {
    if s == "" then 0 else RankSum(s[..|s| - 1]) + Rank(s[|s| - 1])
  }

  lemma {:induction false} RankSumUpdate(s: string, i: nat, c: char)
    requires i < |s|
    ensures RankSum(s[i := c]) == RankSum(s) - Rank(s[i]) + Rank(c)
  {
    var n := |s| - 1;
    if i == n {
      assert s[i := c][..n] == s[..n];
    } else {
      RankSumUpdate(s[..n], i, c);
      assert s[i := c][..n] == s[..n][i := c];
    }
  }

  lemma {:induction false} RankSumBound(s: string)
    ensures RankSum(s) <= 12 * |s|
    ensures RankSum(s) == 12 * |s| <==> Trailing(s) == |s|
  {
    if s != "" {
      RankSumBound(s[..|s| - 1]);
    }
  }

  predicate Exhausted(nick: string) {
    |nick| >= NICK_LENGTH && Trailing(nick) == |nick|
  }

  /** Every step but the fallback raises the rank sum by exactly one and never makes
      the nickname shorter. */
  lemma StepRaises(tried: string)
    requires !Exhausted(tried)
    ensures RankSum(NextNick(tried)) == RankSum(tried) + 1
    ensures |NextNick(tried)| == if |tried| < NICK_LENGTH then |tried| + 1 else |tried|
  {
    if |tried| < NICK_LENGTH {
      assert (tried + "-")[..|tried|] == tried;
    } else {
      var i := |tried| - 1 - Trailing(tried);
      RankSumUpdate(tried, i, Successor(tried[i]));
    }
  }

  /** The last character that is not yet `_`. */
  predicate LastOpen(nick: string, i: nat) {
    i < |nick| && nick[i] != '_' && forall j :: i < j < |nick| ==> nick[j] == '_'
  }

  /** Which character a step changes: in a nickname of full length the last that is not yet
      `_`, which becomes the one of next higher rank; a shorter one is kept and gets one
      character more. Only a full nickname of nothing but `_` is replaced. */
  lemma StepChangesOne(tried: string, i: nat)
    requires LastOpen(tried, i) || |tried| < NICK_LENGTH
    ensures var next := NextNick(tried);
            if |tried| < NICK_LENGTH then |next| == |tried| + 1 && tried <= next && Rank(next[|tried|]) == 1
            else |next| == |tried| && next == tried[i := next[i]] && Rank(next[i]) == Rank(tried[i]) + 1
  {
    if |tried| >= NICK_LENGTH {
      TrailingIs(tried, |tried| - 1 - i);
    }
  }

  function Nth(start: string, n: nat): string {
    if n == 0 then start else NextNick(Nth(start, n - 1))
  }

  function StepsToFallback(start: string): (n: int) {
    12 * (if |start| < NICK_LENGTH then NICK_LENGTH else |start|) - RankSum(start)
  }

  /** Up to the moment everything is `_` the n-th candidate has exactly n more rank
      than the first, and that moment comes after exactly `StepsToFallback` steps. */
  lemma {:induction false} Climbs(start: string, n: nat)
    requires n <= StepsToFallback(start)
    ensures RankSum(Nth(start, n)) == RankSum(start) + n
    ensures |start| < NICK_LENGTH || |Nth(start, n)| == |start|
    ensures StepsToFallback(Nth(start, n)) == StepsToFallback(start) - n
    ensures Exhausted(Nth(start, n)) <==> n == StepsToFallback(start)
  {
    if n > 0 {
      Climbs(start, n - 1);
      StepRaises(Nth(start, n - 1));
    }
    RankSumBound(Nth(start, n));
  }

  /** The fallback comes after exactly 12*length - ranksum + 1 steps (9 for the length
      of a shorter start), and no candidate before it repeats. */
  lemma FallbackAfter(start: string)
    ensures StepsToFallback(start) >= 0
    ensures Nth(start, StepsToFallback(start) + 1) == FALLBACK_NICKNAME
    ensures forall i: nat, j: nat :: i < j <= StepsToFallback(start) ==> Nth(start, i) != Nth(start, j)
    ensures forall i: nat :: i < StepsToFallback(start) ==> !Exhausted(Nth(start, i))
  {
    RankSumBound(start);
    Climbs(start, StepsToFallback(start));
    forall i: nat, j: nat | i < j <= StepsToFallback(start) ensures Nth(start, i) != Nth(start, j) {
      Climbs(start, i);
      Climbs(start, j);
    }
    forall i: nat | i < StepsToFallback(start) ensures !Exhausted(Nth(start, i)) {
      Climbs(start, i);
    }
  }

  lemma FallbackRank()
    ensures RankSum(FALLBACK_NICKNAME) == 0
  {
    var f := FALLBACK_NICKNAME;
    assert f[..8] == "dircprox" && f[..8][..7] == "dircpro" && f[..8][..7][..6] == "dircpr";
    assert "dircpr"[..5] == "dircp" && "dircp"[..4] == "dirc" && "dirc"[..3] == "dir";
    assert "dir"[..2] == "di" && "di"[..1] == "d";
    assert RankSum("d") == 0 && RankSum("di") == 0 && RankSum("dir") == 0 && RankSum("dirc") == 0;
    assert RankSum("dircp") == 0 && RankSum("dircpr") == 0 && RankSum("dircpro") == 0 && RankSum("dircprox") == 0;
  }

  /** From the fallback name the generator has period exactly 109. */
  lemma {:induction false} PeriodOfFallback(n: nat)
    ensures Nth(FALLBACK_NICKNAME, n + 109) == Nth(FALLBACK_NICKNAME, n)
    ensures 0 < n < 109 ==> Nth(FALLBACK_NICKNAME, n) != FALLBACK_NICKNAME
  {
    FallbackRank();
    FallbackAfter(FALLBACK_NICKNAME);
    assert StepsToFallback(FALLBACK_NICKNAME) == 108;
    if n > 0 {
      PeriodOfFallback(n - 1);
      assert Nth(FALLBACK_NICKNAME, 0) == FALLBACK_NICKNAME;
    }
  }
}
