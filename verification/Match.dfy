/** Wildcard masks, src/match.c. */
module Match {
  import opened IrcString

  // ---- what a mask is meant to say ----

  /** `*` stands for any run of characters and `?` for any one. */
  predicate Glob(s: string, m: string)
    decreases |s| + |m|
  {
    if m == "" then s == ""
    else if m[0] == '*' then Glob(s, m[1..]) || (s != "" && Glob(s[1..], m))
    else s != "" && One(m[0], s[0]) && Glob(s[1..], m[1..])
  }

  predicate One(m: char, c: char) {
    m == c || m == '?'
  }

  // ---- what the code says ----

  function AfterStar(m: string): string {
    if m != "" && m[0] == '*' then m[1..] else m
  }

  /** The answer of `strmatch` from a state of its loop. */
  predicate Accepts(s: string, m: string, instar: bool)
    decreases |s|, |m|, instar
  {
    if s == "" then m == "" || m[0] == '*'
    else
      var star, rest := instar || (m != "" && m[0] == '*'), AfterStar(m);
      if rest != "" && One(rest[0], s[0]) then
        if star then Accepts(s, rest, false) || Accepts(s[1..], rest, true)
        else Accepts(s[1..], rest[1..], false)
      else star && Accepts(s[1..], rest, true)
  }

  /** `strmatch` */
  method StrMatch(str: string, mask: string) returns (b: bool)
    ensures b == Accepts(str, mask, false)
    decreases |str|, |mask|
  {
    var s, m, instar := str, mask, false;
    while s != ""
      invariant |s| <= |str| && |m| <= |mask| && (instar ==> |m| < |mask|)
      invariant Accepts(str, mask, false) == Accepts(s, m, instar)
      decreases |s|
    {
      if m != "" && m[0] == '*' {
        instar := true;
        m := m[1..];
      }
      if m != "" && One(m[0], s[0]) {
        if instar {
          var found := StrMatch(s, m);
          if found {
            return true;
          }
        }
      } else if !instar {
        return false;
      }
      s := s[1..];
      if !instar {
        m := m[1..];
        if m == "" && s != "" {
          return false;
        }
      }
    }
    return !(m != "" && m[0] != '*');
  }

  /** `strcasematch` */
  predicate CaseMatches(s: string, m: string) {
    Accepts(Lower(s), Lower(m), false)
  }

  // ---- masks without adjacent stars ----

  predicate NoAdjacentStars(m: string) {
    forall i :: 0 <= i < |m| - 1 ==> !(m[i] == '*' && m[i + 1] == '*')
  }

  /** Like `Glob`, but a string that runs out exactly at a star is accepted whatever
      the rest of the mask asks for; a star that has begun must still find its rest. */
  ghost predicate Variant(s: string, m: string)
    decreases |m|, 0
  {
    if m == "" then s == ""
    else if m[0] == '*' then s == "" || m[1..] == "" || FoundLater(s, m[1..])
    else s != "" && One(m[0], s[0]) && Variant(s[1..], m[1..])
  }

  ghost predicate FoundLater(s: string, m: string)
    decreases |m|, 1
  {
    exists k :: 0 <= k < |s| && Variant(s[k..], m)
  }

  lemma FoundLaterStep(s: string, m: string)
    requires s != ""
    ensures FoundLater(s, m) <==> Variant(s, m) || FoundLater(s[1..], m)
  {
    if FoundLater(s, m) && !Variant(s, m) {
      var k :| 0 <= k < |s| && Variant(s[k..], m);
      assert k > 0 by { assert s[0..] == s; }
      assert s[k..] == s[1..][k - 1..];
    }
    if Variant(s, m) {
      assert s[0..] == s;
    }
    if FoundLater(s[1..], m) {
      var k :| 0 <= k < |s[1..]| && Variant(s[1..][k..], m);
      assert s[k + 1..] == s[1..][k..];
    }
  }

  /** On every mask without adjacent stars the code is exactly the variant relation,
      and inside a star it looks for the rest of the mask at some later character. */
  lemma {:induction false} CodeIsVariant(s: string, m: string)
    requires NoAdjacentStars(m)
    ensures Accepts(s, m, false) == Variant(s, m)
    ensures m == "" || m[0] != '*' ==> Accepts(s, m, true) == (m == "" || FoundLater(s, m))
    decreases |s|, |m|
  {
    if s != "" {
      if m == "" {
        CodeIsVariant(s[1..], m);
      } else if m[0] == '*' {
        CodeIsVariant(s, m[1..]);
        CodeIsVariant(s[1..], m[1..]);
        FoundLaterStep(s, m[1..]);
      } else {
        CodeIsVariant(s[1..], m[1..]);
        CodeIsVariant(s[1..], m);
        FoundLaterStep(s, m);
        if !One(m[0], s[0]) {
          assert !Variant(s, m);
        }
      }
    }
  }

  /** Completeness: without adjacent stars nothing a glob accepts is refused. */
  lemma {:induction false} Complete(s: string, m: string)
    requires NoAdjacentStars(m) && Glob(s, m)
    ensures Accepts(s, m, false)
  {
    GlobIsVariant(s, m);
    CodeIsVariant(s, m);
  }

  lemma {:induction false} GlobIsVariant(s: string, m: string)
    requires NoAdjacentStars(m) && Glob(s, m)
    ensures Variant(s, m)
    decreases |s| + |m|
  {
    if m != "" {
      if m[0] == '*' {
        if s != "" && m[1..] != "" {
          FoundLaterStep(s, m[1..]);
          if Glob(s, m[1..]) {
            GlobIsVariant(s, m[1..]);
          } else {
            GlobIsVariant(s[1..], m);
            if s[1..] == "" {
              EmptyGlob(m);
            }
          }
        }
      } else {
        GlobIsVariant(s[1..], m[1..]);
      }
    }
  }

  lemma {:induction false} EmptyGlob(m: string)
    requires Glob("", m)
    ensures forall i :: 0 <= i < |m| ==> m[i] == '*'
  {
    if m != "" {
      EmptyGlob(m[1..]);
      assert forall i :: 1 <= i < |m| ==> m[i] == m[1..][i - 1];
    }
  }

  // ---- any mask ----

  /** How many stars the mask begins with. */
  function Stars(m: string): (k: nat)
    ensures k <= |m|
  {
    if m == "" || m[0] != '*' then 0 else 1 + Stars(m[1..])
  }

  /** How many characters a run of stars eats before its rest may begin: one for each star
      after the first, but none from a `*` in the string on. */
  function Eaten(s: string, j: nat): (n: nat)
    ensures n <= j && n <= |s|
  {
    if j == 0 || s == "" || s[0] == '*' then 0 else 1 + Eaten(s[1..], j - 1)
  }

  /** What the code decides on any mask: a run of k stars accepts every string shorter than
      k, and otherwise its rest must begin behind the characters it eats. */
  ghost predicate Runs(s: string, m: string)
    decreases |m|, 0
  {
    var k := Stars(m);
    if m == "" then s == ""
    else if k == 0 then s != "" && One(m[0], s[0]) && Runs(s[1..], m[1..])
    else |s| < k || m[k..] == "" || BeginsLater(s, m[k..], Eaten(s, k - 1))
  }

  ghost predicate BeginsLater(s: string, r: string, from: nat)
    decreases |r|, 1
  {
    exists q :: from <= q < |s| && Runs(s[q..], r)
  }

  lemma BeginsOneOn(s: string, r: string, from: nat)
    requires s != ""
    ensures BeginsLater(s, r, from + 1) <==> BeginsLater(s[1..], r, from)
  {
    if BeginsLater(s, r, from + 1) {
      var q :| from + 1 <= q < |s| && Runs(s[q..], r);
      assert s[q..] == s[1..][q - 1..];
    }
    if BeginsLater(s[1..], r, from) {
      var q :| from <= q < |s[1..]| && Runs(s[1..][q..], r);
      assert s[q + 1..] == s[1..][q..];
    }
  }

  lemma BeginsHere(s: string, r: string)
    requires s != ""
    ensures BeginsLater(s, r, 0) <==> Runs(s, r) || BeginsLater(s, r, 1)
  {
    assert s[0..] == s;
  }

  lemma BeginsEarlier(s: string, r: string, from: nat)
    requires BeginsLater(s, r, from)
    ensures BeginsLater(s, r, 0)
  {
    var q :| from <= q < |s| && Runs(s[q..], r);
  }

  lemma StarsOff(m: string)
    requires Stars(m) > 0
    ensures m[0] == '*' && Stars(m[1..]) == Stars(m) - 1
    ensures m[1..][Stars(m) - 1..] == m[Stars(m)..]
    ensures Stars(m[Stars(m)..]) == 0
  {
    if Stars(m) > 1 {
      StarsOff(m[1..]);
    }
  }

  /** The law of the code, for every string and every mask. */
  lemma {:induction false} CodeIsRuns(s: string, m: string)
    ensures Accepts(s, m, false) == Runs(s, m)
    ensures Accepts(s, m, true) == if m != "" && m[0] == '*' then Runs(s, m) else m == "" || BeginsLater(s, m, 0)
    decreases |s|, |m|
  {
    if s != "" {
      if m == "" {
        CodeIsRuns(s[1..], m);
      } else if m[0] == '*' {
        CodeIsRuns(s, m[1..]);
        CodeIsRuns(s[1..], m[1..]);
        RunsStep(s, m);
      } else {
        CodeIsRuns(s[1..], m[1..]);
        CodeIsRuns(s[1..], m);
        BeginsHere(s, m);
        BeginsOneOn(s, m, 0);
      }
    }
  }

  /** One turn of the loop at a run of stars. */
  lemma RunsStep(s: string, m: string)
    requires s != "" && m != "" && m[0] == '*'
    ensures var rest := m[1..];
            var later := if rest != "" && rest[0] == '*' then Runs(s[1..], rest)
                         else rest == "" || BeginsLater(s[1..], rest, 0);
            Runs(s, m) <==> (rest != "" && One(rest[0], s[0]) && Runs(s, rest)) || later
  {
    StarsOff(m);
    if Stars(m) == 1 {
      LastStar(s, m[1..], m);
    } else {
      StarsOff(m[1..]);
      InnerStar(s, m[1..], m);
    }
  }

  lemma LastStar(s: string, r: string, m: string)
    requires s != "" && m != "" && Stars(m) == 1 && r == m[1..] && Stars(r) == 0
    ensures Runs(s, m) <==> (r != "" && One(r[0], s[0]) && Runs(s, r)) || r == "" || BeginsLater(s[1..], r, 0)
  {
    if r != "" {
      BeginsOneOn(s, r, 0);
      BeginsHere(s, r);
    }
  }

  lemma InnerStar(s: string, rest: string, m: string)
    requires s != "" && m != "" && Stars(rest) > 0 && rest == m[1..] && Stars(m) == Stars(rest) + 1
    requires m[Stars(m)..] == rest[Stars(rest)..] && rest[0] == '*'
    ensures Runs(s, m) <==> (One(rest[0], s[0]) && Runs(s, rest)) || Runs(s[1..], rest)
  {
    var j, r := Stars(rest), rest[Stars(rest)..];
    RunsAtStars(s, m, j + 1, r);
    RunsAtStars(s, rest, j, r);
    RunsAtStars(s[1..], rest, j, r);
    RunTurn(s, j, r);
  }

  /** What k stars before r decide. */
  ghost predicate AtRun(s: string, k: nat, r: string)
    requires k > 0
  {
    |s| < k || r == "" || BeginsLater(s, r, Eaten(s, k - 1))
  }

  lemma RunsAtStars(s: string, m: string, k: nat, r: string)
    requires m != "" && k == Stars(m) > 0 && r == m[k..]
    ensures Runs(s, m) <==> AtRun(s, k, r)
  {
  }

  lemma RunTurn(s: string, k: nat, r: string)
    requires s != "" && k > 0
    ensures AtRun(s, k + 1, r) <==> (One('*', s[0]) && AtRun(s, k, r)) || AtRun(s[1..], k, r)
  {
    OneStarOn(s, r, Eaten(s[1..], k - 1));
  }

  /** One star more eats one character more, unless it stands in the string. */
  lemma OneStarOn(s: string, r: string, n: nat)
    requires s != ""
    ensures BeginsLater(s, r, n + 1) <==> BeginsLater(s[1..], r, n)
    ensures BeginsLater(s[1..], r, n) ==> BeginsLater(s[1..], r, 0)
  {
    BeginsOneOn(s, r, n);
    if BeginsLater(s[1..], r, n) {
      BeginsEarlier(s[1..], r, n);
    }
  }

  function Run(k: nat): (m: string)
    ensures |m| == k && forall i :: 0 <= i < k ==> m[i] == '*'
  {
    seq(k, _ => '*')
  }

  lemma {:induction false} StarsOfRun(k: nat, r: string)
    requires r == "" || r[0] != '*'
    ensures Stars(Run(k) + r) == k && (Run(k) + r)[k..] == r
  {
    if k > 0 {
      assert (Run(k) + r)[1..] == Run(k - 1) + r;
      StarsOfRun(k - 1, r);
    }
  }

  lemma RunsOfRun(s: string, k: nat, r: string)
    requires k > 0 && (r == "" || r[0] != '*')
    ensures Runs(s, Run(k) + r) <==> |s| < k || r == "" || BeginsLater(s, r, Eaten(s, k - 1))
  {
    StarsOfRun(k, r);
  }

  lemma RunsOfOne(s: string, r: string)
    requires r == "" || r[0] != '*'
    ensures Runs(s, "*" + r) <==> s == "" || r == "" || BeginsLater(s, r, 0)
  {
    assert Run(1) + r == "*" + r;
    RunsOfRun(s, 1, r);
  }

  /** A run of k stars is one star that comes into force only behind the characters the
      other k - 1 eat, and accepts at once a string too short for that. */
  lemma StarRunLaw(s: string, k: nat, r: string)
    requires k > 0 && (r == "" || r[0] != '*')
    ensures Accepts(s, Run(k) + r, false) <==>
            |s| < k || Accepts(s[Eaten(s, k - 1)..], "*" + r, false)
  {
    var n := Eaten(s, k - 1);
    CodeIsRuns(s, Run(k) + r);
    CodeIsRuns(s[n..], "*" + r);
    RunsOfRun(s, k, r);
    RunsOfOne(s[n..], r);
    Behind(s, r, n);
  }

  lemma Behind(s: string, r: string, n: nat)
    requires n <= |s|
    ensures BeginsLater(s, r, n) <==> BeginsLater(s[n..], r, 0)
  {
    if BeginsLater(s, r, n) {
      var q :| n <= q < |s| && Runs(s[q..], r);
      assert s[q..] == s[n..][q - n..];
    }
    if BeginsLater(s[n..], r, 0) {
      var q :| 0 <= q < |s[n..]| && Runs(s[n..][q..], r);
      assert s[n + q..] == s[n..][q..];
    }
  }

  // ---- when a mask with one run of stars is complete ----

  /** Nothing a glob accepts is refused. */
  ghost predicate NothingRefused(m: string) {
    forall s :: Glob(s, m) ==> Accepts(s, m, false)
  }

  predicate StarFree(m: string) {
    forall i :: 0 <= i < |m| ==> m[i] != '*'
  }

  lemma {:induction false} StarFreeExact(s: string, r: string)
    requires StarFree(r) && (Runs(s, r) || Glob(s, r))
    ensures |s| == |r| && Runs(s, r) && Glob(s, r)
  {
    if r != "" {
      assert Stars(r) == 0;
      assert forall i :: 0 <= i < |r[1..]| ==> r[1..][i] == r[i + 1];
      StarFreeExact(s[1..], r[1..]);
    }
  }

  /** A part without stars in front takes its own length off the string, in the code and
      in the glob alike. */
  lemma {:induction false} StarFreeFront(s: string, a: string, m: string)
    requires StarFree(a)
    ensures Runs(s, a + m) ==> |a| <= |s| && Runs(s[|a|..], m) && Fits(s, a)
    ensures Glob(s, a + m) ==> |a| <= |s| && Glob(s[|a|..], m) && Fits(s, a)
    ensures |a| <= |s| && Fits(s, a) && Runs(s[|a|..], m) ==> Runs(s, a + m)
    ensures |a| <= |s| && Fits(s, a) && Glob(s[|a|..], m) ==> Glob(s, a + m)
    decreases |a|
  {
    if a == "" {
      assert a + m == m && s[0..] == s;
    } else {
      var b := a[1..];
      assert (a + m)[1..] == b + m && Stars(a + m) == 0;
      assert StarFree(b) by {
        assert forall i :: 0 <= i < |b| ==> b[i] == a[i + 1];
      }
      if s != "" {
        StarFreeFront(s[1..], b, m);
        FitsTail(s, a);
        if |a| <= |s| {
          assert s[1..][|b|..] == s[|a|..];
        }
      }
    }
  }

  predicate Fits(s: string, a: string) {
    |a| <= |s| && forall i :: 0 <= i < |a| ==> One(a[i], s[i])
  }

  lemma FitsTail(s: string, a: string)
    requires s != "" && a != ""
    ensures Fits(s, a) <==> One(a[0], s[0]) && Fits(s[1..], a[1..])
  {
    if Fits(s[1..], a[1..]) && One(a[0], s[0]) {
      forall i | 0 <= i < |a| ensures One(a[i], s[i]) {
        if i > 0 {
          assert a[1..][i - 1] == a[i] && s[1..][i - 1] == s[i];
        }
      }
    }
  }

  /** The end of the string is what the rest globs. */
  predicate EndGlobs(s: string, r: string) {
    |r| <= |s| && Glob(s[|s| - |r|..], r)
  }

  /** A run of stars globs exactly what ends in its rest. */
  lemma {:induction false} RunGlob(s: string, k: nat, r: string)
    requires k > 0 && StarFree(r)
    ensures Glob(s, Run(k) + r) <==> EndGlobs(s, r)
    decreases |s| + k
  {
    if k > 1 {
      RunGlob(s, k - 1, r);
    } else {
      NoStarGlob(s, r);
    }
    if s != "" {
      RunGlob(s[1..], k, r);
      EndOfTail(s, r);
    }
    GlobOfRun(s, k, r);
  }

  lemma GlobOfRun(s: string, k: nat, r: string)
    requires k > 0
    ensures Glob(s, Run(k) + r) <==> Glob(s, Run(k - 1) + r) || (s != "" && Glob(s[1..], Run(k) + r))
  {
    assert (Run(k) + r)[1..] == Run(k - 1) + r;
  }

  lemma NoStarGlob(s: string, r: string)
    requires StarFree(r)
    ensures Glob(s, Run(0) + r) <==> |r| == |s| && EndGlobs(s, r)
  {
    assert Run(0) + r == r && s[0..] == s;
    if Glob(s, r) {
      StarFreeExact(s, r);
    }
  }

  lemma EndOfTail(s: string, r: string)
    requires s != ""
    ensures EndGlobs(s[1..], r) <==> |r| < |s| && EndGlobs(s, r)
  {
    if |r| < |s| {
      assert s[1..][|s[1..]| - |r|..] == s[|s| - |r|..];
    }
  }

  /** The shortest refused string that a glob accepts: the rest itself, filled up in front
      to the number of stars. */
  function Refused(k: nat, r: string): (s: string)
    ensures |s| >= k && |s| >= |r| && (|s| == k || |s| == |r|) && s[|s| - |r|..] == r
    ensures StarFree(r) ==> StarFree(s)
  {
    seq(if k > |r| then k - |r| else 0, _ => 'x') + r
  }

  lemma {:induction false} EatenAll(s: string, j: nat)
    requires StarFree(s) && j <= |s|
    ensures Eaten(s, j) == j
  {
    if j > 0 {
      assert forall i :: 0 <= i < |s[1..]| ==> s[1..][i] == s[i + 1];
      EatenAll(s[1..], j - 1);
    }
  }

  lemma {:induction false} GlobSelf(r: string)
    ensures StarFree(r) ==> Glob(r, r)
  {
    if r != "" && StarFree(r) {
      assert forall i :: 0 <= i < |r[1..]| ==> r[1..][i] == r[i + 1];
      GlobSelf(r[1..]);
    }
  }

  lemma RefusedIs(k: nat, r: string)
    requires k >= 2 && |r| >= 2 && StarFree(r)
    ensures Glob(Refused(k, r), Run(k) + r) && !Runs(Refused(k, r), Run(k) + r)
  {
    RunGlob(Refused(k, r), k, r);
    GlobSelf(r);
    NeverRuns(Refused(k, r), k, r);
  }

  lemma NeverRuns(s: string, k: nat, r: string)
    requires k >= 2 && |r| >= 2 && StarFree(s) && StarFree(r)
    requires |s| >= k && |s| >= |r| && (|s| == k || |s| == |r|)
    ensures !Runs(s, Run(k) + r)
  {
    NeverBegins(s, k, r);
    RunsOfRun(s, k, r);
    EatenAll(s, k - 1);
  }

  lemma NeverBegins(s: string, k: nat, r: string)
    requires k >= 2 && |r| >= 2 && StarFree(r) && (|s| == k || |s| == |r|)
    ensures !BeginsLater(s, r, k - 1)
  {
    if BeginsLater(s, r, k - 1) {
      var q :| k - 1 <= q < |s| && Runs(s[q..], r);
      StarFreeExact(s[q..], r);
      assert false;
    }
  }

  /** Of the strings that a glob with one run of stars accepts, exactly these are
      accepted: the ones that end inside the run, and the ones long enough for what the
      run eats and the rest. */
  lemma OneRunAccepts(s: string, a: string, k: nat, r: string)
    requires k > 0 && StarFree(a) && StarFree(r) && Glob(s, a + (Run(k) + r))
    ensures |a| + |r| <= |s|
    ensures Accepts(s, a + (Run(k) + r), false) <==>
            var n := |s| - |a|; n < k || r == "" || Eaten(s[|a|..], k - 1) + |r| <= n
  {
    CodeIsRuns(s, a + (Run(k) + r));
    StarFreeFront(s, a, Run(k) + r);
    RunAccepts(s[|a|..], k, r);
  }

  lemma RunAccepts(t: string, k: nat, r: string)
    requires k > 0 && StarFree(r) && Glob(t, Run(k) + r)
    ensures |r| <= |t|
    ensures Runs(t, Run(k) + r) <==> |t| < k || r == "" || Eaten(t, k - 1) + |r| <= |t|
  {
    RunsOfRun(t, k, r);
    RunGlob(t, k, r);
    EndsIn(t, r, Eaten(t, k - 1));
  }

  lemma EndsIn(t: string, r: string, from: nat)
    requires StarFree(r) && r != "" ==> |r| <= |t| && Glob(t[|t| - |r|..], r)
    requires StarFree(r)
    ensures r != "" ==> (BeginsLater(t, r, from) <==> from + |r| <= |t|)
  {
    if r != "" {
      StarFreeExact(t[|t| - |r|..], r);
      if BeginsLater(t, r, from) {
        var p :| from <= p < |t| && Runs(t[p..], r);
        StarFreeExact(t[p..], r);
      }
    }
  }

  /** With adjacent stars completeness is lost. */
  lemma AdjacentStarsRefuse()
    ensures Glob("abc", "a**bc") && !Accepts("abc", "a**bc", false)
  {
    assert "a" + (Run(2) + "bc") == "a**bc" && "abc"[1..] == "bc";
    assert Glob("abc", "a**bc");
    EatenAll("bc", 1);
    OneRunAccepts("abc", "a", 2, "bc");
  }

  /** For a mask with one run of k stars between parts without any: nothing a glob accepts
      is refused if and only if the run is a single star or at most one character follows
      it. */
  lemma OneRunComplete(a: string, k: nat, r: string)
    requires StarFree(a) && StarFree(r)
    ensures NothingRefused(a + (Run(k) + r)) <==> k <= 1 || |r| <= 1
  {
    var m := Run(k) + r;
    if k >= 2 && |r| >= 2 {
      var t := Refused(k, r);
      var s := a + t;
      RefusedIs(k, r);
      assert s[|a|..] == t && Fits(s, a);
      StarFreeFront(s, a, m);
      CodeIsRuns(s, a + m);
      assert Glob(s, a + m) && !Accepts(s, a + m, false);
    } else {
      forall s | Glob(s, a + m) ensures Accepts(s, a + m, false) {
        if k > 0 {
          OneRunAccepts(s, a, k, r);
        } else {
          assert m == r;
          StarFreeFront(s, a, r);
          StarFreeExact(s[|a|..], r);
          CodeIsRuns(s, a + m);
        }
      }
    }
  }

  // ---- when the code and the glob agree ----

  predicate StarsOnlyTrail(m: string) {
    forall i, j :: 0 <= i < j < |m| && m[i] == '*' ==> m[j] == '*'
  }

  predicate AllStars(m: string) {
    forall i :: 0 <= i < |m| ==> m[i] == '*'
  }

  lemma {:induction false} StarsAccept(s: string, m: string, instar: bool)
    requires AllStars(m) && (instar || m != "")
    ensures Accepts(s, m, instar)
    decreases |s|
  {
    if s != "" {
      StarsAccept(s[1..], AfterStar(m), true);
    }
  }

  lemma {:induction false} StarsGlob(s: string, m: string)
    requires AllStars(m) && m != ""
    ensures Glob(s, m)
    decreases |s| + |m|
  {
    if s != "" {
      StarsGlob(s[1..], m);
    } else if m[1..] != "" {
      StarsGlob(s, m[1..]);
    }
  }

  lemma {:induction false} TrailingStarsAgree(s: string, m: string)
    requires StarsOnlyTrail(m)
    ensures Accepts(s, m, false) == Glob(s, m)
    decreases |m|
  {
    if m != "" {
      if m[0] == '*' {
        StarsAccept(s, m, false);
        StarsGlob(s, m);
      } else if s != "" {
        TrailingStarsAgree(s[1..], m[1..]);
      }
    }
  }

  function Solid(m: string): nat {
    if m == "" then 0 else (if m[0] == '*' then 0 else 1) + Solid(m[1..])
  }

  lemma {:induction false} GlobNeeds(s: string, m: string)
    requires Glob(s, m)
    ensures |s| >= Solid(m)
    decreases |s| + |m|
  {
    if m != "" {
      if m[0] == '*' {
        if Glob(s, m[1..]) {
          GlobNeeds(s, m[1..]);
        } else {
          GlobNeeds(s[1..], m);
        }
      } else {
        GlobNeeds(s[1..], m[1..]);
      }
    }
  }

  /** A mask with something solid after its first star accepts the text of its own
      beginning, where the string runs out at that star; no glob would. */
  lemma {:induction false} EarlyAccept(m: string) returns (w: string)
    requires !StarsOnlyTrail(m)
    ensures Accepts(w, m, false) && |w| < Solid(m)
  {
    if m[0] == '*' {
      w := "";
      var i, j :| 0 <= i < j < |m| && m[i] == '*' && m[j] != '*';
      SolidSome(m, j);
    } else {
      assert !StarsOnlyTrail(m[1..]) by {
        var i, j :| 0 <= i < j < |m| && m[i] == '*' && m[j] != '*';
        assert m[1..][i - 1] == '*' && m[1..][j - 1] != '*';
      }
      var v := EarlyAccept(m[1..]);
      w := [m[0]] + v;
      assert w[1..] == v;
    }
  }

  lemma {:induction false} SolidSome(m: string, j: nat)
    requires j < |m| && m[j] != '*'
    ensures Solid(m) > 0
  {
    if j > 0 {
      SolidSome(m[1..], j - 1);
    }
  }

  ghost predicate AgreesWithGlob(m: string) {
    forall s :: Accepts(s, m, false) == Glob(s, m)
  }

  /** `strmatch` is the glob on every string exactly for the masks whose stars, if any,
      all stand at the end. */
  lemma AgreesIffStarsTrail(m: string)
    ensures AgreesWithGlob(m) <==> StarsOnlyTrail(m)
  {
    if StarsOnlyTrail(m) {
      forall s ensures Accepts(s, m, false) == Glob(s, m) {
        TrailingStarsAgree(s, m);
      }
    } else {
      var w := EarlyAccept(m);
      if Glob(w, m) {
        GlobNeeds(w, m);
      }
      assert Accepts(w, m, false) != Glob(w, m);
    }
  }
}
