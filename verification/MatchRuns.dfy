/** Masks with several runs of stars: when strmatch, src/match.c, refuses nothing that a
    glob accepts. */
module MatchRuns {
  import opened Match

  /** Whatever fits y fits x. */
  predicate Covers(x: char, y: char) {
    x == '?' || x == y
  }

  predicate CoversAll(p: string, z: string) {
    |p| == |z| && forall i :: 0 <= i < |p| ==> Covers(p[i], z[i]) && z[i] != '*'
  }

  /** The mask ends in characters, none of them a star, that this part covers. */
  predicate EndsAs(m: string, p: string) {
    |p| <= |m| && CoversAll(p, m[|m| - |p|..])
  }

  /** How many characters a string must have at least. */
  function Needs(m: string): nat {
    if m == "" then 0 else (if m[0] == '*' then 0 else 1) + Needs(m[1..])
  }

  lemma {:induction false} GlobLength(s: string, m: string)
    requires Glob(s, m)
    ensures |s| >= Needs(m)
    decreases |s| + |m|
  {
    if m != "" {
      if m[0] != '*' {
        GlobLength(s[1..], m[1..]);
      } else if Glob(s, m[1..]) {
        GlobLength(s, m[1..]);
      } else {
        GlobLength(s[1..], m);
      }
    }
  }

  // ---- the end of a string that a glob accepts ----

  /** The last |p| characters of the string fit p. */
  predicate EndFits(s: string, p: string) {
    |p| <= |s| && Fits(s[|s| - |p|..], p)
  }

  lemma {:induction false} GlobEnd(s: string, m: string, p: string)
    requires Glob(s, m) && EndsAs(m, p)
    ensures EndFits(s, p)
    decreases |s| + |m|
  {
    if |p| == |m| {
      WholeEnd(s, m, p);
    } else if m[0] != '*' {
      assert EndsAs(m[1..], p) by { EndsAsTail(m, p); }
      GlobEnd(s[1..], m[1..], p);
      assert s[1..][|s| - 1 - |p|..] == s[|s| - |p|..];
    } else if Glob(s, m[1..]) {
      assert EndsAs(m[1..], p) by { EndsAsTail(m, p); }
      GlobEnd(s, m[1..], p);
    } else {
      GlobEnd(s[1..], m, p);
      assert s[1..][|s| - 1 - |p|..] == s[|s| - |p|..];
    }
  }

  lemma EndsAsTail(m: string, p: string)
    requires EndsAs(m, p) && |p| < |m|
    ensures EndsAs(m[1..], p)
  {
    assert m[1..][|m| - 1 - |p|..] == m[|m| - |p|..];
  }

  lemma WholeEnd(s: string, m: string, p: string)
    requires Glob(s, m) && EndsAs(m, p) && |p| == |m|
    ensures EndFits(s, p)
  {
    assert m[0..] == m && m + "" == m;
    NoStarCovered(p, m);
    StarFreeExact(s, m);
    StarFreeFront(s, m, "");
    FitsCovered(s, m, p);
    assert s[|s| - |p|..] == s;
  }

  lemma NoStarCovered(p: string, z: string)
    requires CoversAll(p, z)
    ensures StarFree(z)
  {
    forall i | 0 <= i < |z| ensures z[i] != '*' {
      assert Covers(p[i], z[i]);
    }
  }

  lemma FitsCovered(s: string, z: string, p: string)
    requires Fits(s, z) && CoversAll(p, z)
    ensures Fits(s, p)
  {
    forall i | 0 <= i < |p| ensures One(p[i], s[i]) {
      assert One(z[i], s[i]) && Covers(p[i], z[i]);
    }
  }

  // ---- a run and what follows it ----

  /** A part without stars, and then nothing or a star. */
  predicate Parted(p: string, rest: string) {
    StarFree(p) && (if rest == "" then true else p != "" && rest[0] == '*')
  }

  lemma {:induction false} AfterRun(s: string, k: nat, r: string) returns (q: nat)
    requires Glob(s, Run(k) + r)
    ensures q <= |s| && Glob(s[q..], r)
    decreases |s| + k
  {
    if k == 0 {
      assert Run(0) + r == r && s[0..] == s;
      q := 0;
    } else {
      GlobOfRun(s, k, r);
      if Glob(s, Run(k - 1) + r) {
        q := AfterRun(s, k - 1, r);
      } else {
        var q' := AfterRun(s[1..], k, r);
        q := q' + 1;
        assert s[1..][q'..] == s[q..];
      }
    }
  }

  /** At the end of the string a part that fits it is enough, as the string runs out there. */
  lemma LateStart(s: string, p: string, rest: string)
    requires Parted(p, rest) && Fits(s, p) && |s| == |p|
    ensures Runs(s, p + rest)
  {
    assert s[|p|..] == "";
    StarFreeFront(s, p, rest);
  }

  /** The part after the run may start where the end of the string fits it, and that is not
      too early: it is a single character, or there is room for what the run eats. */
  predicate Late(k: nat, p: string, rest: string) {
    EndsAs(p + rest, p) && (|p| <= 1 || k - 1 + |p| <= Needs(p + rest))
  }

  lemma RunPasses(s: string, k: nat, p: string, rest: string)
    requires k > 0 && Parted(p, rest) && Late(k, p, rest) && Glob(s, Run(k) + (p + rest))
    ensures Runs(s, Run(k) + (p + rest))
  {
    var r := p + rest;
    assert r == "" || r[0] != '*';
    RunsOfRun(s, k, r);
    if r != "" && |s| >= k {
      LateEnough(s, k, p, rest);
      var u := |s| - |p|;
      LateStart(s[u..], p, rest);
      assert BeginsLater(s, r, Eaten(s, k - 1));
    }
  }

  lemma LateEnough(s: string, k: nat, p: string, rest: string)
    requires k > 0 && Late(k, p, rest) && Glob(s, Run(k) + (p + rest)) && |s| >= k
    ensures EndFits(s, p) && Eaten(s, k - 1) + |p| <= |s|
  {
    var r := p + rest;
    var q := AfterRun(s, k, r);
    GlobEnd(s[q..], r, p);
    GlobLength(s[q..], r);
    assert s[q..][|s[q..]| - |p|..] == s[|s| - |p|..];
  }

  // ---- what stands before it ----

  /** Nothing that a glob accepts is refused, in terms of what the code decides. */
  ghost predicate AllPass(m: string) {
    forall s :: Glob(s, m) ==> Runs(s, m)
  }

  lemma {:induction false} FrontPasses(s: string, a: string, m: string)
    requires NoAdjacentStars(a + "*") && m != "" && m[0] == '*' && AllPass(m) && Glob(s, a + m)
    ensures Runs(s, a + m)
    decreases |a|, 0
  {
    if a == "" {
      assert a + m == m;
    } else {
      var b := a[1..] + m;
      assert (a + m)[1..] == b && (a + m)[0] == a[0];
      NoAdjacentTail(a);
      if a[0] == '*' {
        assert a + m == "*" + b;
        StarPasses(s, a[1..], m);
      } else {
        assert Stars(a + m) == 0;
        FrontPasses(s[1..], a[1..], m);
      }
    }
  }

  lemma StarPasses(s: string, a: string, m: string)
    requires a != "" && a[0] != '*' && NoAdjacentStars(a + "*")
    requires m != "" && m[0] == '*' && AllPass(m) && Glob(s, "*" + (a + m))
    ensures Runs(s, "*" + (a + m))
    decreases |a|, 1
  {
    var b := a + m;
    RunsOfOne(s, b);
    if s != "" {
      assert Run(1) + b == "*" + b;
      var q := AfterRun(s, 1, b);
      FrontPasses(s[q..], a, m);
      assert q < |s|;
      assert BeginsLater(s, b, 0);
    }
  }

  lemma NoAdjacentTail(a: string)
    requires a != "" && NoAdjacentStars(a + "*")
    ensures NoAdjacentStars(a[1..] + "*") && (a[0] == '*' ==> a[1..] != "" && a[1] != '*')
  {
    var m, t := a + "*", a[1..] + "*";
    forall i | 0 <= i < |t| - 1 ensures !(t[i] == '*' && t[i + 1] == '*') {
      assert t[i] == m[i + 1] && t[i + 1] == m[i + 2];
    }
    assert m[0] == a[0] && m[1] == if |a| == 1 then '*' else a[1];
  }

  /** Masks with any number of runs: nothing that a glob accepts is refused if all runs
      before the first longer one are single stars, and nothing follows that one, or what
      follows it up to the next star covers the end of the mask and is late enough. What
      comes after that star does not matter otherwise: the string runs out there. */
  lemma RunsComplete(a: string, k: nat, p: string, rest: string)
    requires NoAdjacentStars(a + "*") && k > 0 && Parted(p, rest) && Late(k, p, rest)
    ensures NothingRefused(a + (Run(k) + (p + rest)))
  {
    var m := Run(k) + (p + rest);
    forall s | Glob(s, m) ensures Runs(s, m) {
      RunPasses(s, k, p, rest);
    }
    forall s | Glob(s, a + m) ensures Accepts(s, a + m, false) {
      FrontPasses(s, a, m);
      CodeIsRuns(s, a + m);
    }
  }

  /** A mask with a run of two stars and three characters behind it that refuses nothing. */
  lemma RescuedAtTheEnd()
    ensures NothingRefused("**a*a")
  {
    var a, p, rest := "", "a", "*a";
    assert a + (Run(2) + (p + rest)) == "**a*a";
    RunsComplete(a, 2, p, rest);
  }
}
