/** What each event of a connection leads to, and how long a session that was welcomed and
    then lost its server goes on. */
module ReconnectLaws {
  import opened Reconnect

  // ---- one event ----

  /** Either of the two limits is reached after this many rounds; the second one counts only
      until a server has been seen. */
  predicate UsedUp(l: Limits, seen: bool, attempts: nat) {
    (l.maxAttempts != 0 && attempts >= l.maxAttempts)
    || (!seen && l.maxInitAttempts != 0 && attempts >= l.maxInitAttempts)
  }

  lemma LimitIs(l: Limits, seen: bool, attempts: nat)
    ensures 0 < Limit(l, seen) <= attempts <==> UsedUp(l, seen, attempts)
  {
  }

  predicate Fails(e: Event) {
    e.LookupFailed? || e.ConnectFailed? || e.Lost?
  }

  /** Whether a look-up fails, a connection fails or one is lost: the timer is set, and when
      it goes off the session tries exactly the next server in the cycle, or gives up because
      a limit is reached by the rounds it has been through. */
  lemma FailureRetries(s: Link, l: Limits, e: Event)
    requires InList(s) && s.n > 0 && Enabled(s, e) && Fails(e)
    ensures Enabled(Step(s, l, e), Timer)
    ensures var u := Step(Step(s, l, e), l, Timer);
            && u.n == s.n && u.next == After1(s.next, s.n) && u.seen == s.seen && !u.recon
            && u.attempts == s.attempts + (if u.next == 0 then 1 else 0)
            && (u.dead <==> UsedUp(l, s.seen, u.attempts))
            && u.tried == (if u.dead then s.tried else s.tried + [u.next])
            && u.created == (e.LookupFailed? && s.created)
  {
  }

  /** A start tries the first server of the cycle unless a reconnect is waiting; a socket
      makes every fate of a connection possible; a welcome renews the budget. */
  lemma OtherEvents(s: Link, l: Limits, e: Event)
    requires InList(s) && Enabled(s, e)
    ensures e.Start? ==>
              var t := Step(s, l, e);
              && t == (if s.recon then s else s.(tried := s.tried + [s.next]))
              && (!s.recon ==> Enabled(t, LookupFailed) && Enabled(t, SocketMade))
    ensures e.SocketMade? ==>
              var t := Step(s, l, e);
              && t.(created := s.created) == s
              && Enabled(t, Welcome) && Enabled(t, Lost) && Enabled(t, ConnectFailed)
    ensures e.Welcome? ==>
              var t := Step(s, l, e);
              && t.(seen := s.seen, attempts := s.attempts) == s
              && t.seen && Budget(t, l) == l.maxAttempts * s.n - s.next
  {
    assert (l.maxAttempts - 0) * s.n == l.maxAttempts * s.n;
  }

  // ---- lost after a welcome ----

  lemma {:induction false} RoundsFront(s: Link, l: Limits, how: bool, hows: seq<bool>)
    ensures Rounds(s, l, [how] + hows) == Rounds(Round(s, l, how), l, hows)
    decreases |hows|
  {
    var all := [how] + hows;
    if hows == [] {
      assert all[..0] == [];
    } else {
      assert all[..|all| - 1] == [how] + hows[..|hows| - 1];
      RoundsFront(s, l, how, hows[..|hows| - 1]);
    }
  }

  /** A session with a connection is welcomed, loses it, and the timer goes off. */
  function AfterLoss(s: Link, l: Limits): Link {
    Step(Step(Step(s, l, Welcome), l, Lost), l, Timer)
  }

  lemma LossIsRun(s: Link, l: Limits)
    requires Enabled(s, Welcome)
    ensures AllEnabled(s, l, [Welcome, Lost, Timer]) && Run(s, l, [Welcome, Lost, Timer]) == AfterLoss(s, l)
  {
    var a, b, c := [Welcome], [Welcome, Lost], [Welcome, Lost, Timer];
    assert c[..0] == [] && c[..1] == a && c[..2] == b && b[..1] == a && a[..0] == [];
  }

  /** A loss is one more failing round of a session that has just been welcomed. */
  lemma LossIsRound(s: Link, l: Limits, hows: seq<bool>) returns (w: Link)
    requires Enabled(s, Welcome)
    ensures w == s.(seen := true, attempts := 0, created := false) && Limit(l, w.seen) == l.maxAttempts
    ensures Rounds(AfterLoss(s, l), l, hows) == Rounds(w, l, [true] + hows)
  {
    w := s.(seen := true, attempts := 0, created := false);
    assert AfterLoss(s, l) == Round(w, l, true);
    RoundsFront(w, l, true, hows);
  }

  /** The state after some rounds of which the session has `rounds` to live, or unlimited. */
  predicate Lasts(t: Link, s: Link, limited: bool, rounds: int, done: nat)
    requires s.n > 0
  {
    && (t.dead <==> limited && done >= rounds)
    && (!t.dead ==> t.tried == s.tried + Cycle(s.n, s.next + 1, done))
    && (t.dead ==> rounds > 0 && t.tried == s.tried + Cycle(s.n, s.next + 1, rounds - 1))
  }

  lemma RoundsLast(s: Link, l: Limits, hows: seq<bool>)
    requires s.next < s.n && !s.dead && !s.created && (Limit(l, s.seen) == 0 || s.attempts < Limit(l, s.seen))
    ensures Lasts(Rounds(s, l, hows), s, Limit(l, s.seen) != 0, Budget(s, l), |hows|)
  {
    if Limit(l, s.seen) != 0 {
      GivesUpExactly(s, l, hows);
    }
    if Limit(l, s.seen) == 0 || |hows| < Budget(s, l) {
      RoundsSurvived(s, l, hows);
    }
  }

  /** However often it was tried before, a session that was welcomed by server j and then
      loses it, with every attempt after that failing, goes on for ever without a limit on
      attempts, and otherwise through exactly maxAttempts * n - j rounds, the loss being the
      first; it tries the servers after j in order, and the limit on initial attempts no
      longer counts. */
  lemma WelcomedThenLost(s: Link, l: Limits, hows: seq<bool>)
    requires InList(s) && s.n > 0 && Enabled(s, Welcome)
    ensures AllEnabled(s, l, [Welcome, Lost, Timer])
    ensures Lasts(Rounds(Run(s, l, [Welcome, Lost, Timer]), l, hows), s,
                  l.maxAttempts != 0, l.maxAttempts * s.n - s.next, 1 + |hows|)
  {
    LossIsRun(s, l);
    var w := LossIsRound(s, l, hows);
    Renewed(w, s, l, [true] + hows);
  }

  lemma Renewed(w: Link, s: Link, l: Limits, hows: seq<bool>)
    requires InList(s) && s.n > 0 && !s.dead && w == s.(seen := true, attempts := 0, created := false)
    ensures Lasts(Rounds(w, l, hows), s, l.maxAttempts != 0, l.maxAttempts * s.n - s.next, |hows|)
  {
    RoundsLast(w, l, hows);
    LastsAlike(Rounds(w, l, hows), w, s, l.maxAttempts != 0, Budget(w, l), |hows|);
  }

  lemma LastsAlike(t: Link, w: Link, s: Link, limited: bool, rounds: int, done: nat)
    requires s.n > 0 && w.n == s.n && w.next == s.next && w.tried == s.tried && Lasts(t, w, limited, rounds, done)
    ensures Lasts(t, s, limited, rounds, done)
  {
  }

  /** The same on the object. */
  method LoseThenFail(c: ServerLink, hows: seq<bool>)
    requires c.Valid() && c.servers > 0 && c.Tried != [] && Enabled(c.V(), Welcome)
    modifies c
    ensures c.Valid()
    ensures Lasts(c.V(), old(c.V()), c.limits.maxAttempts != 0,
                  c.limits.maxAttempts * old(c.servers) - old(c.next), 1 + |hows|)
  {
    ghost var s := c.V();
    WelcomedThenLost(s, c.limits, hows);
    RunInList(s, c.limits, [Welcome, Lost, Timer]);
    TriedGrows(s, c.limits, [Welcome, Lost, Timer]);
    LossIsRun(s, c.limits);
    c.PerformAll([Welcome, Lost, Timer]);
    c.FailRounds(hows);
  }
}
