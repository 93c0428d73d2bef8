/** Cycling through the servers of a connection class (src/irc_server.c, and the JUMP
    command of src/irc_client.c). */
module Reconnect {

  datatype Limits = Limits(maxAttempts: nat, maxInitAttempts: nat)

  /** `n` servers, the index of `next_server`, whether the "server_recon" timer is set, and
      the servers tried so far. */
  datatype Link = Link(n: nat, next: nat, attempts: nat, seen: bool, created: bool, recon: bool,
                       dead: bool, tried: seq<nat>)

  // ---- the operations ----

  /** The number of rounds after which the session gives up; 0 is never. */
  function Limit(l: Limits, seen: bool): nat {
    if l.maxAttempts == 0 then (if seen then 0 else l.maxInitAttempts)
    else if seen || l.maxInitAttempts == 0 || l.maxAttempts <= l.maxInitAttempts then l.maxAttempts
    else l.maxInitAttempts
  }

  /** `ircserver_connect` */
  function Connected(s: Link): Link {
    if s.recon then s else s.(tried := s.tried + [s.next])
  }

  /** `_ircserver_reconnect`, the timer's action */
  function Reconnected(s: Link, l: Limits): Link {
    var wrap := s.next + 1 >= s.n;
    var s' := s.(recon := false, next := if wrap then 0 else s.next + 1,
                 attempts := if wrap then s.attempts + 1 else s.attempts);
    var limit := Limit(l, s.seen);
    if limit != 0 && s'.attempts >= limit then s'.(dead := true) else Connected(s')
  }

  /** `ircserver_connectagain` after JUMP made server j the next; j == n is a new one. */
  function Jumped(s: Link, j: nat): Link {
    var s' := s.(n := if j == s.n then s.n + 1 else s.n, next := j, created := false,
                 recon := if s.created then false else s.recon, seen := false, attempts := 0);
    Connected(s')
  }

  datatype Event = Start | Timer | LookupFailed | SocketMade | ConnectFailed | Welcome | Lost | Jump(j: nat)

  /** A look-up or a connection can only fail or succeed once something was tried, and a
      class without servers has nothing to start with. */
  predicate Enabled(s: Link, e: Event) {
    !s.dead
    && (e.Timer? ==> s.recon)
    && (e.Start? ==> !s.created && s.n > 0)
    && (e.LookupFailed? || e.SocketMade? ==> s.tried != [])
    && (e.ConnectFailed? || e.Welcome? || e.Lost? ==> s.created)
    && (e.Jump? ==> e.j <= s.n)
  }

  function Step(s: Link, l: Limits, e: Event): Link {
    match e
    case Start => Connected(s)
    case Timer => Reconnected(s, l)
    case LookupFailed => s.(recon := true)
    case SocketMade => s.(created := true)
    case ConnectFailed => s.(created := false, recon := true)
    case Welcome => s.(seen := true, attempts := 0)
    case Lost => s.(created := false, recon := true)
    case Jump(j) => Jumped(s, j)
  }

  function Run(s: Link, l: Limits, es: seq<Event>): Link {
    if es == [] then s
    else
      var t := Run(s, l, es[..|es| - 1]);
      if Enabled(t, es[|es| - 1]) then Step(t, l, es[|es| - 1]) else t
  }

  /** Every event of the run can happen when its turn comes. */
  predicate AllEnabled(s: Link, l: Limits, es: seq<Event>) {
    forall i :: 0 <= i < |es| ==> Enabled(Run(s, l, es[..i]), es[i])
  }

  function NewLink(n: nat): Link {
    Link(n, 0, 0, false, false, false, false, [])
  }

  // ---- the next server is always one of the list ----

  /** Everything tried is in the list, and so is the next server once there is a list. */
  predicate InList(s: Link) {
    && (forall i :: 0 <= i < |s.tried| ==> s.tried[i] < s.n)
    && (if s.n == 0 then s == NewLink(0).(dead := s.dead) else s.next < s.n)
  }

  lemma {:induction false} RunInList(s: Link, l: Limits, es: seq<Event>)
    requires InList(s)
    ensures InList(Run(s, l, es)) && s.n <= Run(s, l, es).n
    decreases |es|
  {
    if es != [] {
      RunInList(s, l, es[..|es| - 1]);
      var t := Run(s, l, es[..|es| - 1]);
      if Enabled(t, es[|es| - 1]) {
        StepInList(t, l, es[|es| - 1]);
      }
    }
  }

  lemma StepInList(s: Link, l: Limits, e: Event)
    requires InList(s) && Enabled(s, e)
    ensures InList(Step(s, l, e)) && s.n <= Step(s, l, e).n
  {
  }

  // ---- a jump reaches its server unless a reconnect is waiting ----

  /** Whether a jump tries its server at once: there is a socket to drop, or no reconnect
      is waiting. */
  predicate Reaches(s: Link) {
    s.created || !s.recon
  }

  function After1(j: nat, n: nat): nat {
    if j + 1 >= n then 0 else j + 1
  }

  predicate NoJump(es: seq<Event>) {
    forall i :: 0 <= i < |es| ==> !es[i].Jump?
  }

  /** Until something is tried again the waiting reconnect and the chosen server stay. */
  predicate StillWaiting(t: Link, s: Link, j: nat) {
    t.n == s.n && if t.tried == s.tried then t.dead || (t.recon && t.next == j)
                  else |t.tried| > |s.tried| && s.tried <= t.tried && t.tried[|s.tried|] == After1(j, s.n)
  }

  lemma {:induction false} WaitsOn(s: Link, l: Limits, j: nat, es: seq<Event>)
    requires NoJump(es) && s.recon && s.next == j
    ensures StillWaiting(Run(s, l, es), s, j)
    decreases |es|
  {
    if es != [] {
      var before, e := es[..|es| - 1], es[|es| - 1];
      WaitsOn(s, l, j, before);
      if Enabled(Run(s, l, before), e) {
        WaitsOneMore(Run(s, l, before), s, l, j, e);
      }
    }
  }

  lemma WaitsOneMore(t: Link, s: Link, l: Limits, j: nat, e: Event)
    requires StillWaiting(t, s, j) && Enabled(t, e) && !e.Jump?
    ensures StillWaiting(Step(t, l, e), s, j)
  {
  }

  lemma {:induction false} TriedGrows(s: Link, l: Limits, es: seq<Event>)
    ensures s.tried <= Run(s, l, es).tried
    decreases |es|
  {
    if es != [] {
      TriedGrows(s, l, es[..|es| - 1]);
    }
  }

  lemma {:induction false} RunConcat(s: Link, l: Limits, a: seq<Event>, b: seq<Event>)
    ensures Run(s, l, a + b) == Run(Run(s, l, a), l, b)
    decreases |b|
  {
    if b == [] {
      assert a + b == a;
    } else {
      RunConcat(s, l, a, b[..|b| - 1]);
      assert (a + b)[..|a + b| - 1] == a + b[..|b| - 1];
    }
  }

  lemma RunOne(s: Link, l: Limits, e: Event)
    requires Enabled(s, e)
    ensures Run(s, l, [e]) == Step(s, l, e)
  {
    assert [e][..0] == [];
  }

  /** A jump in any run of a session that began with n servers, and whatever follows up to
      the next jump: if at the jump a socket exists or no reconnect is waiting, the chosen
      server is tried next; otherwise the next server that is tried, if ever, is the one
      after it. */
  lemma JumpReaches(n: nat, l: Limits, es: seq<Event>, j: nat, later: seq<Event>)
    requires Enabled(Run(NewLink(n), l, es), Jump(j)) && NoJump(later)
    ensures var s, t := Run(NewLink(n), l, es), Run(NewLink(n), l, es + ([Jump(j)] + later));
            && (Reaches(s) ==> |t.tried| > |s.tried|)
            && (|t.tried| > |s.tried| ==> t.tried[|s.tried|] == if Reaches(s) then j else After1(j, t.n))
  {
    var s := Run(NewLink(n), l, es);
    var s' := Step(s, l, Jump(j));
    RunConcat(NewLink(n), l, es, [Jump(j)] + later);
    RunConcat(s, l, [Jump(j)], later);
    RunOne(s, l, Jump(j));
    if Reaches(s) {
      TriedGrows(s', l, later);
    } else {
      WaitsOn(s', l, j, later);
    }
  }

  /** The server tried next is the chosen one exactly if a socket exists, no reconnect is
      waiting, or there is no other server. */
  lemma JumpReachesIff(n: nat, l: Limits, es: seq<Event>, j: nat, later: seq<Event>)
    requires Enabled(Run(NewLink(n), l, es), Jump(j)) && NoJump(later)
    ensures var s, t := Run(NewLink(n), l, es), Run(NewLink(n), l, es + ([Jump(j)] + later));
            |t.tried| > |s.tried| ==> (t.tried[|s.tried|] == j <==> Reaches(s) || t.n == 1)
  {
    var s := Run(NewLink(n), l, es);
    JumpReaches(n, l, es, j, later);
    RunConcat(NewLink(n), l, es, [Jump(j)] + later);
    RunConcat(s, l, [Jump(j)], later);
    RunOne(s, l, Jump(j));
    RunInList(NewLink(n), l, es);
    StepInList(s, l, Jump(j));
    RunInList(Step(s, l, Jump(j)), l, later);
  }

  /** Three servers, a failed look-up, a jump to the second: the third is tried. */
  lemma JumpMisses()
    ensures var l := Limits(0, 0);
            && Run(NewLink(3), l, [Start, LookupFailed, Jump(1), Timer]).tried == [0, 2]
  {
    var l, s := Limits(0, 0), NewLink(3);
    var a := Step(s, l, Start);
    var b := Step(a, l, LookupFailed);
    var c := Step(b, l, Jump(1));
    RunOne(s, l, Start);
    RunOne(a, l, LookupFailed);
    RunOne(b, l, Jump(1));
    RunOne(c, l, Timer);
    RunConcat(s, l, [Start], [LookupFailed]);
    RunConcat(s, l, [Start] + [LookupFailed], [Jump(1)]);
    RunConcat(s, l, [Start] + [LookupFailed] + [Jump(1)], [Timer]);
    assert [Start] + [LookupFailed] + [Jump(1)] + [Timer] == [Start, LookupFailed, Jump(1), Timer];
  }

  // ---- when every attempt fails ----

  /** An attempt fails at the look-up of the server or at the connection. */
  function AttemptFails(s: Link, l: Limits, atLookup: bool): Link {
    if atLookup then Step(s, l, LookupFailed) else Step(Step(s, l, SocketMade), l, ConnectFailed)
  }

  /** A failed attempt and the reconnect after it. */
  function Round(s: Link, l: Limits, atLookup: bool): Link {
    if s.dead then s else Step(AttemptFails(s, l, atLookup), l, Timer)
  }

  /** One round after the other, each failing in its way. */
  function Rounds(s: Link, l: Limits, hows: seq<bool>): Link {
    if hows == [] then s else Round(Rounds(s, l, hows[..|hows| - 1]), l, hows[|hows| - 1])
  }

  /** The servers from index j on, cyclically. */
  function Cycle(n: nat, j: nat, m: nat): (c: seq<nat>)
    requires n > 0
    ensures |c| == m
  {
    seq(m, i => (j + i) % n)
  }

  lemma CycleSnoc(n: nat, j: nat, m: nat)
    requires n > 0
    ensures Cycle(n, j, m + 1) == Cycle(n, j, m) + [(j + m) % n]
  {
  }

  lemma NextIn(n: nat, x: nat)
    requires n > 0
    ensures x % n < n && x / n >= 0
    ensures if x % n + 1 >= n then (x + 1) % n == 0 && (x + 1) / n == x / n + 1
            else (x + 1) % n == x % n + 1 && (x + 1) / n == x / n
  {
    var q, m := x / n, x % n;
    assert x == q * n + m;
    if m + 1 >= n {
      assert x + 1 == (q + 1) * n;
      DivIs(n, q + 1, 0);
    } else {
      DivIs(n, q, m + 1);
    }
  }

  lemma DivIs(n: nat, q: nat, m: nat)
    requires m < n
    ensures (q * n + m) / n == q && (q * n + m) % n == m
  {
    var x := q * n + m;
    var d := x / n - q;
    assert x == x / n * n + x % n;
    assert d * n == m - x % n;
    Multiple(n, d);
  }

  lemma Multiple(n: nat, d: int)
    ensures d == 0 ==> d * n == 0
    ensures d > 0 ==> d * n >= n
    ensures d < 0 ==> d * n + n <= 0
  {
  }

  /** How many rounds the session lives through when all of them fail. */
  function Budget(s: Link, l: Limits): int {
    (Limit(l, s.seen) - s.attempts) * s.n - s.next
  }

  /** The state after r failing rounds that the session survives. */
  predicate After(t: Link, s: Link, r: nat)
    requires s.n > 0
  {
    && t.n == s.n && t.next == (s.next + r) % s.n && t.attempts == s.attempts + (s.next + r) / s.n
    && t.seen == s.seen && !t.dead && !t.created
    && t.tried == s.tried + Cycle(s.n, s.next + 1, r)
  }

  /** However its attempts fail, the state after the rounds a session survives. */
  lemma {:induction false} RoundsSurvived(s: Link, l: Limits, hows: seq<bool>)
    requires s.next < s.n && !s.dead && !s.created
    requires Limit(l, s.seen) == 0 || |hows| < Budget(s, l)
    ensures After(Rounds(s, l, hows), s, |hows|)
    decreases |hows|
  {
    var r := |hows|;
    if r == 0 {
      DivIs(s.n, 0, s.next);
      assert s.tried + Cycle(s.n, s.next + 1, 0) == s.tried;
    } else {
      RoundsSurvived(s, l, hows[..r - 1]);
      OneRound(s, l, Rounds(s, l, hows[..r - 1]), hows[r - 1], r);
    }
  }

  lemma OneRound(s: Link, l: Limits, t: Link, how: bool, r: nat)
    requires s.next < s.n && !s.dead && r > 0 && After(t, s, r - 1)
    ensures var t' := Round(t, l, how);
            && (Limit(l, s.seen) == 0 || r < Budget(s, l) ==> After(t', s, r))
            && (Limit(l, s.seen) != 0 && r >= Budget(s, l) ==> t'.dead && t'.tried == t.tried)
  {
    var x, limit := s.next + r - 1, Limit(l, s.seen);
    NextIn(s.n, x);
    CycleSnoc(s.n, s.next + 1, r - 1);
    assert s.next + 1 + (r - 1) == x + 1;
    AtLimit(s.n, x + 1, limit, s.attempts);
  }

  lemma AtLimit(n: nat, x: nat, limit: nat, a: nat)
    requires n > 0
    ensures a + x / n >= limit <==> x >= (limit - a) * n
  {
    var q, m, d := x / n, x % n, limit - a;
    assert x == q * n + m && m < n;
    assert (q - d) * n == q * n - d * n;
    Multiple(n, q - d);
  }

  /** With no limit in force the session lives on, and after r failing rounds the next
      server is r further on, modulo the number of servers. */
  lemma NeverGivesUp(s: Link, l: Limits, hows: seq<bool>)
    requires s.next < s.n && !s.dead && !s.created && Limit(l, s.seen) == 0
    ensures var t := Rounds(s, l, hows); !t.dead && t.next == (s.next + |hows|) % s.n
  {
    RoundsSurvived(s, l, hows);
  }

  lemma {:induction false} DeadStays(s: Link, l: Limits, hows: seq<bool>, r: nat)
    requires r <= |hows| && Rounds(s, l, hows[..r]).dead
    ensures Rounds(s, l, hows) == Rounds(s, l, hows[..r])
    decreases |hows|
  {
    if r < |hows| {
      var before := hows[..|hows| - 1];
      assert before[..r] == hows[..r];
      DeadStays(s, l, before, r);
    } else {
      assert hows[..r] == hows;
    }
  }

  /** With a limit the session gives up at exactly the round that uses up its budget, and
      makes no attempt in it. */
  lemma GivesUpExactly(s: Link, l: Limits, hows: seq<bool>)
    requires s.next < s.n && !s.dead && !s.created && s.attempts < Limit(l, s.seen)
    ensures Budget(s, l) > 0
    ensures var t := Rounds(s, l, hows);
            && (t.dead <==> |hows| >= Budget(s, l))
            && (t.dead ==> t.tried == s.tried + Cycle(s.n, s.next + 1, Budget(s, l) - 1))
  {
    BudgetLeft(s, l);
    if |hows| >= Budget(s, l) {
      DiesAt(s, l, hows[..Budget(s, l)]);
      DeadStays(s, l, hows, Budget(s, l));
    } else {
      RoundsSurvived(s, l, hows);
    }
  }

  lemma BudgetLeft(s: Link, l: Limits)
    requires s.next < s.n && s.attempts < Limit(l, s.seen)
    ensures Budget(s, l) > 0
  {
    Multiple(s.n, Limit(l, s.seen) - s.attempts);
  }

  /** The round that uses up the budget. */
  lemma DiesAt(s: Link, l: Limits, hows: seq<bool>)
    requires s.next < s.n && !s.dead && !s.created && Limit(l, s.seen) != 0
    requires |hows| == Budget(s, l) > 0
    ensures var t := Rounds(s, l, hows);
            t.dead && t.tried == s.tried + Cycle(s.n, s.next + 1, Budget(s, l) - 1)
  {
    var r := |hows|;
    RoundsSurvived(s, l, hows[..r - 1]);
    OneRound(s, l, Rounds(s, l, hows[..r - 1]), hows[r - 1], r);
  }

  function Count(s: seq<nat>, v: nat): nat {
    if s == [] then 0 else Count(s[..|s| - 1], v) + if s[|s| - 1] == v then 1 else 0
  }

  lemma CountSnoc(s: seq<nat>, x: nat, v: nat)
    ensures Count(s + [x], v) == Count(s, v) + if x == v then 1 else 0
  {
  }

  lemma OneMoreCounted(n: nat, x: nat, v: nat)
    requires n > 0
    ensures Count(Cycle(n, 0, x + 1), v) == Count(Cycle(n, 0, x), v) + if x % n == v then 1 else 0
  {
    CycleSnoc(n, 0, x);
    CountSnoc(Cycle(n, 0, x), x % n, v);
  }

  /** Up to k rounds and m more each server was tried k times, the first m once more. */
  lemma {:induction false} CycleCounts(n: nat, k: nat, m: nat, v: nat)
    requires v < n && m <= n
    ensures Count(Cycle(n, 0, k * n + m), v) == k + if v < m then 1 else 0
    decreases k, m
  {
    if m > 0 {
      CycleCounts(n, k, m - 1, v);
      DivIs(n, k, m - 1);
      OneMoreCounted(n, k * n + (m - 1), v);
      assert k * n + (m - 1) + 1 == k * n + m;
    } else if k > 0 {
      CycleCounts(n, k - 1, n, v);
      assert (k - 1) * n + n == k * n + m;
    }
  }

  /** A new session whose attempts all fail: with a limit of k initial rounds it tries
      k * n servers, k times each, and then gives up. */
  lemma InitialAttempts(s: Link, n: nat, k: nat, hows: seq<bool>, v: nat)
    requires v < n && k > 0 && s == Connected(NewLink(n))
    ensures var t := Rounds(s, Limits(0, k), hows);
            && (t.dead <==> |hows| >= k * n)
            && (t.dead ==> |t.tried| == k * n && Count(t.tried, v) == k)
  {
    var l := Limits(0, k);
    assert s.tried == [0] && s.n == n && s.next == 0 && s.attempts == 0 && !s.seen && !s.dead;
    GivesUpExactly(s, l, hows);
    FreshBudget(s, l, n, k);
    if |hows| >= k * n {
      FromFirst(n, k * n);
      CycleCounts(n, k, 0, v);
      assert k * n + 0 == k * n;
    }
  }

  lemma FreshBudget(s: Link, l: Limits, n: nat, k: nat)
    requires s.n == n && s.next == 0 && s.attempts == 0 && !s.seen && l == Limits(0, k)
    ensures Budget(s, l) == k * n
  {
  }

  lemma FromFirst(n: nat, m: nat)
    requires n > 0 && m > 0
    ensures [0] + Cycle(n, 1, m - 1) == Cycle(n, 0, m)
  {
  }

  // ---- the code ----

  class ServerLink {
    const limits: Limits
    var servers: nat
    var next: nat
    var attempts: nat
    var seen: bool
    var created: bool
    var recon: bool
    var dead: bool
    ghost var Tried: seq<nat>

    ghost function V(): Link
      reads this
    {
      Link(servers, next, attempts, seen, created, recon, dead, Tried)
    }

    ghost predicate Valid()
      reads this
    {
      InList(V())
    }

    constructor (limits: Limits, servers: nat)
      ensures Valid() && V() == NewLink(servers) && this.limits == limits
    {
      this.limits, this.servers := limits, servers;
      next, attempts, seen, created, recon, dead, Tried := 0, 0, false, false, false, false, [];
    }

    /** `ircserver_connect`, up to the look-up of the server: it tries one server of the
        list exactly if no reconnect is waiting. */
    method Connect()
      requires Valid() && next < servers
      modifies this`Tried
      ensures Valid() && V() == Connected(old(V()))
      ensures old(Tried) <= Tried && (|Tried| == |old(Tried)| + 1 <==> !recon) && (Tried == old(Tried) <==> recon)
    {
      if recon {
        return;
      }
      Tried := Tried + [next];
    }

    /** `_ircserver_reconnect`; the timer that calls it is gone by then. A session that gives
        up here has reached its limit and tries nothing more. */
    method OnTimer()
      requires Valid() && servers > 0
      modifies this
      ensures Valid() && V() == Reconnected(old(V()), limits)
      ensures dead && !old(dead) ==> Tried == old(Tried) && 0 < Limit(limits, seen) <= attempts
    {
      Advance();
      var over := UsedUp();
      if over {
        dead := true;
      } else {
        Connect();
      }
    }

    /** The next server, and a new round when there is none left. */
    method Advance()
      requires Valid() && servers > 0
      modifies this`recon, this`next, this`attempts
      ensures Valid() && !recon
      ensures next == After1(old(next), servers) && attempts == old(attempts) + if next == 0 then 1 else 0
    {
      recon := false;
      next := next + 1;
      if next >= servers {
        next := 0;
        attempts := attempts + 1;
      }
    }

    /** The two tests against the limits. */
    method UsedUp() returns (over: bool)
      ensures over == (0 < Limit(limits, seen) <= attempts)
    {
      if limits.maxAttempts != 0 && attempts >= limits.maxAttempts {
        return true;
      }
      return !seen && limits.maxInitAttempts != 0 && attempts >= limits.maxInitAttempts;
    }

    /** `ircserver_close_sock` */
    method CloseSock()
      modifies this`created, this`recon
      ensures !created && !recon
    {
      created, recon := false, false;
    }

    /** `ircserver_connectagain`: the next server is tried at once exactly if there was a
        socket or no reconnect is waiting, and a session that fails from here on lives
        through as many rounds as a new one would from this server. */
    method ConnectAgain()
      requires Valid() && next < servers
      modifies this
      ensures Valid() && !created && next == old(next) && servers == old(servers) && dead == old(dead)
      ensures Tried == old(Tried) + (if old(Reaches(V())) then [next] else [])
      ensures recon == !old(Reaches(V()))
      ensures attempts == 0 && !seen && Budget(V(), limits) == Budget(NewLink(servers).(next := next), limits)
    {
      if created {
        CloseSock();
      }
      seen, attempts := false, 0;
      Connect();
    }

    /** The end of `_ircclient_handle_jump`: the chosen server, or a new one at the end of
        the list, is tried at once exactly if there was a socket or no reconnect is waiting;
        otherwise the reconnect that is waiting will go past it. */
    method JumpTo(j: nat)
      requires Valid() && j <= servers
      modifies this
      ensures Valid() && V() == Jumped(old(V()), j)
      ensures next == j < servers == if j == old(servers) then j + 1 else old(servers)
      ensures Tried == old(Tried) + [j] <==> old(Reaches(V()))
      ensures !old(Reaches(V())) ==> Tried == old(Tried) && recon && Reconnected(V(), limits).next == After1(j, servers)
    {
      if j == servers {
        servers := servers + 1;
      }
      next := j;
      ConnectAgain();
      assert |old(Tried) + [j]| > |old(Tried)|;
    }

    /** The handlers of everything that happens to a connection: whatever fails or is lost,
        the timer that will retry is set; a welcome renews the budget; the next server and
        all tried ones stay in the list, which never shrinks. */
    method Handle(e: Event)
      requires Valid() && Enabled(V(), e)
      modifies this
      ensures Valid() && V() == Step(old(V()), limits, e)
      ensures old(servers) <= servers && old(Tried) <= Tried
      ensures e.LookupFailed? || e.ConnectFailed? || e.Lost? ==> Enabled(V(), Timer) && Tried == old(Tried)
      ensures e.ConnectFailed? || e.Lost? ==> !created
      ensures e.Welcome? ==> created && Budget(V(), limits) == limits.maxAttempts * servers - next
    {
      match e
      case Start => Connect();
      case Timer => OnTimer();
      case LookupFailed => recon := true;
      case SocketMade => created := true;
      case ConnectFailed => created, recon := false, true;
      case Welcome => seen, attempts := true, 0;
      case Lost =>
        CloseSock();
        recon := true;
      case Jump(j) => JumpTo(j);
    }

    /** A whole run: it ends in the state the transition relation gives, with the next
        server and every server tried in the list. */
    method PerformAll(es: seq<Event>)
      requires Valid() && AllEnabled(V(), limits, es)
      modifies this
      ensures Valid() && V() == Run(old(V()), limits, es)
    {
      ghost var s := V();
      var i := 0;
      while i < |es|
        invariant i <= |es| && Valid() && V() == Run(s, limits, es[..i])
      {
        assert es[..i + 1][..i] == es[..i];
        Handle(es[i]);
        i := i + 1;
      }
      assert es[..|es|] == es;
    }

    /** One attempt fails and the timer goes off; a dead session does nothing. */
    method FailRound(atLookup: bool)
      requires Failing()
      modifies this
      ensures Failing() && V() == Round(old(V()), limits, atLookup)
    {
      if dead {
        return;
      }
      if atLookup {
        Handle(LookupFailed);
      } else {
        Handle(SocketMade);
        Handle(ConnectFailed);
      }
      Handle(Timer);
    }

    /** Something was tried, and there is no connection. */
    ghost predicate Failing()
      reads this
    {
      Valid() && servers > 0 && Tried != [] && !created
    }

    method FailRounds(hows: seq<bool>)
      requires Failing()
      modifies this
      ensures Failing() && V() == Rounds(old(V()), limits, hows)
    {
      ghost var s := V();
      var i := 0;
      while i < |hows|
        invariant i <= |hows| && Failing() && V() == Rounds(s, limits, hows[..i])
      {
        assert hows[..i + 1][..i] == hows[..i];
        FailRound(hows[i]);
        i := i + 1;
      }
      assert hows[..|hows|] == hows;
    }
  }

  /** A new session whose attempts all fail, on the object: within its k initial rounds it
      is alive, and with them used up it has tried every server k times and is dead. */
  method AllFail(n: nat, k: nat, hows: seq<bool>) returns (c: ServerLink)
    requires n > 0 && k > 0
    ensures fresh(c) && c.Valid() && (c.dead <==> |hows| >= k * n)
    ensures c.dead ==> |c.Tried| == k * n && forall v: nat :: v < n ==> Count(c.Tried, v) == k
  {
    c := new ServerLink(Limits(0, k), n);
    c.Handle(Start);
    ghost var s := c.V();
    c.FailRounds(hows);
    InitialAttempts(s, n, k, hows, 0);
    forall v: nat | v < n ensures c.dead ==> Count(c.Tried, v) == k {
      InitialAttempts(s, n, k, hows, v);
    }
  }
}
