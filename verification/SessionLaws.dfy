/** What happens to a client's session from its log in to its next one: the outcome of
    every event on a single session, and of a whole log in. */
module SessionLaws {
  import opened Session
  import opened Seqs
  import Match

  // ---- one event ----

  /** The client is gone; the session lives on in its class. */
  predicate LivesOn(w: View, v: View) {
    w == v.(sock := -1, st := v.st.(connected := false, authed := false)) && !w.dead && w.cls != null
  }

  /** Nothing of the client or the class is left. */
  predicate Over(w: View) {
    w.dead && w.sock == -1 && !w.st.connected && !w.st.authed
  }

  /** A session that could go on without its client. */
  predicate Registered(v: View) {
    v.cls != null && v.st.gotNick && v.st.gotUser
  }

  /** A live session with a client. */
  predicate Present(s: State, i: nat) {
    i < |s.vs| && !s.vs[i].dead && s.vs[i].st.connected
  }

  /** When a client that is logged in goes away, its session lives on in its class, unless it
      is to die on close; no other session notices. */
  lemma DetachOutcome(s: State, i: nat)
    requires Present(s, i)
    ensures Enabled(s, Detach(i))
    ensures var t := Step(s, Detach(i));
            && t.cs == s.cs && |t.vs| == |s.vs| && (forall j :: 0 <= j < |s.vs| && j != i ==> t.vs[j] == s.vs[j])
            && if Registered(s.vs[i]) && !s.vs[i].dieOnClose then LivesOn(t.vs[i], s.vs[i]) else Over(t.vs[i])
  {
  }

  /** A session that is dropped, or gives up on its servers, is over and has no class. */
  lemma DropOutcome(s: State, e: Event)
    requires Owned(s) && Enabled(s, e) && (e.Drop? || e.GiveUp?)
    ensures var t := Step(s, e);
            && Over(t.vs[e.i]) && t.vs[e.i].cls == null
            && t.cs == s.cs && |t.vs| == |s.vs| && forall j :: 0 <= j < |s.vs| && j != e.i ==> t.vs[j] == s.vs[j]
  {
    assert Sound(s.vs[e.i], s.cs);
  }

  /** A client that is in time is left alone; one that is not is sent away, and its session
      lives on if it could. */
  lemma TimeOutOutcome(s: State, i: nat, connect: bool, created: bool)
    requires Present(s, i)
    ensures Enabled(s, TimeOut(i, connect, created))
    ensures var t, inTime := Step(s, TimeOut(i, connect, created)), if connect then created else Ready(s.vs[i].st);
            && t.cs == s.cs && |t.vs| == |s.vs| && (forall j :: 0 <= j < |s.vs| && j != i ==> t.vs[j] == s.vs[j])
            && if inTime then t.vs[i] == s.vs[i]
               else if Registered(s.vs[i]) then LivesOn(t.vs[i], s.vs[i]) else Over(t.vs[i])
  {
  }

  /** A session that has lost its nickname while its client is there does not outlive the
      client; without a client it keeps a nickname. */
  lemma LostNickOutcome(s: State, i: nat)
    requires Owned(s) && Enabled(s, LostNick(i))
    ensures var t := Step(s, LostNick(i));
            if s.vs[i].st.connected then Enabled(t, Detach(i)) && Over(Step(t, Detach(i)).vs[i])
            else t == s
  {
    assert Sound(s.vs[i], s.cs);
    var v := s.vs[i];
    if !v.st.connected {
      assert v.st.(gotNick := true) == v.st;
      assert s.vs[i := v] == s.vs;
    }
  }

  /** An expunge removes exactly the dead sessions, and keeps the others in their order. */
  lemma AliveExactly(vs: seq<View>, more: seq<View>, v: View)
    ensures multiset(Alive(vs))[v] == if v.dead then 0 else multiset(vs)[v]
    ensures Alive(vs + more) == Alive(vs) + Alive(more)
  {
    AliveCounted(vs, v);
    AliveInOrder(vs, more);
  }

  lemma {:induction false} AliveCounted(vs: seq<View>, v: View)
    ensures multiset(Alive(vs))[v] == if v.dead then 0 else multiset(vs)[v]
  {
    if vs != [] {
      AliveCounted(vs[1..], v);
      assert vs == [vs[0]] + vs[1..];
      if vs[0].dead {
        assert Alive(vs) == Alive(vs[1..]);
      } else {
        assert Alive(vs) == [vs[0]] + Alive(vs[1..]);
      }
    }
  }

  lemma {:induction false} AliveInOrder(vs: seq<View>, more: seq<View>)
    ensures Alive(vs + more) == Alive(vs) + Alive(more)
  {
    if vs == [] {
      assert vs + more == more;
    } else {
      AliveInOrder(vs[1..], more);
      assert (vs + more)[0] == vs[0] && (vs + more)[1..] == vs[1..] + more;
      Associative(if vs[0].dead then [] else [vs[0]], Alive(vs[1..]), Alive(more));
    }
  }

  /** A client that is logged in cannot log in once more: PASS and USER change nothing, and
      NICK only says that there is a nickname. */
  lemma LoggedInAlready(s: State, m: Event)
    requires (m.GotPass? || m.GotNick? || m.GotUser?) && Enabled(s, m) && s.vs[m.i].st.authed
    ensures Step(s, m) == if !m.GotNick? then s
                          else s.(vs := s.vs[m.i := s.vs[m.i].(st := s.vs[m.i].st.(gotNick := true))])
  {
  }

  // ---- who may use a class ----

  /** Some mask matches. */
  predicate LetIn(masks: seq<string>, name: string) {
    exists i :: 0 <= i < |masks| && Match.CaseMatches(name, masks[i])
  }

  /** The password always has to fit; with a mask list a match of the address is enough, and
      so is one of the host, and nothing else is. */
  lemma WhoMayUse(c: ConnClass, password: string, ip: string, host: string)
    ensures !c.accepts(password) ==> !Permits(c, password, Origin(ip, host))
    ensures c.masks.None? && c.accepts(password) ==> Permits(c, password, Origin(ip, host))
    ensures c.masks.Some? && c.accepts(password) && LetIn(c.masks.value, ip) ==>
              Permits(c, password, Origin(ip, host))
    ensures c.masks.Some? && c.accepts(password) && LetIn(c.masks.value, host) ==>
              Permits(c, password, Origin(ip, host))
    ensures c.masks.Some? && Permits(c, password, Origin(ip, host)) ==>
              LetIn(c.masks.value, ip) || LetIn(c.masks.value, host)
  {
  }

  /** Class k is the first to let the client in. */
  predicate LetsIn(cs: seq<ConnClass>, k: nat, password: string, from: Origin) {
    k < |cs| && Permits(cs[k], password, from) && forall j :: 0 <= j < k ==> !Permits(cs[j], password, from)
  }

  lemma {:induction false} FirstPermits(cs: seq<ConnClass>, password: string, from: Origin, at: nat)
    requires at <= |cs|
    ensures forall j :: at <= j < FirstPermitting(cs, password, from, at) ==> !Permits(cs[j], password, from)
    decreases |cs| - at
  {
    if at < |cs| {
      FirstPermits(cs, password, from, at + 1);
    }
  }

  // ---- a whole log in ----

  /** PASS, NICK and USER of the newest session, in some order. */
  predicate ThreeMessages(ms: seq<Event>, password: string) {
    |ms| == 3 && GotPass(0, password) in ms && GotNick(0) in ms && GotUser(0) in ms
  }

  /** The events from a client's connection to the last of its three messages. */
  function LogIn(sock: int, ip: string, die: bool, host: string, ms: seq<Event>): seq<Event> {
    [Accept(sock, ip, die), Resolved(0, host)] + ms
  }

  /** A newcomer in front of the sessions of s. */
  function Joined(s: State, v: View): State {
    s.(vs := [v] + s.vs)
  }

  /** A client that is connected and waits to be let in. */
  predicate Waits(v: View) {
    !v.dead && v.cls == null && v.st.connected && !v.st.authed
  }

  /** What the session knows after a message of its client. */
  function Heard(v: View, m: Event): View {
    match m
    case GotPass(_, password) => v.(password := password, st := v.st.(gotPass := true))
    case GotNick(_) => v.(st := v.st.(gotNick := true))
    case _ => v.(st := v.st.(gotUser := true))
  }

  function Complete(s: State, v: View): State {
    var r := Authenticated([v] + s.vs, s.cs, 0);
    s.(vs := r[0 := r[0].(st := r[0].st.(gotPass := false))])
  }

  predicate AllHeard(st: Status) {
    st.gotPass && st.gotNick && st.gotUser
  }

  predicate FromNewest(m: Event) {
    (m.GotPass? || m.GotNick? || m.GotUser?) && m.i == 0
  }

  lemma MessageHeard(s: State, v: View, m: Event)
    requires Waits(v) && FromNewest(m)
    ensures Enabled(Joined(s, v), m)
    ensures var w := Heard(v, m);
            Step(Joined(s, v), m) == if AllHeard(w.st) then Complete(s, w) else Joined(s, w)
  {
    var w := Heard(v, m);
    assert ([v] + s.vs)[0] == v && ([v] + s.vs)[0 := w] == [w] + s.vs;
  }

  lemma ClientComes(s: State, sock: int, ip: string, die: bool, host: string)
    requires Free(s.vs, sock)
    ensures var t := Step(s, Accept(sock, ip, die));
            && Enabled(s, Accept(sock, ip, die)) && Enabled(t, Resolved(0, host))
            && Step(t, Resolved(0, host)) == Joined(s, Arrived(sock, ip, die, host))
  {
    var v := View(null, sock, NO_STATUS, false, die, Origin(ip, ""), "");
    var w := Arrived(sock, ip, die, host);
    assert ([v] + s.vs)[0] == v && ([v] + s.vs)[0 := w] == [w] + s.vs;
  }

  function Arrived(sock: int, ip: string, die: bool, host: string): View {
    View(null, sock, NO_STATUS.(connected := true), false, die, Origin(ip, host), "")
  }

  lemma RunStep(s: State, e: Event, es: seq<Event>)
    requires Enabled(s, e)
    ensures AllEnabled(s, [e] + es) <==> AllEnabled(Step(s, e), es)
    ensures AllEnabled(s, [e] + es) ==> Run(s, [e] + es) == Run(Step(s, e), es)
  {
    assert ([e] + es)[0] == e && ([e] + es)[1..] == es;
  }

  /** Before the third message nothing happens to anyone else, whatever the order. */
  lemma MessagesHeard(s: State, v: View, ms: seq<Event>, password: string)
    requires Waits(v) && v.st == NO_STATUS.(connected := true) && ThreeMessages(ms, password)
    ensures AllEnabled(Joined(s, v), ms)
    ensures Run(Joined(s, v), ms)
            == Complete(s, v.(password := password, st := Status(true, true, true, true, false)))
  {
    var a, b, c := ms[0], ms[1], ms[2];
    assert ms == [a] + ([b] + ([c] + []));
    var v1, v2 := ThreeHeard(v, ms, password);
    MessageHeard(s, v, a);
    MessageHeard(s, v1, b);
    MessageHeard(s, v2, c);
    RunStep(Joined(s, v), a, [b] + ([c] + []));
    RunStep(Joined(s, v1), b, [c] + []);
    RunStep(Joined(s, v2), c, []);
  }

  lemma ThreeHeard(v: View, ms: seq<Event>, password: string) returns (v1: View, v2: View)
    requires Waits(v) && v.st == NO_STATUS.(connected := true) && ThreeMessages(ms, password)
    ensures forall k :: 0 <= k < 3 ==> FromNewest(ms[k])
    ensures v1 == Heard(v, ms[0]) && Waits(v1) && !AllHeard(v1.st)
    ensures v2 == Heard(v1, ms[1]) && Waits(v2) && !AllHeard(v2.st)
    ensures Heard(v2, ms[2]) == v.(password := password, st := Status(true, true, true, true, false))
  {
    v1 := Heard(v, ms[0]);
    v2 := Heard(v1, ms[1]);
  }

  /** The client when it has said everything. */
  function Said(sock: int, ip: string, die: bool, host: string, password: string): View {
    View(null, sock, Status(true, true, true, true, false), false, die, Origin(ip, host), password)
  }

  lemma LogInRun(s: State, sock: int, ip: string, die: bool, host: string, password: string, ms: seq<Event>)
    requires Free(s.vs, sock) && ThreeMessages(ms, password)
    ensures AllEnabled(s, LogIn(sock, ip, die, host, ms))
    ensures Run(s, LogIn(sock, ip, die, host, ms)) == Complete(s, Said(sock, ip, die, host, password))
  {
    var a, b := Accept(sock, ip, die), Resolved(0, host);
    ClientComes(s, sock, ip, die, host);
    MessagesHeard(s, Arrived(sock, ip, die, host), ms, password);
    assert LogIn(sock, ip, die, host, ms) == [a] + ([b] + ms);
    RunStep(s, a, [b] + ms);
    RunStep(Step(s, a), b, ms);
  }

  /** All sessions but one, behind the newcomer, are as they were. */
  predicate OthersSame(t: State, s: State, i: int) {
    && t.cs == s.cs && |t.vs| == |s.vs| + 1
    && forall j :: 0 <= j < |s.vs| && j != i ==> t.vs[j + 1] == s.vs[j]
  }

  /** The session v once the client at `sock` has attached to it. */
  function WithClient(v: View, sock: int, ip: string): View {
    v.(sock := sock, st := v.st.(connected := true, authed := true), from := v.from.(ip := ip))
  }

  /** A new session of class c. */
  predicate Begun(w: View, c: ConnClass, sock: int, ip: string, die: bool, host: string, password: string) {
    w == View(c, sock, Status(true, false, true, true, true), false, die || c.disconnectOnDetach,
              Origin(ip, host), password)
  }

  /** Session t holds class k. */
  predicate Holds(s: State, t: nat, k: nat) {
    t < |s.vs| && k < |s.cs| && !s.vs[t].dead && s.vs[t].cls == s.cs[k]
  }

  lemma UpdatedBehind<T>(v: T, vs: seq<T>, t: nat, x: T, y: T, z: T)
    requires t < |vs|
    ensures ([v] + vs)[t + 1 := x][0 := y][0 := z] == [z] + vs[t := x] && ([v] + vs)[t + 1 := x][0 := y][0] == y
  {
  }

  /** What one change to a session and one to the newcomer make of everything. */
  lemma BothChanged(s: State, v: View, t: nat, x: View, y: View)
    requires t < |s.vs| && Authenticated([v] + s.vs, s.cs, 0) == ([v] + s.vs)[t + 1 := x][0 := y]
    ensures var r := Complete(s, v);
            OthersSame(r, s, t) && r.vs[t + 1] == x && r.vs[0] == y.(st := y.st.(gotPass := false))
  {
    var z := y.(st := y.st.(gotPass := false));
    UpdatedBehind(v, s.vs, t, x, y, z);
    SameBehind(Complete(s, v), s, t, x, z);
  }

  lemma SameBehind(r: State, s: State, t: nat, x: View, z: View)
    requires t < |s.vs| && r.cs == s.cs && r.vs == [z] + s.vs[t := x]
    ensures OthersSame(r, s, t) && r.vs[t + 1] == x && r.vs[0] == z
  {
  }

  lemma OneChanged(s: State, v: View, y: View)
    requires Authenticated([v] + s.vs, s.cs, 0) == ([v] + s.vs)[0 := y]
    ensures var r := Complete(s, v); OthersSame(r, s, -1) && r.vs[0] == y.(st := y.st.(gotPass := false))
  {
    var z := y.(st := y.st.(gotPass := false));
    assert ([v] + s.vs)[0 := y][0 := z] == [z] + s.vs;
  }

  lemma RefusedIs(s: State, v: View)
    requires v.cls == null && FirstPermitting(s.cs, v.password, v.from, 0) == |s.cs|
    ensures var r := Complete(s, v); OthersSame(r, s, -1) && Over(r.vs[0])
  {
    OneChanged(s, v, Closed(v));
  }

  lemma {:induction false} NonePermits(cs: seq<ConnClass>, password: string, from: Origin, at: nat)
    requires at <= |cs| && forall j :: at <= j < |cs| ==> !Permits(cs[j], password, from)
    ensures FirstPermitting(cs, password, from, at) == |cs|
    decreases |cs| - at
  {
    if at < |cs| {
      NonePermits(cs, password, from, at + 1);
    }
  }

  lemma BegunIs(s: State, v: View, k: nat)
    requires k < |s.cs| && FirstPermitting(s.cs, v.password, v.from, 0) == k
    requires FetchClass([v] + s.vs, s.cs[k], 0) == |s.vs| + 1
    ensures var r := Complete(s, v);
            && OthersSame(r, s, -1)
            && r.vs[0] == v.(cls := s.cs[k], st := v.st.(authed := true, gotPass := false),
                             dieOnClose := v.dieOnClose || s.cs[k].disconnectOnDetach)
  {
    OneChanged(s, v, Started(v, s.cs[k]));
  }

  /** A client that no class lets in is sent away. */
  lemma LogInRefused(s: State, sock: int, ip: string, die: bool, host: string, password: string, ms: seq<Event>)
    requires Free(s.vs, sock) && ThreeMessages(ms, password)
    requires forall j :: 0 <= j < |s.cs| ==> !Permits(s.cs[j], password, Origin(ip, host))
    ensures AllEnabled(s, LogIn(sock, ip, die, host, ms))
    ensures var t := Run(s, LogIn(sock, ip, die, host, ms)); OthersSame(t, s, -1) && Over(t.vs[0])
  {
    LogInRun(s, sock, ip, die, host, password, ms);
    NonePermits(s.cs, password, Origin(ip, host), 0);
    RefusedIs(s, Said(sock, ip, die, host, password));
  }

  /** A client that is let in by a class nobody holds begins the session of that class. */
  lemma LogInBegins(s: State, sock: int, ip: string, die: bool, host: string, password: string, ms: seq<Event>,
                    k: nat)
    requires Free(s.vs, sock) && ThreeMessages(ms, password) && LetsIn(s.cs, k, password, Origin(ip, host))
    requires forall t: nat :: !Holds(s, t, k)
    ensures AllEnabled(s, LogIn(sock, ip, die, host, ms))
    ensures var t := Run(s, LogIn(sock, ip, die, host, ms));
            OthersSame(t, s, -1) && Begun(t.vs[0], s.cs[k], sock, ip, die, host, password)
  {
    LogInRun(s, sock, ip, die, host, password, ms);
    var v := Said(sock, ip, die, host, password);
    FirstIs(s.cs, k, password, Origin(ip, host));
    NobodyFetched(s, v, k);
    BegunIs(s, v, k);
  }

  lemma FirstIs(cs: seq<ConnClass>, k: nat, password: string, from: Origin)
    requires LetsIn(cs, k, password, from)
    ensures FirstPermitting(cs, password, from, 0) == k
  {
    FirstPermits(cs, password, from, 0);
  }

  lemma NobodyFetched(s: State, v: View, k: nat)
    requires k < |s.cs| && v.cls == null && forall t: nat :: !Holds(s, t, k)
    ensures FetchClass([v] + s.vs, s.cs[k], 0) == |s.vs| + 1
  {
    var t := FetchClass([v] + s.vs, s.cs[k], 0);
    if t < |s.vs| + 1 {
      assert Holds(s, t - 1, k);
    }
  }

  lemma {:induction false} FetchBehind(v: View, vs: seq<View>, c: ConnClass, at: nat)
    requires at <= |vs| && v.cls != c
    ensures FetchClass([v] + vs, c, at + 1) == FetchClass(vs, c, at) + 1
    decreases |vs| - at
  {
    if at < |vs| {
      FetchBehind(v, vs, c, at + 1);
    }
  }

  lemma HolderFetched(s: State, v: View, t: nat, k: nat)
    requires Owned(s) && Holds(s, t, k) && v.cls == null
    ensures FetchClass([v] + s.vs, s.cs[k], 0) == t + 1
  {
    OnlySession(s, s.cs[k], t);
    FetchBehind(v, s.vs, s.cs[k], 0);
  }

  /** A session that lets a new client have its place. */
  predicate GivesWay(v: View, c: ConnClass) {
    !v.st.connected || (c.disconnectExisting && Registered(v))
  }

  /** The newcomer v has said everything, class k lets it in, and session t holds that class. */
  predicate Meets(s: State, v: View, k: nat, t: nat) {
    && Holds(s, t, k) && FirstPermitting(s.cs, v.password, v.from, 0) == k
    && FetchClass([v] + s.vs, s.cs[k], 0) == t + 1
  }

  lemma HolderMet(s: State, v: View, k: nat, t: nat)
    requires Owned(s) && Holds(s, t, k) && LetsIn(s.cs, k, v.password, v.from) && v.cls == null
    ensures Meets(s, v, k, t)
  {
    FirstIs(s.cs, k, v.password, v.from);
    HolderFetched(s, v, t, k);
  }

  lemma AttachesIn(all: seq<View>, c: ConnClass, t: nat)
    requires 0 < t < |all| && FetchClass(all, c, 0) == t && GivesWay(all[t], c)
    ensures Admitted(all, c, 0) == all[t := WithClient(all[t], all[0].sock, all[0].from.ip)][0 := Finished(all[0])]
  {
  }

  lemma ReplacesIn(all: seq<View>, c: ConnClass, t: nat)
    requires 0 < t < |all| && FetchClass(all, c, 0) == t
    requires all[t].st.connected && c.disconnectExisting && !Registered(all[t])
    ensures Admitted(all, c, 0) == all[t := Closed(all[t])][0 := Started(all[0], c)]
  {
  }

  lemma AttachedIs(s: State, v: View, k: nat, t: nat)
    requires Meets(s, v, k, t) && GivesWay(s.vs[t], s.cs[k])
    ensures var r := Complete(s, v);
            OthersSame(r, s, t) && r.vs[t + 1] == WithClient(s.vs[t], v.sock, v.from.ip) && Over(r.vs[0])
  {
    assert ([v] + s.vs)[t + 1] == s.vs[t];
    AttachesIn([v] + s.vs, s.cs[k], t + 1);
    BothChanged(s, v, t, WithClient(s.vs[t], v.sock, v.from.ip), Finished(v));
  }

  lemma CollidesIs(s: State, v: View, k: nat, t: nat)
    requires Meets(s, v, k, t) && v.cls == null && s.vs[t].st.connected && !s.cs[k].disconnectExisting
    ensures var r := Complete(s, v); OthersSame(r, s, -1) && Over(r.vs[0])
  {
    assert ([v] + s.vs)[t + 1] == s.vs[t];
    OneChanged(s, v, Closed(v));
  }

  lemma ReplacedIs(s: State, v: View, k: nat, t: nat)
    requires Meets(s, v, k, t)
    requires s.vs[t].st.connected && s.cs[k].disconnectExisting && !Registered(s.vs[t])
    ensures var r := Complete(s, v);
            && OthersSame(r, s, t) && Over(r.vs[t + 1])
            && r.vs[0] == v.(cls := s.cs[k], st := v.st.(authed := true, gotPass := false),
                             dieOnClose := v.dieOnClose || s.cs[k].disconnectOnDetach)
  {
    assert ([v] + s.vs)[t + 1] == s.vs[t];
    ReplacesIn([v] + s.vs, s.cs[k], t + 1);
    BothChanged(s, v, t, Closed(s.vs[t]), Started(v, s.cs[k]));
  }

  /** A client that is let in by a class whose session has no client, or gives up the one it
      has, gets that session, which is otherwise unchanged; what it came with is over. */
  lemma LogInAttaches(s: State, sock: int, ip: string, die: bool, host: string, password: string, ms: seq<Event>,
                      k: nat, t: nat)
    requires Owned(s) && Free(s.vs, sock) && ThreeMessages(ms, password)
    requires LetsIn(s.cs, k, password, Origin(ip, host)) && Holds(s, t, k) && GivesWay(s.vs[t], s.cs[k])
    ensures AllEnabled(s, LogIn(sock, ip, die, host, ms))
    ensures var r := Run(s, LogIn(sock, ip, die, host, ms));
            OthersSame(r, s, t) && r.vs[t + 1] == WithClient(s.vs[t], sock, ip) && Over(r.vs[0])
  {
    LogInRun(s, sock, ip, die, host, password, ms);
    var v := Said(sock, ip, die, host, password);
    HolderMet(s, v, k, t);
    AttachedIs(s, v, k, t);
  }

  /** A class whose session has a client and does not let another take its place refuses. */
  lemma LogInCollides(s: State, sock: int, ip: string, die: bool, host: string, password: string, ms: seq<Event>,
                      k: nat, t: nat)
    requires Owned(s) && Free(s.vs, sock) && ThreeMessages(ms, password)
    requires LetsIn(s.cs, k, password, Origin(ip, host)) && Holds(s, t, k)
    requires s.vs[t].st.connected && !s.cs[k].disconnectExisting
    ensures AllEnabled(s, LogIn(sock, ip, die, host, ms))
    ensures var r := Run(s, LogIn(sock, ip, die, host, ms)); OthersSame(r, s, -1) && Over(r.vs[0])
  {
    LogInRun(s, sock, ip, die, host, password, ms);
    var v := Said(sock, ip, die, host, password);
    HolderMet(s, v, k, t);
    CollidesIs(s, v, k, t);
  }

  /** A session that could not go on without its client ends when it has to give way, and
      the new client begins another in its class. */
  lemma LogInReplaces(s: State, sock: int, ip: string, die: bool, host: string, password: string, ms: seq<Event>,
                      k: nat, t: nat)
    requires Owned(s) && Free(s.vs, sock) && ThreeMessages(ms, password)
    requires LetsIn(s.cs, k, password, Origin(ip, host)) && Holds(s, t, k)
    requires s.vs[t].st.connected && s.cs[k].disconnectExisting && !Registered(s.vs[t])
    ensures AllEnabled(s, LogIn(sock, ip, die, host, ms))
    ensures var r := Run(s, LogIn(sock, ip, die, host, ms));
            && OthersSame(r, s, t) && Over(r.vs[t + 1])
            && Begun(r.vs[0], s.cs[k], sock, ip, die, host, password)
  {
    LogInRun(s, sock, ip, die, host, password, ms);
    var v := Said(sock, ip, die, host, password);
    HolderMet(s, v, k, t);
    ReplacedIs(s, v, k, t);
  }

  /** What the proxy is for: a client that detaches and logs in again, on whatever socket and
      from wherever its class lets it, is back in its session exactly as it left it. */
  lemma ComesBack(s: State, i: nat, sock: int, ip: string, die: bool, host: string, password: string,
                  ms: seq<Event>, k: nat)
    requires Owned(s) && Present(s, i) && Registered(s.vs[i]) && !s.vs[i].dieOnClose && Holds(s, i, k)
    requires Free(Step(s, Detach(i)).vs, sock) && ThreeMessages(ms, password)
    requires LetsIn(s.cs, k, password, Origin(ip, host))
    ensures AllEnabled(s, [Detach(i)] + LogIn(sock, ip, die, host, ms))
    ensures var r := Run(s, [Detach(i)] + LogIn(sock, ip, die, host, ms));
            && OthersSame(r, s, i) && Over(r.vs[0])
            && r.vs[i + 1] == s.vs[i].(sock := sock, from := s.vs[i].from.(ip := ip))
  {
    var t := Step(s, Detach(i));
    StepOwned(s, Detach(i));
    DetachOutcome(s, i);
    assert Sound(s.vs[i], s.cs);
    LogInAttaches(t, sock, ip, die, host, password, ms, k, i);
    RunStep(s, Detach(i), LogIn(sock, ip, die, host, ms));
    assert WithClient(t.vs[i], sock, ip) == s.vs[i].(sock := sock, from := s.vs[i].from.(ip := ip));
  }
}
