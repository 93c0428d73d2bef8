/** Who owns what: client sockets, sessions and connection classes
    (src/irc_client.c, src/irc_net.c, src/irc_server.c, src/main.c). */
module Session {
  import opened Basics
  import Match

  /** `struct ircconnclass`, as far as logging in goes. `accepts` tells which passwords
      match the stored one: those equal to it, or those `crypt` turns into it. */
  class ConnClass {
    const password: string
    const accepts: string -> bool
    const masks: Option<seq<string>>
    const disconnectExisting: bool
    const disconnectOnDetach: bool

    constructor (password: string, accepts: string -> bool, masks: Option<seq<string>>,
                 disconnectExisting: bool, disconnectOnDetach: bool)
      ensures this.password == password && this.accepts == accepts && this.masks == masks
      ensures this.disconnectExisting == disconnectExisting && this.disconnectOnDetach == disconnectOnDetach
    {
      this.password, this.accepts, this.masks := password, accepts, masks;
      this.disconnectExisting, this.disconnectOnDetach := disconnectExisting, disconnectOnDetach;
    }
  }

  /** The bits of `client_status`, but for the one that says the welcome was sent. */
  datatype Status = Status(connected: bool, gotPass: bool, gotNick: bool, gotUser: bool, authed: bool)

  const NO_STATUS := Status(false, false, false, false, false)

  datatype Origin = Origin(ip: string, host: string)

  /** `struct ircproxy`; a socket of -1 is none. */
  datatype View = View(cls: ConnClass?, sock: int, st: Status, dead: bool, dieOnClose: bool,
                       from: Origin, password: string)

  // ---- one session ----

  /** `ircclient_close` */
  function Closed(v: View): View {
    v.(sock := -1, st := v.st.(connected := false, authed := false),
       dead := v.dead || v.cls == null || !v.st.gotNick || !v.st.gotUser)
  }

  /** Taking the class away and closing: /DIRCPROXY QUIT and KILL, a revoked session. */
  function Dropped(v: View): View {
    Closed(v.(cls := null))
  }

  /** `_ircclient_detach` */
  function Detached(v: View): View {
    if v.dieOnClose then Dropped(v) else Closed(v)
  }

  /** The reconnect timer gives up. */
  function GivenUp(v: View): View {
    (if v.st.connected then Dropped(v) else v.(cls := null)).(dead := true)
  }

  predicate Ready(st: Status) {
    st.connected && st.gotNick && st.gotUser && st.authed
  }

  /** `_ircclient_timedout`; `created` says whether a server socket exists. */
  function TimedOut(v: View, connect: bool, created: bool): View {
    if (connect && created) || (!connect && Ready(v.st)) then v else Closed(v)
  }

  // ---- logging in ----

  predicate Permits(c: ConnClass, password: string, from: Origin) {
    c.accepts(password)
    && (c.masks.None?
        || exists i :: 0 <= i < |c.masks.value|
             && (Match.CaseMatches(from.ip, c.masks.value[i]) || Match.CaseMatches(from.host, c.masks.value[i])))
  }

  /** Index of the first class that lets the client in, or the end. */
  function FirstPermitting(cs: seq<ConnClass>, password: string, from: Origin, at: nat): (i: nat)
    requires at <= |cs|
    ensures at <= i <= |cs| && (i < |cs| ==> Permits(cs[i], password, from))
    decreases |cs| - at
  {
    if at == |cs| || Permits(cs[at], password, from) then at else FirstPermitting(cs, password, from, at + 1)
  }

  /** `ircnet_fetchclass`: index of the first live session of a class, or the end. */
  function FetchClass(vs: seq<View>, c: ConnClass, at: nat): (i: nat)
    requires at <= |vs|
    ensures at <= i <= |vs| && (i < |vs| ==> !vs[i].dead && vs[i].cls == c)
    decreases |vs| - at
  {
    if at == |vs| || (!vs[at].dead && vs[at].cls == c) then at else FetchClass(vs, c, at + 1)
  }

  function Given(v: View, sock: int, ip: string): View {
    v.(sock := sock, st := v.st.(connected := true, authed := true), from := v.from.(ip := ip))
  }

  function Finished(v: View): View {
    v.(sock := -1, st := NO_STATUS, dead := true)
  }

  /** The socket of session i goes to session t, and i is finished with. */
  function Attached(vs: seq<View>, t: nat, i: nat): (r: seq<View>)
    requires t < |vs| && i < |vs|
    ensures |r| == |vs|
  {
    vs[t := Given(vs[t], vs[i].sock, vs[i].from.ip)][i := Finished(vs[i])]
  }

  function Started(v: View, c: ConnClass): View {
    v.(cls := c, st := v.st.(authed := true), dieOnClose := v.dieOnClose || c.disconnectOnDetach)
  }

  /** What becomes of session i once class c lets it in. */
  function Admitted(vs: seq<View>, c: ConnClass, i: nat): (r: seq<View>)
    requires i < |vs|
    ensures |r| == |vs|
  {
    var t := FetchClass(vs, c, 0);
    if t == |vs| then vs[i := Started(vs[i], c)]
    else if !vs[t].st.connected then Attached(vs, t, i)
    else if !c.disconnectExisting then vs[i := Closed(vs[i])]
    else
      var vs' := vs[t := Closed(vs[t])];
      if vs'[t].dead then vs'[i := Started(vs'[i], c)] else Attached(vs', t, i)
  }

  /** `_ircclient_authenticate` for session i */
  function Authenticated(vs: seq<View>, cs: seq<ConnClass>, i: nat): (r: seq<View>)
    requires i < |vs|
    ensures |r| == |vs|
  {
    var k := FirstPermitting(cs, vs[i].password, vs[i].from, 0);
    if k == |cs| then vs[i := Closed(vs[i])] else Admitted(vs, cs[k], i)
  }

  /** The end of `_ircclient_gotmsg`: authenticate once everything is there. */
  function Considered(vs: seq<View>, cs: seq<ConnClass>, i: nat): (r: seq<View>)
    requires i < |vs|
    ensures |r| == |vs|
  {
    var st := vs[i].st;
    if !st.authed && st.gotPass && st.gotNick && st.gotUser then
      var r := Authenticated(vs, cs, i);
      r[i := r[i].(st := r[i].st.(gotPass := false))]
    else vs
  }

  // ---- reload ----

  function FirstWith(cs: seq<ConnClass>, password: string, at: nat): (i: nat)
    requires at <= |cs|
    ensures at <= i <= |cs| && (i < |cs| ==> cs[i].password == password)
    decreases |cs| - at
  {
    if at == |cs| || cs[at].password == password then at else FirstWith(cs, password, at + 1)
  }

  /** A session survives a reload if its class is the first old one with its password and
      some new class has that password; it then belongs to the first such class. */
  function Moved(v: View, olds: seq<ConnClass>, news: seq<ConnClass>): View {
    if v.dead || v.cls == null then v
    else
      var pw := v.cls.password;
      var o, n := FirstWith(olds, pw, 0), FirstWith(news, pw, 0);
      if o < |olds| && olds[o] == v.cls && n < |news| then v.(cls := news[n]) else Dropped(v)
  }

  function AllMoved(vs: seq<View>, olds: seq<ConnClass>, news: seq<ConnClass>): (r: seq<View>)
    ensures |r| == |vs|
  {
    seq(|vs|, i requires 0 <= i < |vs| => Moved(vs[i], olds, news))
  }

  // ---- every event ----

  datatype Event =
    | Accept(sock: int, ip: string, die: bool)
    | Resolved(i: nat, host: string)
    | GotPass(i: nat, password: string)
    | GotNick(i: nat)
    | GotUser(i: nat)
    | LostNick(i: nat)
    | Detach(i: nat)
    | Drop(i: nat)
    | GiveUp(i: nat)
    | TimeOut(i: nat, connect: bool, created: bool)
    | Expunge
    | Reload(classes: seq<ConnClass>)
    | FailedReload

  datatype State = State(vs: seq<View>, cs: seq<ConnClass>)

  function Alive(vs: seq<View>): seq<View> {
    if vs == [] then [] else (if vs[0].dead then [] else [vs[0]]) + Alive(vs[1..])
  }

  predicate Free(vs: seq<View>, sock: int) {
    sock >= 0 && forall i :: 0 <= i < |vs| ==> vs[i].sock != sock
  }

  predicate Unshared(olds: seq<ConnClass>, news: seq<ConnClass>) {
    forall c :: c in news ==> c !in olds
  }

  /** When each event can happen: `accept` returns a descriptor not in use, messages and
      time-outs come while connected, and a reload builds classes of its own. */
  predicate Enabled(s: State, e: Event) {
    match e
    case Accept(sock, _, _) => Free(s.vs, sock)
    case Expunge => true
    case Reload(classes) => Unshared(s.cs, classes)
    case FailedReload => true
    case GiveUp(i) => i < |s.vs| && !s.vs[i].dead && s.vs[i].cls != null
    case Drop(i) => i < |s.vs| && !s.vs[i].dead && s.vs[i].cls != null
    case Resolved(i, _) => i < |s.vs| && !s.vs[i].dead && !s.vs[i].st.connected && s.vs[i].cls == null
    case LostNick(i) => i < |s.vs| && !s.vs[i].dead && s.vs[i].cls != null
    case GotPass(i, _) => i < |s.vs| && !s.vs[i].dead && s.vs[i].st.connected
    case GotNick(i) => i < |s.vs| && !s.vs[i].dead && s.vs[i].st.connected
    case GotUser(i) => i < |s.vs| && !s.vs[i].dead && s.vs[i].st.connected
    case Detach(i) => i < |s.vs| && !s.vs[i].dead && s.vs[i].st.connected
    case TimeOut(i, _, _) => i < |s.vs| && !s.vs[i].dead && s.vs[i].st.connected
  }

  /** One message before log in, after which the client may be authenticated. */
  function Told(s: State, i: nat, v: View): State
    requires i < |s.vs|
  {
    s.(vs := Considered(s.vs[i := v], s.cs, i))
  }

  function Step(s: State, e: Event): State
    requires Enabled(s, e)
  {
    match e
    case Accept(sock, ip, die) =>
      s.(vs := [View(null, sock, NO_STATUS, false, die, Origin(ip, ""), "")] + s.vs)
    case Resolved(i, host) =>
      var v := s.vs[i];
      s.(vs := s.vs[i := v.(st := v.st.(connected := true), from := v.from.(host := host))])
    case GotPass(i, password) =>
      var v := s.vs[i];
      if v.st.authed then s else Told(s, i, v.(password := password, st := v.st.(gotPass := true)))
    case GotNick(i) => Told(s, i, s.vs[i].(st := s.vs[i].st.(gotNick := true)))
    case GotUser(i) =>
      var v := s.vs[i];
      if v.st.authed then s else Told(s, i, v.(st := v.st.(gotUser := true)))
    case LostNick(i) =>
      // without a client a new nickname is made up at once
      var v := s.vs[i];
      s.(vs := s.vs[i := v.(st := v.st.(gotNick := !v.st.connected))])
    case Detach(i) => s.(vs := s.vs[i := Detached(s.vs[i])])
    case Drop(i) => s.(vs := s.vs[i := Dropped(s.vs[i])])
    case GiveUp(i) => s.(vs := s.vs[i := GivenUp(s.vs[i])])
    case TimeOut(i, connect, created) => s.(vs := s.vs[i := TimedOut(s.vs[i], connect, created)])
    case Expunge => s.(vs := Alive(s.vs))
    case Reload(classes) => State(AllMoved(s.vs, s.cs, classes), classes)
    case FailedReload => s
  }

  predicate AllEnabled(s: State, es: seq<Event>)
    decreases |es|
  {
    es == [] || (Enabled(s, es[0]) && AllEnabled(Step(s, es[0]), es[1..]))
  }

  function Run(s: State, es: seq<Event>): State
    requires AllEnabled(s, es)
    decreases |es|
  {
    if es == [] then s else Run(Step(s, es[0]), es[1..])
  }

  // ---- ownership ----

  /** A session: logged in exactly while it has a class and a client; without a client it
      has a class, a nickname, a user and no socket, or it is still being looked up. */
  predicate Sound(v: View, cs: seq<ConnClass>) {
    if v.dead then v.sock == -1
    else
      && (v.cls != null ==> v.cls in cs)
      && (v.st.authed <==> v.st.connected && v.cls != null)
      && (if v.cls != null && !v.st.connected then v.sock == -1 && v.st.gotNick && v.st.gotUser else v.sock >= 0)
  }

  /** Two sessions that do not share a class or a socket. */
  predicate Apart(v: View, w: View) {
    !v.dead && !w.dead ==> (v.cls == null || v.cls != w.cls) && (v.sock == -1 || v.sock != w.sock)
  }

  predicate Owned(s: State) {
    && (forall i :: 0 <= i < |s.vs| ==> Sound(s.vs[i], s.cs))
    && (forall i, j :: 0 <= i < j < |s.vs| ==> Apart(s.vs[i], s.vs[j]))
  }

  lemma ApartBothWays(v: View, w: View)
    ensures Apart(v, w) == Apart(w, v)
  {
  }

  lemma OwnedPair(s: State, i: nat, j: nat)
    requires Owned(s) && i < |s.vs| && j < |s.vs| && i != j
    ensures Apart(s.vs[i], s.vs[j])
  {
  }

  /** A change to one session that takes nothing it did not have. */
  predicate Gives(v: View, w: View) {
    w.dead || (!v.dead && (w.cls == null || w.cls == v.cls) && (w.sock == -1 || w.sock == v.sock))
  }

  lemma OwnedUpdate(s: State, i: nat, w: View)
    requires Owned(s) && i < |s.vs| && Gives(s.vs[i], w) && Sound(w, s.cs)
    ensures Owned(s.(vs := s.vs[i := w]))
  {
  }

  lemma SoundClosed(v: View, cs: seq<ConnClass>)
    requires Sound(v, cs)
    ensures Sound(Closed(v), cs) && Gives(v, Closed(v))
    ensures Sound(Dropped(v), cs) && Dropped(v).dead && Gives(v, Dropped(v))
  {
  }

  /** Session i becomes the session of a class nobody has. */
  lemma OwnedStart(s: State, i: nat, c: ConnClass)
    requires Owned(s) && i < |s.vs| && c in s.cs
    requires var v := s.vs[i]; !v.dead && v.cls == null && v.st.connected
    requires FetchClass(s.vs, c, 0) == |s.vs|
    ensures Owned(s.(vs := s.vs[i := Started(s.vs[i], c)]))
  {
    var w := Started(s.vs[i], c);
    forall j | 0 <= j < |s.vs| && j != i
      ensures Apart(w, s.vs[j]) && Apart(s.vs[j], w)
    {
      OwnedPair(s, i, j);
      NotFetched(s.vs, c, 0, j);
      ApartBothWays(w, s.vs[j]);
    }
  }

  lemma {:induction false} NotFetched(vs: seq<View>, c: ConnClass, at: nat, j: nat)
    requires at <= j < |vs| && FetchClass(vs, c, at) == |vs|
    ensures vs[j].dead || vs[j].cls != c
    decreases |vs| - at
  {
    if at < j {
      NotFetched(vs, c, at + 1, j);
    }
  }

  /** Session i hands its socket to the detached session t. */
  lemma OwnedAttach(s: State, t: nat, i: nat)
    requires Owned(s) && i < |s.vs| && t < |s.vs|
    requires var v := s.vs[i]; !v.dead && v.cls == null && v.st.connected
    requires var v := s.vs[t]; !v.dead && v.cls != null && !v.st.connected
    ensures Owned(s.(vs := Attached(s.vs, t, i)))
  {
  }

  lemma OwnedAuthenticated(s: State, i: nat)
    requires Owned(s) && i < |s.vs|
    requires var v := s.vs[i]; !v.dead && v.cls == null && v.st.connected
    ensures Owned(s.(vs := Authenticated(s.vs, s.cs, i)))
  {
    var k := FirstPermitting(s.cs, s.vs[i].password, s.vs[i].from, 0);
    SoundClosed(s.vs[i], s.cs);
    OwnedUpdate(s, i, Closed(s.vs[i]));
    if k < |s.cs| {
      OwnedAdmitted(s, i, s.cs[k]);
    }
  }

  lemma OwnedAdmitted(s: State, i: nat, c: ConnClass)
    requires Owned(s) && i < |s.vs| && c in s.cs
    requires var v := s.vs[i]; !v.dead && v.cls == null && v.st.connected
    ensures Owned(s.(vs := Admitted(s.vs, c, i)))
  {
    var t := FetchClass(s.vs, c, 0);
    if t == |s.vs| {
      OwnedStart(s, i, c);
    } else if !s.vs[t].st.connected {
      OwnedAttach(s, t, i);
    } else if !c.disconnectExisting {
      SoundClosed(s.vs[i], s.cs);
      OwnedUpdate(s, i, Closed(s.vs[i]));
    } else {
      OwnedCollision(s, i, c, t);
    }
  }

  lemma OwnedCollision(s: State, i: nat, c: ConnClass, t: nat)
    requires Owned(s) && i < |s.vs| && c in s.cs && t == FetchClass(s.vs, c, 0) < |s.vs|
    requires var v := s.vs[i]; !v.dead && v.cls == null && v.st.connected
    ensures var vs' := s.vs[t := Closed(s.vs[t])];
            Owned(s.(vs := if vs'[t].dead then vs'[i := Started(vs'[i], c)] else Attached(vs', t, i)))
  {
    SoundClosed(s.vs[t], s.cs);
    OwnedUpdate(s, t, Closed(s.vs[t]));
    var s' := s.(vs := s.vs[t := Closed(s.vs[t])]);
    if s'.vs[t].dead {
      FetchedOnce(s, t, c);
      OwnedStart(s', i, c);
    } else {
      OwnedAttach(s', t, i);
    }
  }

  /** With the one session of a class dead the class is free. */
  lemma FetchedOnce(s: State, t: nat, c: ConnClass)
    requires Owned(s) && t < |s.vs| && !s.vs[t].dead && s.vs[t].cls == c
    ensures Closed(s.vs[t]).dead ==> FetchClass(s.vs[t := Closed(s.vs[t])], c, 0) == |s.vs|
  {
  }

  lemma OwnedConsidered(s: State, i: nat)
    requires Owned(s) && i < |s.vs| && !s.vs[i].dead && s.vs[i].st.connected
    ensures Owned(s.(vs := Considered(s.vs, s.cs, i)))
  {
    var st := s.vs[i].st;
    if !st.authed && st.gotPass && st.gotNick && st.gotUser {
      OwnedAuthenticated(s, i);
      var s' := s.(vs := Authenticated(s.vs, s.cs, i));
      OwnedUpdate(s', i, s'.vs[i].(st := s'.vs[i].st.(gotPass := false)));
    }
  }

  lemma OwnedTold(s: State, i: nat, v: View)
    requires Owned(s) && i < |s.vs| && Gives(s.vs[i], v) && Sound(v, s.cs) && !v.dead && v.st.connected
    ensures Owned(Told(s, i, v))
  {
    OwnedUpdate(s, i, v);
    OwnedConsidered(s.(vs := s.vs[i := v]), i);
  }

  lemma OwnedAccept(s: State, v: View)
    requires Owned(s) && Free(s.vs, v.sock) && v.cls == null && !v.dead && v.st == NO_STATUS
    ensures Owned(s.(vs := [v] + s.vs))
  {
  }

  /** Every element that is left was there, in the same order. */
  lemma {:induction false} AliveFrom(vs: seq<View>, i: nat, j: nat) returns (k: nat, l: nat)
    requires i <= j < |Alive(vs)|
    ensures k <= l < |vs| && Alive(vs)[i] == vs[k] && Alive(vs)[j] == vs[l] && (i < j ==> k < l)
    ensures !vs[k].dead
  {
    if vs[0].dead {
      k, l := AliveFrom(vs[1..], i, j);
      k, l := k + 1, l + 1;
    } else if i > 0 {
      assert Alive(vs) == [vs[0]] + Alive(vs[1..]);
      k, l := AliveFrom(vs[1..], i - 1, j - 1);
      k, l := k + 1, l + 1;
    } else {
      k := 0;
      assert Alive(vs) == [vs[0]] + Alive(vs[1..]);
      if j == 0 {
        l := 0;
      } else {
        var m;
        m, l := AliveFrom(vs[1..], j - 1, j - 1);
        l := l + 1;
      }
    }
  }

  lemma OwnedExpunge(s: State)
    requires Owned(s)
    ensures Owned(s.(vs := Alive(s.vs)))
  {
    var vs := Alive(s.vs);
    forall i | 0 <= i < |vs| ensures Sound(vs[i], s.cs) {
      var k, l := AliveFrom(s.vs, i, i);
    }
    forall i, j | 0 <= i < j < |vs| ensures Apart(vs[i], vs[j]) {
      var k, l := AliveFrom(s.vs, i, j);
    }
  }

  lemma MovedApart(v: View, w: View, olds: seq<ConnClass>, news: seq<ConnClass>)
    requires Apart(v, w)
    ensures Apart(Moved(v, olds, news), Moved(w, olds, news))
  {
  }

  lemma MovedSound(v: View, olds: seq<ConnClass>, news: seq<ConnClass>)
    requires Sound(v, olds)
    ensures Sound(Moved(v, olds, news), news)
  {
  }

  lemma OwnedReload(s: State, news: seq<ConnClass>)
    requires Owned(s)
    ensures Owned(State(AllMoved(s.vs, s.cs, news), news))
  {
    forall i | 0 <= i < |s.vs| ensures Sound(AllMoved(s.vs, s.cs, news)[i], news) {
      MovedSound(s.vs[i], s.cs, news);
    }
    forall i, j | 0 <= i < j < |s.vs|
      ensures Apart(AllMoved(s.vs, s.cs, news)[i], AllMoved(s.vs, s.cs, news)[j])
    {
      MovedApart(s.vs[i], s.vs[j], s.cs, news);
    }
  }

  /** Every event keeps ownership. */
  lemma StepOwned(s: State, e: Event)
    requires Owned(s) && Enabled(s, e)
    ensures Owned(Step(s, e))
  {
    match e
    case Accept(sock, ip, die) =>
      OwnedAccept(s, View(null, sock, NO_STATUS, false, die, Origin(ip, ""), ""));
    case Expunge => OwnedExpunge(s);
    case Reload(classes) => OwnedReload(s, classes);
    case FailedReload =>
    case _ => OneOwned(s, e, e.i);
  }

  lemma OneOwned(s: State, e: Event, i: nat)
    requires Owned(s) && Enabled(s, e)
    requires !e.Accept? && !e.Expunge? && !e.Reload? && !e.FailedReload? && i == e.i
    ensures Owned(Step(s, e))
  {
    var v := s.vs[i];
    SoundClosed(v, s.cs);
    match e
    case Resolved(_, host) =>
      OwnedUpdate(s, i, v.(st := v.st.(connected := true), from := v.from.(host := host)));
    case GotPass(_, password) =>
      if !v.st.authed {
        OwnedTold(s, i, v.(password := password, st := v.st.(gotPass := true)));
      }
    case GotNick(_) => OwnedTold(s, i, v.(st := v.st.(gotNick := true)));
    case GotUser(_) =>
      if !v.st.authed {
        OwnedTold(s, i, v.(st := v.st.(gotUser := true)));
      }
    case LostNick(_) => OwnedUpdate(s, i, v.(st := v.st.(gotNick := !v.st.connected)));
    case Detach(_) => OwnedUpdate(s, i, Detached(v));
    case Drop(_) => OwnedUpdate(s, i, Dropped(v));
    case GiveUp(_) => OwnedUpdate(s, i, GivenUp(v));
    case TimeOut(_, connect, created) => OwnedUpdate(s, i, TimedOut(v, connect, created));
  }

  /** Over every run no class has two sessions, no client socket has two, and no session
      holds a class that is not configured. */
  lemma {:induction false} RunOwned(s: State, es: seq<Event>)
    requires Owned(s) && AllEnabled(s, es)
    ensures Owned(Run(s, es))
    decreases |es|
  {
    if es != [] {
      StepOwned(s, es[0]);
      RunOwned(Step(s, es[0]), es[1..]);
    }
  }

  // ---- what logging in and reloading do ----

  lemma FirstWithIs(cs: seq<ConnClass>, c: ConnClass, at: nat)
    requires at <= |cs| && c in cs[at..]
    ensures FirstWith(cs, c.password, at) < |cs|
    decreases |cs| - at
  {
    if cs[at].password != c.password {
      FirstWithIs(cs, c, at + 1);
    }
  }

  /** The first configured class with its password. */
  predicate IsFirst(cs: seq<ConnClass>, c: ConnClass) {
    var i := FirstWith(cs, c.password, 0);
    i < |cs| && cs[i] == c
  }

  /** After a reload a session that still has a class has a new one with the password of
      its old one, and nothing else about it has changed; every other live session that
      had a class is gone. It survives exactly when its class was the first configured
      with that password and the password is still configured. */
  lemma ReloadOutcome(s: State, news: seq<ConnClass>, i: nat)
    requires Owned(s) && i < |s.vs| && !s.vs[i].dead && s.vs[i].cls != null
    ensures var v, w := s.vs[i], AllMoved(s.vs, s.cs, news)[i];
            && (!w.dead ==> w.cls != null && w.cls in news && w.cls.password == v.cls.password && w == v.(cls := w.cls))
            && (w.dead ==> w.cls == null && w.sock == -1 && !w.st.connected)
            && (!w.dead <==> IsFirst(s.cs, v.cls) && exists c :: c in news && c.password == v.cls.password)
  {
    var v := s.vs[i];
    FirstWithIs(s.cs, v.cls, 0);
    var n := FirstWith(news, v.cls.password, 0);
    if c :| c in news && c.password == v.cls.password {
      FirstWithIs(news, c, 0);
      assert news[n].password == v.cls.password;
    }
  }

  /** Logging in ends in one of two ways: refused, with nothing else changed; or the
      client's socket belongs to the one session of the class that let it in, which is
      the session the class had unless that one did not survive being disconnected. */
  lemma LoginOutcome(s: State, i: nat)
    requires Owned(s) && i < |s.vs|
    requires var v := s.vs[i]; !v.dead && v.cls == null && v.st.connected
    ensures var r := Authenticated(s.vs, s.cs, i);
            var k := FirstPermitting(s.cs, s.vs[i].password, s.vs[i].from, 0);
            var refused := k == |s.cs| || Refuses(s.vs, s.cs[k]);
            && (refused ==> r[i].dead && r == s.vs[i := r[i]])
            && (!refused ==>
                  var t, j := FetchClass(s.vs, s.cs[k], 0), FetchClass(r, s.cs[k], 0);
                  && j < |r| && r[j].sock == s.vs[i].sock && Linked(r[j].st)
                  && (t < |r| && !Closed(s.vs[t]).dead ==> j == t && r[i].dead)
                  && (t < |r| && Closed(s.vs[t]).dead ==> j == i && r[t].dead))
  {
    var k := FirstPermitting(s.cs, s.vs[i].password, s.vs[i].from, 0);
    if k < |s.cs| && !Refuses(s.vs, s.cs[k]) {
      OwnedAuthenticated(s, i);
      AdmittedOwner(s, i, s.cs[k]);
    }
  }

  predicate Linked(st: Status) {
    st.connected && st.authed
  }

  /** The class has a client and does not let another take its place. */
  predicate Refuses(vs: seq<View>, c: ConnClass) {
    var t := FetchClass(vs, c, 0);
    t < |vs| && vs[t].st.connected && !c.disconnectExisting
  }

  lemma AdmittedOwner(s: State, i: nat, c: ConnClass)
    requires Owned(s) && i < |s.vs| && !Refuses(s.vs, c)
    requires var v := s.vs[i]; !v.dead && v.cls == null && v.st.connected
    requires Owned(s.(vs := Admitted(s.vs, c, i)))
    ensures var r, t := Admitted(s.vs, c, i), FetchClass(s.vs, c, 0);
            var j := FetchClass(r, c, 0);
            && j < |r| && r[j].sock == s.vs[i].sock && Linked(r[j].st)
            && (t < |r| && !Closed(s.vs[t]).dead ==> j == t && r[i].dead)
            && (t < |r| && Closed(s.vs[t]).dead ==> j == i && r[t].dead)
  {
    var r, t := Admitted(s.vs, c, i), FetchClass(s.vs, c, 0);
    var owner := if t < |r| && !Closed(s.vs[t]).dead then t else i;
    assert !r[owner].dead && r[owner].cls == c;
    OnlySession(s.(vs := r), c, owner);
  }

  lemma OnlySession(s: State, c: ConnClass, j: nat)
    requires Owned(s) && j < |s.vs| && !s.vs[j].dead && s.vs[j].cls == c
    ensures FetchClass(s.vs, c, 0) == j
  {
    var t := FetchClass(s.vs, c, 0);
    FetchFinds(s.vs, c, 0, j);
    if t != j {
      OwnedPair(s, t, j);
    }
  }

  lemma {:induction false} FetchFinds(vs: seq<View>, c: ConnClass, at: nat, j: nat)
    requires at <= j < |vs| && !vs[j].dead && vs[j].cls == c
    ensures FetchClass(vs, c, at) < |vs|
    decreases |vs| - at
  {
    if at < j {
      FetchFinds(vs, c, at + 1, j);
    }
  }

  // ---- the two loops of a reload ----

  /** A session after the first k new classes were looked at. */
  function PartMoved(v: View, olds: seq<ConnClass>, news: seq<ConnClass>, k: nat): View
    requires k <= |news|
  {
    if v.dead || v.cls == null then v
    else
      var n := FirstWith(news, v.cls.password, 0);
      if IsFirst(olds, v.cls) && n < k then v.(cls := news[n]) else v
  }

  function AllPartMoved(vs: seq<View>, olds: seq<ConnClass>, news: seq<ConnClass>, k: nat): (r: seq<View>)
    requires k <= |news|
    ensures |r| == |vs|
  {
    seq(|vs|, i requires 0 <= i < |vs| => PartMoved(vs[i], olds, news, k))
  }

  /** A session not moved so far moves at k exactly if its class is the one found there. */
  lemma MovesAt(v: View, olds: seq<ConnClass>, news: seq<ConnClass>, k: nat)
    requires k < |news| && Unshared(olds, news) && Sound(v, olds)
    ensures var w, w' := PartMoved(v, olds, news, k), PartMoved(v, olds, news, k + 1);
            var o := FirstWith(olds, news[k].password, 0);
            w' == if o < |olds| && !w.dead && w.cls == olds[o] then w.(cls := news[k]) else w
  {
    if !v.dead && v.cls != null {
      if v.cls.password == news[k].password {
        FirstWithUpTo(news, 0, k);
      } else {
        NotYetFirst(news, v.cls.password, k);
      }
    }
  }

  lemma NotYetFirst(cs: seq<ConnClass>, password: string, k: nat)
    requires k < |cs| && cs[k].password != password
    ensures FirstWith(cs, password, 0) != k
  {
  }

  lemma {:induction false} FirstWithUpTo(cs: seq<ConnClass>, at: nat, k: nat)
    requires at <= k < |cs|
    ensures FirstWith(cs, cs[k].password, at) <= k
    decreases k - at
  {
    if at < k {
      FirstWithUpTo(cs, at + 1, k);
    }
  }

  /** The live session of the first old class with this password changes over. */
  function MatchedOne(vs: seq<View>, olds: seq<ConnClass>, c: ConnClass): seq<View> {
    var o := FirstWith(olds, c.password, 0);
    if o == |olds| then vs
    else var t := FetchClass(vs, olds[o], 0); if t == |vs| then vs else vs[t := vs[t].(cls := c)]
  }

  lemma MoveStep(s: State, news: seq<ConnClass>, k: nat)
    requires Owned(s) && Unshared(s.cs, news) && k < |news|
    ensures AllPartMoved(s.vs, s.cs, news, k + 1) == MatchedOne(AllPartMoved(s.vs, s.cs, news, k), s.cs, news[k])
  {
    var o := FirstWith(s.cs, news[k].password, 0);
    var w, w' := AllPartMoved(s.vs, s.cs, news, k), AllPartMoved(s.vs, s.cs, news, k + 1);
    forall i | 0 <= i < |w|
      ensures w'[i] == if o < |s.cs| && !w[i].dead && w[i].cls == s.cs[o] then w[i].(cls := news[k]) else w[i]
    {
      MovesAt(s.vs[i], s.cs, news, k);
    }
    if o < |s.cs| {
      var t := FetchClass(w, s.cs[o], 0);
      forall i | 0 <= i < |w| && i != t ensures w'[i] == w[i] {
        if !w[i].dead && w[i].cls == s.cs[o] {
          FetchFinds(w, s.cs[o], 0, i);
          OwnedPair(s, i, t);
        }
      }
    }
  }

  /** A session after the killing loop has looked at the first k old classes. */
  function PartKilled(w: View, olds: seq<ConnClass>, k: nat): View
    requires k <= |olds|
  {
    if !w.dead && w.cls != null && w.cls in olds[..k] then Dropped(w) else w
  }

  function AllPartKilled(ws: seq<View>, olds: seq<ConnClass>, k: nat): (r: seq<View>)
    requires k <= |olds|
    ensures |r| == |ws|
  {
    seq(|ws|, i requires 0 <= i < |ws| => PartKilled(ws[i], olds, k))
  }

  lemma KillsAt(w: View, olds: seq<ConnClass>, k: nat)
    requires k < |olds|
    ensures var x := PartKilled(w, olds, k);
            PartKilled(w, olds, k + 1) == if !x.dead && x.cls == olds[k] then Dropped(x) else x
  {
  }

  predicate AllApart(vs: seq<View>) {
    forall i, j :: 0 <= i < j < |vs| ==> Apart(vs[i], vs[j])
  }

  /** The first live session of the class is dropped, if there is one. */
  function KilledOne(vs: seq<View>, c: ConnClass): seq<View> {
    var t := FetchClass(vs, c, 0);
    if t == |vs| then vs else vs[t := Dropped(vs[t])]
  }

  lemma KillStep(ws: seq<View>, olds: seq<ConnClass>, k: nat)
    requires k < |olds|
    requires AllApart(ws)
    ensures AllPartKilled(ws, olds, k + 1) == KilledOne(AllPartKilled(ws, olds, k), olds[k])
  {
    var x, y := AllPartKilled(ws, olds, k), AllPartKilled(ws, olds, k + 1);
    var t := FetchClass(x, olds[k], 0);
    forall i | 0 <= i < |x| ensures y[i] == if i == t then Dropped(x[i]) else x[i] {
      KillsAt(ws[i], olds, k);
      if t < |x| && i != t {
        ApartBothWays(ws[i], ws[t]);
        assert i < t ==> Apart(ws[i], ws[t]);
      }
      if !x[i].dead && x[i].cls == olds[k] {
        FetchFinds(x, olds[k], 0, i);
      }
    }
  }

  lemma BothLoops(v: View, olds: seq<ConnClass>, news: seq<ConnClass>)
    requires Sound(v, olds) && Unshared(olds, news)
    ensures PartKilled(PartMoved(v, olds, news, |news|), olds, |olds|) == Moved(v, olds, news)
  {
    assert olds[..|olds|] == olds;
  }

  lemma NothingMoved(vs: seq<View>, olds: seq<ConnClass>, news: seq<ConnClass>)
    ensures AllPartMoved(vs, olds, news, 0) == vs
  {
  }

  lemma NothingKilled(ws: seq<View>, olds: seq<ConnClass>)
    ensures AllPartKilled(ws, olds, 0) == ws
  {
  }

  lemma LoopsReload(s: State, news: seq<ConnClass>)
    requires Owned(s) && Unshared(s.cs, news)
    ensures AllPartKilled(AllPartMoved(s.vs, s.cs, news, |news|), s.cs, |s.cs|) == AllMoved(s.vs, s.cs, news)
  {
    forall i | 0 <= i < |s.vs|
      ensures PartKilled(PartMoved(s.vs[i], s.cs, news, |news|), s.cs, |s.cs|) == Moved(s.vs[i], s.cs, news)
    {
      BothLoops(s.vs[i], s.cs, news);
    }
  }

  lemma PartMovedApart(s: State, news: seq<ConnClass>)
    requires Owned(s) && Unshared(s.cs, news)
    ensures AllApart(AllPartMoved(s.vs, s.cs, news, |news|))
  {
    var ws := AllPartMoved(s.vs, s.cs, news, |news|);
    forall i, j | 0 <= i < j < |ws| ensures Apart(ws[i], ws[j]) {
      MovedPartApart(s, news, i, j);
    }
  }

  lemma MovedPartApart(s: State, news: seq<ConnClass>, i: nat, j: nat)
    requires Owned(s) && Unshared(s.cs, news) && i < j < |s.vs|
    ensures var w := AllPartMoved(s.vs, s.cs, news, |news|); Apart(w[i], w[j])
  {
  }
}
