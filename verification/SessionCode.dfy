/** The code behind `Session`, on objects that are changed in place. */
module SessionCode {
  import opened Session
  import opened SessionLaws
  import Match

  class IrcProxy {
    var connClass: ConnClass?
    var clientSock: int
    var clientStatus: Status
    var dead: bool
    var dieOnClose: bool
    var from: Origin
    var password: string

    function V(): View
      reads this
    {
      View(connClass, clientSock, clientStatus, dead, dieOnClose, from, password)
    }

    constructor (sock: int, ip: string, die: bool)
      ensures V() == View(null, sock, NO_STATUS, false, die, Origin(ip, ""), "")
    {
      connClass, clientSock, clientStatus := null, sock, NO_STATUS;
      dead, dieOnClose, from, password := false, die, Origin(ip, ""), "";
    }

    /** `ircclient_close`: a session that can go on without its client does. */
    method Close()
      modifies this
      ensures V() == Closed(old(V()))
      ensures !old(dead) ==> if old(Registered(V())) then LivesOn(V(), old(V())) else Over(V())
    {
      clientSock := -1;
      clientStatus := clientStatus.(connected := false, authed := false);
      if connClass == null || !clientStatus.gotNick || !clientStatus.gotUser {
        dead := true;
      }
    }

    /** /DIRCPROXY QUIT, /DIRCPROXY KILL and a session lost in a reload */
    method Drop()
      modifies this
      ensures V() == Dropped(old(V()))
      ensures Over(V()) && connClass == null
    {
      connClass := null;
      Close();
    }

    /** `_ircclient_detach`: the session lives on in its class, unless it is to die on close. */
    method Detach()
      modifies this
      ensures V() == Detached(old(V()))
      ensures !old(dead) ==> if old(Registered(V())) && !dieOnClose then LivesOn(V(), old(V())) else Over(V())
    {
      if dieOnClose {
        connClass := null;
      }
      Close();
    }

    /** `_ircserver_reconnect` when the attempts are used up */
    method GiveUp()
      modifies this
      ensures V() == GivenUp(old(V()))
      ensures dead && connClass == null && !clientStatus.connected && (old(clientStatus.connected) ==> clientSock == -1)
    {
      connClass := null;
      if clientStatus.connected {
        Close();
      }
      dead := true;
    }

    /** `_ircclient_timedout` */
    method TimeOut(connect: bool, created: bool)
      modifies this
      ensures V() == TimedOut(old(V()), connect, created)
    {
      var st := clientStatus;
      if connect && created {
        return;
      } else if !connect && st.connected && st.gotNick && st.gotUser && st.authed {
        return;
      }
      Close();
    }

    /** A detached session gets a client. */
    method TakeSocket(sock: int, ip: string)
      modifies this
      ensures V() == Given(old(V()), sock, ip)
    {
      clientSock := sock;
      clientStatus := clientStatus.(connected := true, authed := true);
      from := from.(ip := ip);
    }

    /** A session whose client now has another. */
    method Finish()
      modifies this
      ensures V() == Finished(old(V()))
    {
      clientStatus, clientSock, dead := NO_STATUS, -1, true;
    }

    /** `_ircclient_connected2` */
    method Connect(host: string)
      modifies this
      ensures V() == old(V()).(st := old(V()).st.(connected := true), from := old(V()).from.(host := host))
    {
      from := from.(host := host);
      clientStatus := clientStatus.(connected := true);
    }

    /** 433 with no nickname left to fall back on */
    method LoseNick()
      modifies this
      ensures V() == old(V()).(st := old(V()).st.(gotNick := !old(V()).st.connected))
    {
      clientStatus := clientStatus.(gotNick := false);
      if !clientStatus.connected {
        clientStatus := clientStatus.(gotNick := true);
      }
    }
  }

  function ViewsOf(ps: seq<IrcProxy>): (vs: seq<View>)
    reads ps
    ensures |vs| == |ps| && forall i :: 0 <= i < |ps| ==> vs[i] == ps[i].V()
  {
    seq(|ps|, i requires 0 <= i < |ps| reads ps => ps[i].V())
  }

  predicate Different(ps: seq<IrcProxy>) {
    forall i, j :: 0 <= i < j < |ps| ==> ps[i] != ps[j]
  }

  class IrcNet {
    var proxies: seq<IrcProxy>
    var connclasses: seq<ConnClass>

    ghost predicate Valid()
      reads this
    {
      Different(proxies)
    }

    ghost function Views(): seq<View>
      reads this, proxies
    {
      ViewsOf(proxies)
    }

    ghost function Whole(): State
      reads this, proxies
    {
      State(Views(), connclasses)
    }

    /** `ircnet_fetchclass` */
    method Fetch(c: ConnClass) returns (i: nat)
      ensures i <= |proxies| && i == FetchClass(Views(), c, 0)
    {
      i := 0;
      while i < |proxies|
        invariant i <= |proxies| && FetchClass(Views(), c, i) == FetchClass(Views(), c, 0)
      {
        if !proxies[i].dead && proxies[i].connClass == c {
          return;
        }
        i := i + 1;
      }
    }

    /** `ircnet_hooksocket` and `_ircnet_acceptclient`: the new session comes first. */
    method Accept(sock: int, ip: string, die: bool)
      requires Valid()
      modifies this`proxies
      ensures Valid() && proxies != [] && fresh(proxies[0]) && proxies[1..] == old(proxies)
      ensures Views() == [View(null, sock, NO_STATUS, false, die, Origin(ip, ""), "")] + old(Views())
    {
      var p := new IrcProxy(sock, ip, die);
      assert p !in proxies;
      assert ViewsOf(proxies) == old(Views());
      ConsViews(p, proxies);
      proxies := [p] + proxies;
    }

    /** The test inside the search loop of `_ircclient_authenticate` */
    method MayUse(c: ConnClass, password: string, from: Origin) returns (ok: bool)
      ensures ok == Permits(c, password, from)
    {
      if !c.accepts(password) {
        return false;
      }
      if c.masks.None? {
        return true;
      }
      var m := 0;
      while m < |c.masks.value|
        invariant m <= |c.masks.value|
        invariant forall i :: 0 <= i < m ==> !(Match.CaseMatches(from.ip, c.masks.value[i])
                                               || Match.CaseMatches(from.host, c.masks.value[i]))
      {
        if Match.CaseMatches(from.ip, c.masks.value[m]) || Match.CaseMatches(from.host, c.masks.value[m]) {
          return true;
        }
        m := m + 1;
      }
      return false;
    }

    /** The search loop of `_ircclient_authenticate` */
    method FindClass(password: string, from: Origin) returns (k: nat)
      ensures k <= |connclasses| && k == FirstPermitting(connclasses, password, from, 0)
    {
      k := 0;
      while k < |connclasses|
        invariant k <= |connclasses|
        invariant FirstPermitting(connclasses, password, from, k) == FirstPermitting(connclasses, password, from, 0)
      {
        var ok := MayUse(connclasses[k], password, from);
        if ok {
          return;
        }
        k := k + 1;
      }
    }

    /** `_ircclient_authenticate` */
    method Authenticate(i: nat)
      requires Valid() && i < |proxies| && proxies[i].connClass == null
      modifies proxies
      ensures Views() == Authenticated(old(Views()), connclasses, i)
    {
      var k := FindClass(proxies[i].password, proxies[i].from);
      if k < |connclasses| {
        Admit(i, connclasses[k]);
      } else {
        CloseOne(i);
      }
    }

    method CloseOne(i: nat)
      requires Valid() && i < |proxies|
      modifies proxies[i]
      ensures Views() == old(Views())[i := Closed(old(Views())[i])]
    {
      proxies[i].Close();
    }

    /** The socket goes to the old session. */
    method HandOver(t: nat, i: nat)
      requires Valid() && i < |proxies| && t < |proxies| && t != i
      modifies proxies[i], proxies[t]
      ensures Views() == Attached(old(Views()), t, i)
    {
      GiveSocket(t, proxies[i].clientSock, proxies[i].from.ip);
      FinishOne(i);
    }

    method GiveSocket(t: nat, sock: int, ip: string)
      requires Valid() && t < |proxies|
      modifies proxies[t]
      ensures Views() == old(Views())[t := Given(old(Views())[t], sock, ip)]
    {
      proxies[t].TakeSocket(sock, ip);
    }

    method FinishOne(i: nat)
      requires Valid() && i < |proxies|
      modifies proxies[i]
      ensures Views() == old(Views())[i := Finished(old(Views())[i])]
    {
      proxies[i].Finish();
    }

    method Start(i: nat, cc: ConnClass)
      requires Valid() && i < |proxies|
      modifies proxies[i]
      ensures Views() == old(Views())[i := Started(old(Views())[i], cc)]
    {
      var p := proxies[i];
      p.connClass := cc;
      p.clientStatus := p.clientStatus.(authed := true);
      if cc.disconnectOnDetach {
        p.dieOnClose := true;
      }
    }

    method Admit(i: nat, cc: ConnClass)
      requires Valid() && i < |proxies| && proxies[i].connClass == null
      modifies proxies
      ensures Views() == Admitted(old(Views()), cc, i)
    {
      var t := Fetch(cc);
      var attach := t < |proxies|;
      if attach && proxies[t].clientStatus.connected {
        if !cc.disconnectExisting {
          CloseOne(i);
          return;
        }
        CloseOne(t);
        attach := !proxies[t].dead;
      }
      if attach {
        HandOver(t, i);
      } else {
        Start(i, cc);
      }
    }

    /** The end of `_ircclient_gotmsg` */
    method Consider(i: nat)
      requires Valid() && i < |proxies| && (proxies[i].clientStatus.authed || proxies[i].connClass == null)
      modifies proxies
      ensures Views() == Considered(old(Views()), connclasses, i)
    {
      var st := proxies[i].clientStatus;
      if !st.authed && st.gotPass && st.gotNick && st.gotUser {
        Authenticate(i);
        SetStatus(i, proxies[i].clientStatus.(gotPass := false));
      }
    }

    method SetStatus(i: nat, st: Status)
      requires Valid() && i < |proxies|
      modifies proxies[i]
      ensures Views() == old(Views())[i := old(Views())[i].(st := st)]
    {
      proxies[i].clientStatus := st;
    }

    /** PASS */
    method TellPass(i: nat, password: string)
      requires Valid() && i < |proxies| && (proxies[i].clientStatus.authed || proxies[i].connClass == null)
      modifies proxies
      ensures var v := old(Views())[i];
              Views() == if v.st.authed then old(Views())
                         else Considered(old(Views())[i := v.(password := password, st := v.st.(gotPass := true))],
                                         connclasses, i)
    {
      if !proxies[i].clientStatus.authed {
        SetPassword(i, password);
        Consider(i);
      }
    }

    method SetPassword(i: nat, password: string)
      requires Valid() && i < |proxies|
      modifies proxies[i]
      ensures var v := old(Views())[i];
              Views() == old(Views())[i := v.(password := password, st := v.st.(gotPass := true))]
    {
      var p := proxies[i];
      p.password, p.clientStatus := password, p.clientStatus.(gotPass := true);
    }

    /** NICK */
    method TellNick(i: nat)
      requires Valid() && i < |proxies| && (proxies[i].clientStatus.authed || proxies[i].connClass == null)
      modifies proxies
      ensures var v := old(Views())[i];
              Views() == Considered(old(Views())[i := v.(st := v.st.(gotNick := true))], connclasses, i)
    {
      SetStatus(i, proxies[i].clientStatus.(gotNick := true));
      Consider(i);
    }

    /** USER */
    method TellUser(i: nat)
      requires Valid() && i < |proxies| && (proxies[i].clientStatus.authed || proxies[i].connClass == null)
      modifies proxies
      ensures var v := old(Views())[i];
              Views() == if v.st.authed then old(Views())
                         else Considered(old(Views())[i := v.(st := v.st.(gotUser := true))], connclasses, i)
    {
      if !proxies[i].clientStatus.authed {
        SetStatus(i, proxies[i].clientStatus.(gotUser := true));
        Consider(i);
      }
    }

    /** `ircnet_expunge_proxies` */
    method Expunge()
      requires Valid()
      modifies this`proxies
      ensures Valid() && Views() == Alive(old(Views()))
      ensures proxies == Living(old(proxies)) && forall k :: 0 <= k < |proxies| ==> proxies[k] in old(proxies)
    {
      var kept := Unlinked();
      assert ViewsOf(proxies) == old(Views());
      LivingIs(proxies);
      proxies := kept;
    }

    method Unlinked() returns (kept: seq<IrcProxy>)
      ensures kept == Living(proxies)
    {
      kept := [];
      var i := 0;
      while i < |proxies|
        invariant i <= |proxies|
        invariant kept + Living(proxies[i..]) == Living(proxies)
      {
        var p := proxies[i];
        LivingStep(kept, proxies, i);
        if !p.dead {
          kept := kept + [p];
        }
        i := i + 1;
      }
    }

    /** `_reload_config` once the new classes are read: the sessions are matched up to
        them and the ones that got lost are killed. */
    method Reload(news: seq<ConnClass>)
      requires Valid() && Owned(Whole()) && Unshared(connclasses, news)
      modifies this`connclasses, proxies
      ensures connclasses == news && Views() == AllMoved(old(Views()), old(connclasses), news)
    {
      ghost var s := Whole();
      var olds := connclasses;
      connclasses := news;
      MatchUp(s, olds);
      PartMovedApart(s, news);
      KillLost(Views(), olds);
      LoopsReload(s, news);
    }

    method MatchUp(ghost s: State, olds: seq<ConnClass>)
      requires Valid() && Owned(s) && s == State(Views(), olds) && Unshared(olds, connclasses)
      modifies proxies
      ensures Views() == AllPartMoved(s.vs, olds, connclasses, |connclasses|)
    {
      NothingMoved(s.vs, olds, connclasses);
      var k := 0;
      while k < |connclasses|
        invariant k <= |connclasses|
        invariant Views() == AllPartMoved(s.vs, olds, connclasses, k)
      {
        MoveStep(s, connclasses, k);
        MatchOne(olds, connclasses[k]);
        k := k + 1;
      }
    }

    /** The inner loop: the session of the first old class with the password changes over. */
    method MatchOne(olds: seq<ConnClass>, c: ConnClass)
      requires Valid()
      modifies proxies
      ensures Views() == MatchedOne(old(Views()), olds, c)
    {
      var o := OldClass(olds, c.password);
      if o < |olds| {
        var p := Fetch(olds[o]);
        if p < |proxies| {
          SetClass(p, c);
        }
      }
    }

    method OldClass(olds: seq<ConnClass>, password: string) returns (o: nat)
      ensures o <= |olds| && o == FirstWith(olds, password, 0)
    {
      o := 0;
      while o < |olds| && password != olds[o].password
        invariant o <= |olds| && FirstWith(olds, password, o) == FirstWith(olds, password, 0)
      {
        o := o + 1;
      }
    }

    method SetClass(i: nat, c: ConnClass)
      requires Valid() && i < |proxies|
      modifies proxies[i]
      ensures Views() == old(Views())[i := old(Views())[i].(cls := c)]
    {
      proxies[i].connClass := c;
    }

    method DropOne(i: nat)
      requires Valid() && i < |proxies|
      modifies proxies[i]
      ensures Views() == old(Views())[i := Dropped(old(Views())[i])]
    {
      proxies[i].Drop();
    }

    method KillLost(ghost ws: seq<View>, olds: seq<ConnClass>)
      requires Valid() && Views() == ws && AllApart(ws)
      modifies proxies
      ensures Views() == AllPartKilled(ws, olds, |olds|)
    {
      NothingKilled(ws, olds);
      var k := 0;
      while k < |olds|
        invariant k <= |olds|
        invariant Views() == AllPartKilled(ws, olds, k)
      {
        KillStep(ws, olds, k);
        KillOne(olds[k]);
        k := k + 1;
      }
    }

    method KillOne(c: ConnClass)
      requires Valid()
      modifies proxies
      ensures Views() == KilledOne(old(Views()), c)
    {
      var p := Fetch(c);
      if p < |proxies| {
        DropOne(p);
      }
    }

    /** One event of any kind. */
    method Perform(e: Event)
      requires Valid() && Owned(Whole()) && Enabled(Whole(), e)
      modifies this, proxies
      ensures Valid() && Whole() == Step(old(Whole()), e)
      ensures forall k :: 0 <= k < |proxies| ==> proxies[k] in old(proxies) || fresh(proxies[k])
    {
      if OneSession(e) {
        PerformOne(e, e.i);
      } else if BeforeLogin(e) {
        PerformTold(e, e.i);
      } else {
        PerformNet(e);
      }
    }

    method PerformNet(e: Event)
      requires Valid() && Owned(Whole()) && Enabled(Whole(), e) && !OneSession(e) && !BeforeLogin(e)
      modifies this, proxies
      ensures Valid() && Whole() == Step(old(Whole()), e)
      ensures forall k :: 0 <= k < |proxies| ==> proxies[k] in old(proxies) || fresh(proxies[k])
    {
      match e
      case Accept(sock, ip, die) => Accept(sock, ip, die);
      case Expunge => Expunge();
      case Reload(classes) => Reload(classes);
      case FailedReload =>
    }

    method PerformTold(e: Event, i: nat)
      requires Valid() && Owned(Whole()) && Enabled(Whole(), e)
      requires BeforeLogin(e) && i == e.i
      modifies proxies
      ensures Views() == Step(old(Whole()), e).vs
    {
      assert Sound(Views()[i], connclasses);
      match e
      case GotPass(_, password) => TellPass(i, password);
      case GotNick(_) => TellNick(i);
      case GotUser(_) => TellUser(i);
    }

    method PerformOne(e: Event, i: nat)
      requires Valid() && Enabled(Whole(), e) && OneSession(e) && i == e.i
      modifies proxies
      ensures Views() == Step(old(Whole()), e).vs
    {
      match e
      case Resolved(_, host) => proxies[i].Connect(host);
      case LostNick(_) => proxies[i].LoseNick();
      case Detach(_) => proxies[i].Detach();
      case Drop(_) => proxies[i].Drop();
      case GiveUp(_) => proxies[i].GiveUp();
      case TimeOut(_, connect, created) => proxies[i].TimeOut(connect, created);
    }

    /** A whole run. */
    method PerformAll(es: seq<Event>)
      requires Valid() && Owned(Whole()) && AllEnabled(Whole(), es)
      modifies this, proxies
      ensures Valid() && Whole() == Run(old(Whole()), es) && Owned(Whole())
    {
      ghost var s := Whole();
      var i := 0;
      assert es[0..] == es;
      while i < |es|
        invariant i <= |es| && Valid() && Owned(Whole())
        invariant AllEnabled(Whole(), es[i..]) && Run(Whole(), es[i..]) == Run(s, es)
        invariant forall k :: 0 <= k < |proxies| ==> proxies[k] in old(proxies) || fresh(proxies[k])
      {
        assert es[i..][0] == es[i] && es[i..][1..] == es[i + 1..];
        StepOwned(Whole(), es[i]);
        Perform(es[i]);
        i := i + 1;
      }
    }
  }

  predicate OneSession(e: Event) {
    e.Resolved? || e.LostNick? || e.Detach? || e.Drop? || e.GiveUp? || e.TimeOut?
  }

  predicate BeforeLogin(e: Event) {
    e.GotPass? || e.GotNick? || e.GotUser?
  }

  /** The sessions that stay, in order. */
  function Living(ps: seq<IrcProxy>): seq<IrcProxy>
    reads ps
  {
    if ps == [] then [] else (if ps[0].dead then [] else [ps[0]]) + Living(ps[1..])
  }

  lemma LivingStep(kept: seq<IrcProxy>, ps: seq<IrcProxy>, i: nat)
    requires i < |ps|
    ensures kept + Living(ps[i..]) == (if ps[i].dead then kept else kept + [ps[i]]) + Living(ps[i + 1..])
  {
  }

  lemma ConsViews(p: IrcProxy, ps: seq<IrcProxy>)
    ensures ViewsOf([p] + ps) == [p.V()] + ViewsOf(ps)
    ensures Different(ps) && p !in ps ==> Different([p] + ps)
  {
  }

  lemma {:induction false} LivingIs(ps: seq<IrcProxy>)
    requires Different(ps)
    ensures Different(Living(ps)) && ViewsOf(Living(ps)) == Alive(ViewsOf(ps))
    ensures forall p :: p in Living(ps) ==> p in ps
  {
    if ps != [] {
      LivingIs(ps[1..]);
      assert ViewsOf(ps[1..]) == ViewsOf(ps)[1..];
      if !ps[0].dead {
        assert ps[0] !in ps[1..];
        ConsViews(ps[0], Living(ps[1..]));
      }
    }
  }
}
