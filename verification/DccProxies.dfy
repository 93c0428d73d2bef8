/** The relay as an object changed in place by the handlers of src/dcc_send.c and
    src/dcc_net.c. */
module DccProxies {
  import opened Basics
  import opened DccRelay
  import opened DccFlow
  import opened DccCapture
  import opened Seqs

  // ---- what each event means for the data ----

  /** Everything received so far, in order: passed on, then waiting. */
  function Stream(r: Relay): seq<byte> {
    r.Delivered() + r.buf
  }

  ghost predicate Sound(r: Relay, resumeFrom: nat) {
    Safe(r, resumeFrom) && CaptureAlone(r)
  }

  lemma StepSound(r: Relay, e: Event, resumeFrom: nat)
    requires Sound(r, resumeFrom)
    ensures Sound(Step(r, e), resumeFrom) && Step(r, e).kind == r.kind
  {
    StepSafe(r, e, resumeFrom);
    StepAlone(r, e);
  }

  predicate FromSender(e: Event) {
    e.SenderConnected? || e.SenderConnectFailed? || e.SenderData? || e.SenderError?
  }

  predicate FromSendee(e: Event) {
    e.SendeeAccept? || e.SendeeData? || e.SendeeError?
  }

  /** Only data from the sender adds to the stream; no event loses or reorders any of it. */
  lemma StreamGrows(r: Relay, e: Event, resumeFrom: nat)
    requires Sound(r, resumeFrom)
    ensures Stream(Step(r, e)) == Stream(r) + if e.SenderData? && Enabled(r, e) then e.data else []
  {
    StepSound(r, e, resumeFrom);
    if e.SenderData? && Enabled(r, e) {
      ReceivesData(r, e.data, e.ackOk, e.queueOk);
      FlatSnoc(r.received, e.data);
      assert Stream(r) + [] == Stream(r);
    } else {
      ReceivesNothing(r, e);
      assert Stream(r) + [] == Stream(r);
    }
  }

  /** Passing on a block delivers exactly the front of what waits, unless queueing fails. */
  lemma BlockGoesOn(r: Relay, queueOk: bool) returns (s: Relay)
    requires r.kind != Capture
    ensures s == SendPacket(r, queueOk) && s.kind == r.kind && s.toSendee + s.buf == r.toSendee + r.buf
    ensures var n := SendSize(r.kind, |r.buf|);
            s.toSendee == if queueOk && r.sendee.open then r.toSendee + r.buf[..n] else r.toSendee
    ensures queueOk && r.sendee.open ==> (s.dead <==> r.dead || (s.buf == [] && s.SenderGoneOnly()))
  {
    s := SendPacket(r, queueOk);
    BlockSplits(r.toSendee, r.buf, SendSize(r.kind, |r.buf|));
    assert r.toSendee + r.buf[..0] == r.toSendee;
  }

  /** In a simple session a block leaves only when all that was sent is acknowledged. */
  lemma OnlyWhenAcked(r: Relay, queueOk: bool)
    requires r.kind == Simple
    ensures var s := Trigger(r, queueOk);
            s.toSendee == r.toSendee || (r.bytesAckd >= r.bytesSent && |s.toSendee| <= |r.toSendee| + DCC_BLOCK_SIZE)
  {
  }

  /** When a time-out ends a relay: unless both ends are active, it captures from an active
      sender, or it drains to an active sendee. */
  predicate Spared(r: Relay) {
    (r.kind == Capture && r.SenderActive())
    || (r.SendeeActive() && (r.SenderActive() || r.sender.gone))
  }

  lemma TimeOutSpares(r: Relay)
    ensures OnTimedOut(r) == if Spared(r) then r else r.(dead := true)
  {
  }

  lemma NewSound(kind: Kind, maxsize: int, resumeFrom: nat)
    ensures Sound(NewRelay(kind, maxsize, resumeFrom), resumeFrom)
  {
    RelayIsSafe(kind, maxsize, resumeFrom, []);
    assert Run(NewRelay(kind, maxsize, resumeFrom), []) == NewRelay(kind, maxsize, resumeFrom);
  }

  // ---- the object ----

  class DccProxy {
    const kind: Kind
    var dead: bool
    var sender: Sender
    var sendee: Sendee
    var buf: seq<byte>
    var bytesSent: nat
    var bytesAckd: nat
    var bytesRcvd: nat
    var bytesMax: nat
    var toSender: seq<nat>
    var toSendee: seq<byte>
    var captured: seq<byte>
    var fileOpen: bool
    ghost var received: seq<seq<byte>>
    ghost var maxAck: nat
    ghost const ResumeFrom: nat

    ghost function View(): Relay
      reads this
    {
      Relay(kind, dead, sender, sendee, buf,
            bytesSent, bytesAckd, bytesRcvd, bytesMax,
            toSender, toSendee, captured, fileOpen, received, maxAck)
    }

    ghost predicate Valid()
      reads this
    {
      Sound(View(), ResumeFrom)
    }

    /** `dccnet_new`: a relay that has lost nothing, and whose limit is the one asked for
        exactly if that fits 32 bits. */
    constructor (kind: Kind, maxsize: int, resumeFrom: nat)
      ensures Valid() && ResumeFrom == resumeFrom && View() == NewRelay(kind, maxsize, resumeFrom)
      ensures kind == Capture ==> (bytesMax == maxsize * 1024 <==> 0 <= maxsize * 1024 < WORD)
    {
      this.kind, dead, ResumeFrom := kind, false, resumeFrom;
      bytesRcvd := resumeFrom % WORD;
      if kind == Capture {
        fileOpen := true;
        bytesMax := (maxsize * 1024) % WORD;
        sendee := Sendee(false, false, false);
      } else {
        fileOpen := false;
        bytesMax := 0;
        sendee := Sendee(true, false, true);
      }
      sender := Sender(true, false, false, true);
      buf, toSender, toSendee, captured, received := [], [], [], [], [];
      bytesSent, bytesAckd, maxAck := 0, 0, 0;
      new;
      NewSound(kind, maxsize, resumeFrom);
      LimitAsked(maxsize, resumeFrom);
    }

    /** `dccsend_connected`: from now on the sender can deliver data. */
    method Connected()
      requires Valid() && Enabled(View(), SenderConnected)
      modifies this
      ensures Valid() && View() == Step(old(View()), SenderConnected)
      ensures View().SenderActive() && Stream(View()) == old(Stream(View()))
    {
      StepSound(View(), SenderConnected, ResumeFrom);
      StreamGrows(View(), SenderConnected, ResumeFrom);
      sender := sender.(connected := true);
      assert Stream(View()) + [] == Stream(View());
    }

    /** `dccsend_connectfailed`: the relay is over, and nothing can come from the sender. */
    method ConnectFailed()
      requires Valid() && Enabled(View(), SenderConnectFailed)
      modifies this
      ensures Valid() && View() == Step(old(View()), SenderConnectFailed)
      ensures dead && forall e :: FromSender(e) ==> !Enabled(View(), e)
    {
      StepSound(View(), SenderConnectFailed, ResumeFrom);
      sender := sender.(created := false, open := false);
      dead := true;
    }

    /** `_dccnet_accept` and `dccsend_accepted`: nothing of the stream is lost, no second
        sendee can come, and the first block goes on at once; one whose socket cannot be set
        up gets nothing. */
    method Accept(ok: bool, created: bool, queueOk: bool)
      requires Valid() && Enabled(View(), SendeeAccept(ok, created, queueOk))
      modifies this
      ensures Valid() && View() == Step(old(View()), SendeeAccept(ok, created, queueOk))
      ensures Stream(View()) == old(Stream(View()))
      ensures !ok ==> dead
      ensures ok ==> forall a, c, q :: !Enabled(View(), SendeeAccept(a, c, q))
      ensures ok && created && queueOk ==>
                toSendee == old(toSendee) + old(buf)[..SendSize(kind, |old(buf)|)]
      ensures ok && created ==> View().SendeeActive() && (queueOk ==> sendee.open)
      ensures ok && !created ==> toSendee == old(toSendee) && buf == old(buf) && !sendee.open && dead == old(dead)
    {
      ghost var r, e := View(), SendeeAccept(ok, created, queueOk);
      StepSound(r, e, ResumeFrom);
      StreamGrows(r, e, ResumeFrom);
      AcceptMeans(r, ok, created, queueOk);
      if !ok {
        dead := true;
      } else {
        sendee := sendee.(listening := false, open := created);
        if created {
          sendee := sendee.(connected := true);
          if buf != [] {
            SendBuffered(queueOk);
          }
        }
      }
      assert Stream(r) + [] == Stream(r);
    }

    /** `_dccsend_sendpacket`: the stream stays whole, one block of it (all of it in a fast
        session) goes on unless queueing fails, and a relay left by its sender ends exactly
        when nothing waits any more. */
    method SendBuffered(queueOk: bool)
      requires kind != Capture
      modifies this
      ensures View() == SendPacket(old(View()), queueOk)
      ensures toSendee + buf == old(toSendee + buf)
      ensures toSendee == if queueOk && old(sendee.open) then old(toSendee) + old(buf)[..SendSize(kind, |old(buf)|)]
                          else old(toSendee)
      ensures queueOk && old(sendee.open) ==> (dead <==> old(dead) || (buf == [] && View().SenderGoneOnly()))
    {
      ghost var s := BlockGoesOn(View(), queueOk);
      var nr := |buf|;
      if kind != Fast && |buf| > DCC_BLOCK_SIZE {
        nr := DCC_BLOCK_SIZE;
      }
      if nr > 0 {
        if !(queueOk && sendee.open) {
          sendee := sendee.(open := false);
          assert View() == s;
          return;
        }
        PassBlock(nr);
      }
      if buf == [] && !sender.created && !sender.connected && sender.gone {
        dead := true;
      }
      assert View() == s;
    }

    method PassBlock(nr: nat)
      requires nr <= |buf|
      modifies this
      ensures View() == PassOn(old(View()), nr)
    {
      toSendee := toSendee + buf[..nr];
      bytesSent := (bytesSent + nr) % WORD;
      buf := buf[nr..];
    }

    /** The end of `_dccsend_data`: in a simple session a block leaves only when all that
        was sent is acknowledged. */
    method TrySend(queueOk: bool)
      modifies this
      ensures View() == Trigger(old(View()), queueOk)
      ensures kind == Simple ==>
                toSendee == old(toSendee)
                || (old(bytesAckd >= bytesSent) && |toSendee| <= |old(toSendee)| + DCC_BLOCK_SIZE)
    {
      if kind == Simple {
        OnlyWhenAcked(View(), queueOk);
      }
      if buf != [] && (kind == Fast || kind == Capture || bytesAckd >= bytesSent) {
        if kind == Capture {
          captured := captured + buf;
          bytesSent := (bytesSent + |buf|) % WORD;
          buf := [];
          if bytesMax != 0 && bytesSent >= bytesMax {
            dead := true;
          }
        } else if sendee.connected && !sendee.listening {
          SendBuffered(queueOk);
        }
      }
    }

    /** `_dccsend_data` on the sender's socket; `data` is all that `net_read` has. It joins
        the end of the stream, and the acknowledgement is the length of the stream from the
        resume position. */
    method DataFromSender(data: seq<byte>, ackOk: bool, queueOk: bool)
      requires Valid() && Enabled(View(), SenderData(data, ackOk, queueOk))
      modifies this
      ensures Valid() && View() == Step(old(View()), SenderData(data, ackOk, queueOk))
      ensures Stream(View()) == old(Stream(View())) + data
      ensures data != [] && ackOk ==> toSender == old(toSender) + [(ResumeFrom + |Stream(View())|) % WORD]
    {
      ghost var s := DataJoins(View(), data, ackOk, queueOk, ResumeFrom);
      if |data| > 0 {
        var acked := Take(data, ackOk);
        if !acked {
          return;
        }
      }
      TrySend(queueOk);
      assert View() == s;
    }

    /** Data joins the buffer and is acknowledged; a failure to queue that closes the
        sender's socket. */
    method Take(data: seq<byte>, ackOk: bool) returns (acked: bool)
      modifies this
      ensures acked == ackOk
      ensures var s := Receive(old(View()), data);
              View() == if ackOk then s.(toSender := s.toSender + [s.bytesRcvd])
                        else s.(sender := s.sender.(open := false))
    {
      buf := buf + data;
      bytesRcvd := (bytesRcvd + |data|) % WORD;
      received := received + [data];
      if !ackOk {
        sender := sender.(open := false);
        return false;
      }
      toSender := toSender + [bytesRcvd];
      return true;
    }

    /** `_dccsend_data` on the sendee's socket: the stream stays whole, and in a simple
        session a block leaves only if the new acknowledgement covers all that was sent. */
    method DataFromSendee(ack: Option<nat>, queueOk: bool)
      requires Valid() && Enabled(View(), SendeeData(ack, queueOk))
      modifies this
      ensures Valid() && View() == Step(old(View()), SendeeData(ack, queueOk))
      ensures Stream(View()) == old(Stream(View()))
      ensures kind == Simple && ack.Some? && ack.value < old(bytesSent) ==> toSendee == old(toSendee)
    {
      ghost var r, e := View(), SendeeData(ack, queueOk);
      StepSound(r, e, ResumeFrom);
      StreamGrows(r, e, ResumeFrom);
      if ack.Some? {
        bytesAckd := ack.value;
        maxAck := if ack.value > maxAck then ack.value else maxAck;
      }
      TrySend(queueOk);
      assert Stream(r) + [] == Stream(r);
    }

    /** `_dccsend_error` on the sender's socket: nothing more can come from it, the stream
        stays whole, and the relay lives on exactly if it still owes data to a sendee. */
    method ErrorFromSender(bad: bool)
      requires Valid() && Enabled(View(), SenderError(bad))
      modifies this
      ensures Valid() && View() == Step(old(View()), SenderError(bad))
      ensures Stream(View()) == old(Stream(View())) && forall e :: FromSender(e) ==> !Enabled(View(), e)
      ensures dead <==> old(dead) || kind == Capture || buf == []
      ensures kind != Capture && buf != [] ==> View().SenderGoneOnly()
    {
      ghost var r := View();
      StepSound(r, SenderError(bad), ResumeFrom);
      StreamGrows(r, SenderError(bad), ResumeFrom);
      sender := sender.(created := false, open := false);
      if buf != [] && kind != Capture {
        sender := Sender(false, false, true, false);
      } else {
        dead := true;
      }
      EndCapture(bad);
      assert Stream(r) + [] == Stream(r);
    }

    /** `_dccsend_error` on the sendee's socket: the relay is over and no sendee can come
        or speak again. */
    method ErrorFromSendee(bad: bool)
      requires Valid() && Enabled(View(), SendeeError(bad))
      modifies this
      ensures Valid() && View() == Step(old(View()), SendeeError(bad))
      ensures dead && forall e :: FromSendee(e) ==> !Enabled(View(), e)
    {
      StepSound(View(), SendeeError(bad), ResumeFrom);
      sendee := Sendee(false, false, false);
      dead := true;
      EndCapture(bad);
    }

    /** The file of a capture that ended well is closed. */
    method EndCapture(bad: bool)
      modifies this`fileOpen
      ensures View() == CloseFile(old(View()), bad)
    {
      if !bad && kind == Capture {
        fileOpen := false;
      }
    }

    /** `_dccnet_timedout`: a relay that is not spared dies, and nothing else happens. */
    method Timeout()
      requires Valid()
      modifies this
      ensures Valid() && View() == Step(old(View()), TimedOut)
      ensures View() == if old(Spared(View())) then old(View()) else old(View()).(dead := true)
    {
      StepSound(View(), TimedOut, ResumeFrom);
      TimeOutSpares(View());
      if sender.created && sender.connected && !sender.gone && kind == Capture {
        return;
      }
      if sendee.connected && !sendee.listening {
        if sender.created && sender.connected && !sender.gone {
          return;
        }
        if sender.gone {
          return;
        }
      }
      dead := true;
    }

    /** One event; one that cannot happen now does nothing. */
    method Perform(e: Event)
      requires Valid()
      modifies this
      ensures Valid() && View() == Step(old(View()), e)
    {
      if Possible(e) {
        match e
        case SenderConnected => Connected();
        case SenderConnectFailed => ConnectFailed();
        case SendeeAccept(ok, created, queueOk) => Accept(ok, created, queueOk);
        case SenderData(data, ackOk, queueOk) => DataFromSender(data, ackOk, queueOk);
        case SendeeData(ack, queueOk) => DataFromSendee(ack, queueOk);
        case SenderError(bad) => ErrorFromSender(bad);
        case SendeeError(bad) => ErrorFromSendee(bad);
        case TimedOut => Timeout();
      }
    }

    predicate Possible(e: Event)
      reads this
      ensures Possible(e) == Enabled(View(), e)
    {
      match e
      case SenderConnected => sender.open && sender.created && !sender.connected
      case SenderConnectFailed => sender.open && sender.created && !sender.connected
      case SendeeAccept(_, _, _) => sendee.open && sendee.listening
      case SenderData(_, _, _) => sender.open && sender.connected
      case SenderError(_) => sender.open && sender.connected
      case SendeeData(ack, _) => sendee.open && sendee.connected && (ack.Some? ==> ack.value < WORD)
      case SendeeError(_) => sendee.open && sendee.connected
      case TimedOut => true
    }

    /** A whole run: what has been passed on and what waits is, in order, everything the
        run received, and every other promise of a safe relay holds. */
    method PerformAll(es: seq<Event>)
      requires Valid()
      modifies this
      ensures Valid() && View() == Run(old(View()), es)
      ensures Stream(View()) == Flat(received)
    {
      ghost var r := View();
      var i := 0;
      while i < |es|
        invariant i <= |es| && Valid() && View() == Run(r, es[..i])
      {
        assert es[..i + 1][..i] == es[..i];
        Perform(es[i]);
        i := i + 1;
      }
      assert es[..|es|] == es;
    }
  }

  lemma BlockSplits(had: seq<byte>, buf: seq<byte>, nr: nat)
    requires nr <= |buf|
    ensures (had + buf[..nr]) + buf[nr..] == had + buf
  {
    assert buf[..nr] + buf[nr..] == buf;
  }

  lemma AcceptMeans(r: Relay, ok: bool, created: bool, queueOk: bool)
    requires CaptureAlone(r) && r.sendee.listening
    ensures var s := OnAccept(r, ok, created, queueOk);
            && (ok ==> !s.sendee.listening)
            && (ok && created ==> s.SendeeActive() && (queueOk ==> s.sendee.open))
            && (ok && !created ==> s.toSendee == r.toSendee && s.buf == r.buf && !s.sendee.open && s.dead == r.dead)
            && (ok && created && queueOk ==> s.toSendee == r.toSendee + r.buf[..SendSize(r.kind, |r.buf|)])
  {
    assert r.toSendee + r.buf[..0] == r.toSendee;
  }

  lemma AcksTheStream(r: Relay, data: seq<byte>, queueOk: bool, resumeFrom: nat)
    requires Sound(r, resumeFrom)
    ensures data != [] ==> OnSenderData(r, data, true, queueOk).toSender
                           == r.toSender + [(resumeFrom + |Stream(r) + data|) % WORD]
  {
    var s := Receive(r, data);
    ReceiveConserves(r, data, resumeFrom);
    FlatSnoc(r.received, data);
    TriggerFrame(s.(toSender := s.toSender + [s.bytesRcvd]), queueOk);
  }

  lemma DataJoins(r: Relay, data: seq<byte>, ackOk: bool, queueOk: bool, resumeFrom: nat) returns (s: Relay)
    requires Sound(r, resumeFrom) && Enabled(r, SenderData(data, ackOk, queueOk))
    ensures s == OnSenderData(r, data, ackOk, queueOk) && Sound(s, resumeFrom) && s.kind == r.kind
    ensures Stream(s) == Stream(r) + data
    ensures data != [] && ackOk ==> s.toSender == r.toSender + [(resumeFrom + |Stream(s)|) % WORD]
  {
    var e := SenderData(data, ackOk, queueOk);
    s := Step(r, e);
    StepSound(r, e, resumeFrom);
    StreamGrows(r, e, resumeFrom);
    AcksTheStream(r, data, queueOk, resumeFrom);
  }

  /** `dccnet_new` and everything that happens afterwards. */
  method Relayed(kind: Kind, maxsize: int, resumeFrom: nat, es: seq<Event>) returns (p: DccProxy)
    ensures fresh(p) && p.Valid() && p.View() == Run(NewRelay(kind, maxsize, resumeFrom), es)
    ensures kind == Capture && Limit(maxsize) != 0 && ReadsUpTo(es, WORD - Limit(maxsize)) ==>
              p.dead || |p.captured| < Limit(maxsize)
  {
    p := new DccProxy(kind, maxsize, resumeFrom);
    p.PerformAll(es);
    if kind == Capture && Limit(maxsize) != 0 && ReadsUpTo(es, WORD - Limit(maxsize)) {
      CaptureReallyBounded(maxsize, resumeFrom, es);
    }
  }

  /** The proxies that stay, in order. */
  function Living(ps: seq<DccProxy>): seq<DccProxy>
    reads ps
  {
    if ps == [] then [] else (if ps[0].dead then [] else [ps[0]]) + Living(ps[1..])
  }

  /** Exactly the living ones, each as often as it was there, in their order. */
  lemma LivingExactly(ps: seq<DccProxy>, more: seq<DccProxy>, p: DccProxy)
    ensures multiset(Living(ps))[p] == if p.dead then 0 else multiset(ps)[p]
    ensures Living(ps + more) == Living(ps) + Living(more)
  {
    LivingCounted(ps, p);
    LivingInOrder(ps, more);
  }

  lemma {:induction false} LivingCounted(ps: seq<DccProxy>, p: DccProxy)
    ensures multiset(Living(ps))[p] == if p.dead then 0 else multiset(ps)[p]
  {
    if ps != [] {
      LivingCounted(ps[1..], p);
      assert ps == [ps[0]] + ps[1..];
      if ps[0].dead {
        assert Living(ps) == Living(ps[1..]);
      } else {
        assert Living(ps) == [ps[0]] + Living(ps[1..]);
      }
    }
  }

  lemma {:induction false} LivingInOrder(ps: seq<DccProxy>, more: seq<DccProxy>)
    ensures Living(ps + more) == Living(ps) + Living(more)
  {
    if ps == [] {
      assert ps + more == more;
    } else {
      LivingInOrder(ps[1..], more);
      assert (ps + more)[0] == ps[0] && (ps + more)[1..] == ps[1..] + more;
      Associative(if ps[0].dead then [] else [ps[0]], Living(ps[1..]), Living(more));
    }
  }

  class DccNet {
    var proxies: seq<DccProxy>

    /** `dccnet_expunge_proxies` */
    method Expunge()
      modifies this
      ensures proxies == Living(old(proxies))
    {
      var kept, i := [], 0;
      while i < |proxies|
        invariant 0 <= i <= |proxies| && proxies == old(proxies)
        invariant kept + Living(proxies[i..]) == Living(proxies)
      {
        var p := proxies[i];
        assert proxies[i..][1..] == proxies[i + 1..];
        if !p.dead {
          kept := kept + [p];
        }
        i := i + 1;
      }
      proxies := kept;
    }
  }
}
