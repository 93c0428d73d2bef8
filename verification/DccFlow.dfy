/** What the DCC relay promises over whole runs: nothing lost or reordered, honest
    counters, flow control, no stall, and a full drain after the sender has left. */
module DccFlow {
  import opened Basics
  import opened Seqs
  import opened DccRelay

  function Flat(chunks: seq<seq<byte>>): seq<byte> {
    if chunks == [] then [] else Flat(chunks[..|chunks| - 1]) + chunks[|chunks| - 1]
  }

  // ---- safety of the data, in every reachable state ----

  /** Delivered bytes followed by the buffer are the received bytes, and the three
      32-bit counters say so. */
  ghost predicate Conserved(r: Relay, resumeFrom: nat) {
    && r.Delivered() + r.buf == Flat(r.received)
    && r.bytesSent == |r.Delivered()| % WORD
    && r.bytesRcvd == (resumeFrom + |Flat(r.received)|) % WORD
  }

  /** The count after the first n chunks. */
  function Running(received: seq<seq<byte>>, n: nat, resumeFrom: nat): nat
    requires n <= |received|
  {
    (resumeFrom + |Flat(received[..n])|) % WORD
  }

  ghost predicate AcksOf(acks: seq<nat>, received: seq<seq<byte>>, resumeFrom: nat) {
    |acks| <= |received|
    && forall i {:trigger acks[i]} :: 0 <= i < |acks| ==> acks[i] == Running(received, i + 1, resumeFrom)
  }

  /** Every ack queued to the sender is the running count at that moment; only the ack
      whose queueing failed, which closes the socket, can be missing. */
  ghost predicate AcksHonest(r: Relay, resumeFrom: nat) {
    && AcksOf(r.toSender, r.received, resumeFrom) && |r.received| <= |r.toSender| + 1
    && (r.sender.open ==> |r.toSender| == |r.received|)
  }

  ghost predicate CaptureBounded(r: Relay) {
    r.kind == Capture && !r.dead && r.bytesMax != 0 ==> r.bytesSent < r.bytesMax
  }

  /** A proxy whose sender has gone is only kept for the bytes it still owes. */
  ghost predicate GoneOwes(r: Relay) {
    && (r.sender.gone ==> r.SenderGoneOnly() && !r.sender.open && r.kind != Capture)
    && (r.sender.gone && !r.dead ==> r.buf != [])
  }

  ghost predicate Safe(r: Relay, resumeFrom: nat) {
    Conserved(r, resumeFrom) && AcksHonest(r, resumeFrom) && CaptureBounded(r) && GoneOwes(r)
  }

  lemma AddWord(a: nat, b: nat)
    ensures (a % WORD + b) % WORD == (a + b) % WORD
  {
  }

  /** What a send or a trigger leaves alone. */
  ghost predicate SameInputs(r: Relay, s: Relay) {
    && s.kind == r.kind && s.sender == r.sender && s.received == r.received
    && s.toSender == r.toSender && s.bytesRcvd == r.bytesRcvd && s.bytesMax == r.bytesMax
    && s.sendee.listening == r.sendee.listening && s.sendee.connected == r.sendee.connected
    && (s.sendee.open ==> r.sendee.open) && (r.dead ==> s.dead)
  }

  lemma PassOnConserves(r: Relay, nr: nat, resumeFrom: nat)
    requires Conserved(r, resumeFrom) && r.kind != Capture && nr <= |r.buf|
    ensures Conserved(PassOn(r, nr), resumeFrom)
  {
    AddWord(|r.toSendee|, nr);
    SplitAt(r.buf, nr);
    Associative(r.toSendee, r.buf[..nr], r.buf[nr..]);
  }

  lemma SendPacketConserves(r: Relay, queueOk: bool, resumeFrom: nat)
    requires Conserved(r, resumeFrom) && r.kind != Capture
    ensures Conserved(SendPacket(r, queueOk), resumeFrom)
  {
    var nr := SendSize(r.kind, |r.buf|);
    if nr > 0 && queueOk && r.sendee.open {
      PassOnConserves(r, nr, resumeFrom);
      ConservedAs(PassOn(r, nr), SendPacket(r, queueOk), resumeFrom);
    } else {
      ConservedAs(r, SendPacket(r, queueOk), resumeFrom);
    }
  }

  lemma ConservedAs(r: Relay, s: Relay, resumeFrom: nat)
    requires Conserved(r, resumeFrom)
    requires s.kind == r.kind && s.captured == r.captured && s.toSendee == r.toSendee && s.buf == r.buf
    requires s.received == r.received && s.bytesSent == r.bytesSent && s.bytesRcvd == r.bytesRcvd
    ensures Conserved(s, resumeFrom)
  {
  }

  lemma SendPacketFrame(r: Relay, queueOk: bool)
    ensures SameInputs(r, SendPacket(r, queueOk))
    ensures GoneOwes(r) && r.buf != [] ==> GoneOwes(SendPacket(r, queueOk))
  {
  }

  lemma CaptureConserves(r: Relay, queueOk: bool, resumeFrom: nat)
    requires Conserved(r, resumeFrom) && r.kind == Capture && r.buf != []
    ensures Conserved(Trigger(r, queueOk), resumeFrom)
  {
    var s := Trigger(r, queueOk);
    AddWord(|r.captured|, |r.buf|);
    assert s.captured == r.captured + r.buf && s.captured + [] == s.captured;
  }

  lemma TriggerConserves(r: Relay, queueOk: bool, resumeFrom: nat)
    requires Conserved(r, resumeFrom)
    ensures Conserved(Trigger(r, queueOk), resumeFrom)
  {
    if r.buf != [] {
      if r.kind == Capture {
        CaptureConserves(r, queueOk, resumeFrom);
      } else {
        SendPacketConserves(r, queueOk, resumeFrom);
      }
    }
  }

  lemma TriggerFrame(r: Relay, queueOk: bool)
    ensures SameInputs(r, Trigger(r, queueOk))
    ensures GoneOwes(r) ==> GoneOwes(Trigger(r, queueOk))
    ensures CaptureBounded(r) ==> CaptureBounded(Trigger(r, queueOk))
  {
    if r.buf != [] {
      SendPacketFrame(r, queueOk);
    }
  }

  lemma TriggerSafe(r: Relay, queueOk: bool, resumeFrom: nat)
    requires Safe(r, resumeFrom)
    ensures Safe(Trigger(r, queueOk), resumeFrom)
  {
    TriggerConserves(r, queueOk, resumeFrom);
    TriggerFrame(r, queueOk);
    SameInputsAcks(r, Trigger(r, queueOk), resumeFrom);
  }

  lemma SameInputsAcks(r: Relay, s: Relay, resumeFrom: nat)
    requires s.received == r.received && s.toSender == r.toSender && (s.sender.open ==> r.sender.open)
    requires AcksHonest(r, resumeFrom)
    ensures AcksHonest(s, resumeFrom)
  {
  }

  function Receive(r: Relay, data: seq<byte>): Relay {
    r.(buf := r.buf + data, bytesRcvd := (r.bytesRcvd + |data|) % WORD, received := r.received + [data])
  }

  lemma ReceiveConserves(r: Relay, data: seq<byte>, resumeFrom: nat)
    requires Conserved(r, resumeFrom)
    ensures Conserved(Receive(r, data), resumeFrom)
  {
    FlatSnoc(r.received, data);
    Associative(r.Delivered(), r.buf, data);
    AddWord(resumeFrom + |Flat(r.received)|, |data|);
  }

  lemma RunSnoc(r: Relay, events: seq<Event>, e: Event)
    ensures Run(r, events + [e]) == Step(Run(r, events), e)
  {
    assert (events + [e])[..|events|] == events;
  }

  lemma FlatSnoc(chunks: seq<seq<byte>>, data: seq<byte>)
    ensures Flat(chunks + [data]) == Flat(chunks) + data
  {
    assert (chunks + [data])[..|chunks|] == chunks;
  }

  lemma AcksSnoc(acks: seq<nat>, received: seq<seq<byte>>, data: seq<byte>, resumeFrom: nat)
    requires AcksOf(acks, received, resumeFrom) && |acks| == |received|
    ensures var all := received + [data];
            AcksOf(acks, all, resumeFrom) && AcksOf(acks + [Running(all, |all|, resumeFrom)], all, resumeFrom)
  {
    var all := received + [data];
    forall i | 0 <= i < |acks| ensures acks[i] == Running(all, i + 1, resumeFrom) {
      assert all[..i + 1] == received[..i + 1];
    }
  }

  lemma ReceiveAcks(r: Relay, data: seq<byte>, resumeFrom: nat)
    requires AcksHonest(r, resumeFrom) && Conserved(r, resumeFrom) && r.sender.open
    ensures var s := Receive(r, data);
            && AcksHonest(s.(toSender := s.toSender + [s.bytesRcvd]), resumeFrom)
            && AcksHonest(s.(sender := s.sender.(open := false)), resumeFrom)
  {
    AcksSnoc(r.toSender, r.received, data, resumeFrom);
    ReceiveConserves(r, data, resumeFrom);
    var all := r.received + [data];
    assert all[..|all|] == all;
  }

  lemma SenderDataSafe(r: Relay, data: seq<byte>, ackOk: bool, queueOk: bool, resumeFrom: nat)
    requires Safe(r, resumeFrom) && r.sender.open
    ensures Safe(OnSenderData(r, data, ackOk, queueOk), resumeFrom)
  {
    if data == [] {
      TriggerSafe(r, queueOk, resumeFrom);
    } else {
      ReceiveConserves(r, data, resumeFrom);
      ReceiveAcks(r, data, resumeFrom);
      var s := Receive(r, data);
      if ackOk {
        TriggerSafe(s.(toSender := s.toSender + [s.bytesRcvd]), queueOk, resumeFrom);
      }
    }
  }

  lemma SendeeDataSafe(r: Relay, ack: Option<nat>, queueOk: bool, resumeFrom: nat)
    requires Safe(r, resumeFrom)
    ensures Safe(OnSendeeData(r, ack, queueOk), resumeFrom)
  {
    if ack.Some? {
      var s := Acked(r, ack.value);
      SameInputsAcks(r, s, resumeFrom);
      TriggerSafe(s, queueOk, resumeFrom);
    } else {
      TriggerSafe(r, queueOk, resumeFrom);
    }
  }

  lemma AcceptSafe(r: Relay, ok: bool, created: bool, queueOk: bool, resumeFrom: nat)
    requires Safe(r, resumeFrom) && r.kind != Capture
    ensures Safe(OnAccept(r, ok, created, queueOk), resumeFrom)
  {
    var s := r.(sendee := Sendee(false, true, true));
    if ok && created && r.buf != [] {
      SendPacketConserves(s, queueOk, resumeFrom);
      SendPacketFrame(s, queueOk);
      SameInputsAcks(r, SendPacket(s, queueOk), resumeFrom);
    } else {
      SameInputsAcks(r, OnAccept(r, ok, created, queueOk), resumeFrom);
    }
  }

  /** A step that neither moves data nor opens the sender's socket. */
  ghost predicate SameData(r: Relay, s: Relay) {
    && s.kind == r.kind && s.received == r.received && s.toSender == r.toSender
    && s.bytesRcvd == r.bytesRcvd && s.bytesSent == r.bytesSent && s.bytesMax == r.bytesMax
    && s.buf == r.buf && s.toSendee == r.toSendee && s.captured == r.captured
    && (s.sender.open ==> r.sender.open) && (r.dead ==> s.dead)
  }

  lemma SameDataSafe(r: Relay, s: Relay, resumeFrom: nat)
    requires Safe(r, resumeFrom) && SameData(r, s) && GoneOwes(s)
    ensures Safe(s, resumeFrom)
  {
  }

  /** A capture never listens for a sendee. */
  ghost predicate CaptureAlone(r: Relay) {
    r.kind == Capture ==> !r.sendee.listening && !r.sendee.connected && !r.sendee.open
  }

  predicate MovesData(e: Event) {
    e.SenderData? || e.SendeeData? || e.SendeeAccept?
  }

  lemma QuietStep(r: Relay, e: Event)
    requires !MovesData(e) && GoneOwes(r)
    ensures SameData(r, Step(r, e)) && GoneOwes(Step(r, e))
  {
  }

  lemma StepSafe(r: Relay, e: Event, resumeFrom: nat)
    requires Safe(r, resumeFrom) && CaptureAlone(r)
    ensures Safe(Step(r, e), resumeFrom)
  {
    if !Enabled(r, e) {
    } else if !MovesData(e) {
      QuietStep(r, e);
      SameDataSafe(r, Step(r, e), resumeFrom);
    } else {
      match e {
        case SenderData(data, ackOk, queueOk) => SenderDataSafe(r, data, ackOk, queueOk, resumeFrom);
        case SendeeData(ack, queueOk) => SendeeDataSafe(r, ack, queueOk, resumeFrom);
        case SendeeAccept(ok, created, queueOk) => AcceptSafe(r, ok, created, queueOk, resumeFrom);
      }
    }
  }

  lemma StepAlone(r: Relay, e: Event)
    requires CaptureAlone(r)
    ensures Step(r, e).kind == r.kind && CaptureAlone(Step(r, e))
  {
    match e {
      case SenderData(data, ackOk, queueOk) =>
        var s := Receive(r, data);
        TriggerFrame(r, queueOk);
        TriggerFrame(s.(toSender := s.toSender + [s.bytesRcvd]), queueOk);
      case SendeeData(ack, queueOk) => SendeeDataFrame(r, ack, queueOk);
      case SendeeAccept(_, _, queueOk) => SendPacketFrame(r.(sendee := Sendee(false, true, true)), queueOk);
      case _ =>
    }
  }

  lemma SendeeDataFrame(r: Relay, ack: Option<nat>, queueOk: bool)
    ensures SameInputs(r, OnSendeeData(r, ack, queueOk))
  {
    if ack.Some? {
      TriggerFrame(Acked(r, ack.value), queueOk);
    } else {
      TriggerFrame(r, queueOk);
    }
  }

  lemma ReceivesData(r: Relay, data: seq<byte>, ackOk: bool, queueOk: bool)
    ensures OnSenderData(r, data, ackOk, queueOk).received == if data == [] then r.received else r.received + [data]
  {
    var s := Receive(r, data);
    TriggerFrame(r, queueOk);
    TriggerFrame(s.(toSender := s.toSender + [s.bytesRcvd]), queueOk);
  }

  lemma ReceivesNothing(r: Relay, e: Event)
    requires !(e.SenderData? && Enabled(r, e))
    ensures Step(r, e).received == r.received
  {
    if Enabled(r, e) {
      match e {
        case SendeeData(ack, queueOk) => SendeeDataFrame(r, ack, queueOk);
        case SendeeAccept(_, _, queueOk) => SendPacketFrame(r.(sendee := Sendee(false, true, true)), queueOk);
        case _ =>
      }
    }
  }

  /** The relay refines a pipe: in every reachable state of every kind of session,
      whatever fails on the way, the bytes passed on followed by the buffer are the
      bytes received in order, the acks to the sender are the running counts, a live
      capture is below its limit, and a proxy left by its sender still owes data. */
  lemma {:induction false} RelayIsSafe(kind: Kind, maxsize: int, resumeFrom: nat, events: seq<Event>)
    ensures Safe(Run(NewRelay(kind, maxsize, resumeFrom), events), resumeFrom)
    ensures var r := Run(NewRelay(kind, maxsize, resumeFrom), events); CaptureAlone(r) && r.kind == kind
  {
    if events != [] {
      var n := |events| - 1;
      RelayIsSafe(kind, maxsize, resumeFrom, events[..n]);
      var r := Run(NewRelay(kind, maxsize, resumeFrom), events[..n]);
      StepSafe(r, events[n], resumeFrom);
      StepAlone(r, events[n]);
    }
  }

  // ---- flow control of a simple session ----

  /** The counter of what was sent is right modulo 2^32. */
  predicate Counted(r: Relay) {
    r.bytesSent == |r.toSendee| % WORD
  }

  /** Before a sendee is there nothing has been sent to it, and up to 2^32 bytes never
      more than one block beyond the highest count it has acknowledged. */
  ghost predicate InWindow(r: Relay) {
    && r.kind == Simple && r.bytesAckd <= r.maxAck
    && (r.sendee.listening ==> r.toSendee == [])
    && (|r.toSendee| <= WORD ==> |r.toSendee| <= r.maxAck + DCC_BLOCK_SIZE)
  }

  lemma SendInWindow(r: Relay, queueOk: bool)
    requires InWindow(r) && !r.sendee.listening && (|r.toSendee| < WORD ==> |r.toSendee| <= r.maxAck)
    ensures InWindow(SendPacket(r, queueOk))
  {
  }

  lemma TriggerInWindow(r: Relay, queueOk: bool)
    requires InWindow(r) && Counted(r)
    ensures InWindow(Trigger(r, queueOk))
  {
    if r.bytesAckd >= r.bytesSent && r.SendeeActive() {
      SendInWindow(r, queueOk);
    }
  }

  lemma ReceiveInWindow(r: Relay, data: seq<byte>, ackOk: bool, queueOk: bool)
    requires InWindow(r) && Counted(r)
    ensures InWindow(OnSenderData(r, data, ackOk, queueOk))
  {
    if data == [] {
      TriggerInWindow(r, queueOk);
    } else if ackOk {
      var s := Receive(r, data);
      TriggerInWindow(s.(toSender := s.toSender + [s.bytesRcvd]), queueOk);
    }
  }

  lemma AckInWindow(r: Relay, ack: Option<nat>, queueOk: bool)
    requires InWindow(r) && Counted(r)
    ensures InWindow(OnSendeeData(r, ack, queueOk))
  {
    TriggerInWindow(if ack.Some? then Acked(r, ack.value) else r, queueOk);
  }

  lemma AcceptInWindow(r: Relay, ok: bool, created: bool, queueOk: bool)
    requires InWindow(r) && r.sendee.listening
    ensures InWindow(OnAccept(r, ok, created, queueOk))
  {
    SendInWindow(r.(sendee := Sendee(false, true, true)), queueOk);
  }

  lemma QuietInWindow(r: Relay, e: Event)
    requires InWindow(r) && !MovesData(e)
    ensures InWindow(Step(r, e))
  {
  }

  lemma StepInWindow(r: Relay, e: Event)
    requires InWindow(r) && Counted(r)
    ensures InWindow(Step(r, e))
  {
    if !Enabled(r, e) {
    } else if !MovesData(e) {
      QuietInWindow(r, e);
    } else {
      match e {
        case SenderData(data, ackOk, queueOk) => ReceiveInWindow(r, data, ackOk, queueOk);
        case SendeeData(ack, queueOk) => AckInWindow(r, ack, queueOk);
        case SendeeAccept(ok, created, queueOk) => AcceptInWindow(r, ok, created, queueOk);
      }
    }
  }

  lemma {:induction false} RunInWindow(resumeFrom: nat, events: seq<Event>)
    ensures InWindow(Run(NewRelay(Simple, 0, resumeFrom), events))
  {
    if events != [] {
      var before := events[..|events| - 1];
      RunInWindow(resumeFrom, before);
      RelayIsSafe(Simple, 0, resumeFrom, before);
      StepInWindow(Run(NewRelay(Simple, 0, resumeFrom), before), events[|events| - 1]);
    }
  }

  /** Ack-gated sending: on streams of up to 2^32 bytes the sendee is never sent more than
      one block beyond the highest count it has acknowledged. */
  lemma FlowControl(resumeFrom: nat, events: seq<Event>)
    ensures var r := Run(NewRelay(Simple, 0, resumeFrom), events);
            |Flat(r.received)| <= WORD ==> |r.toSendee| <= r.maxAck + DCC_BLOCK_SIZE
  {
    RelayIsSafe(Simple, 0, resumeFrom, events);
    RunInWindow(resumeFrom, events);
    var r := Run(NewRelay(Simple, 0, resumeFrom), events);
    assert |r.toSendee| <= |Flat(r.received)|;
  }

  lemma SentIsTrue(r: Relay, resumeFrom: nat)
    requires Conserved(r, resumeFrom) && r.kind != Capture && |Flat(r.received)| < WORD
    ensures |r.toSendee| == r.bytesSent && |r.toSendee| + |r.buf| == |Flat(r.received)|
  {
  }

  /** The sendee acknowledges no more than it was sent and queueing never fails. */
  predicate Honest(r: Relay, e: Event) {
    match e
    case SendeeData(ack, queueOk) => queueOk && (ack.Some? ==> ack.value <= r.bytesSent)
    case SenderData(_, ackOk, queueOk) => ackOk && queueOk
    case SendeeAccept(_, _, queueOk) => queueOk
    case _ => true
  }

  predicate HonestRun(r: Relay, events: seq<Event>) {
    forall i :: 0 <= i < |events| ==> Honest(Run(r, events[..i]), events[i])
  }

  /** While the sendee is connected either nothing waits or a block is in flight. */
  ghost predicate Flowing(r: Relay) {
    && r.kind != Capture
    && r.bytesAckd <= r.bytesSent
    && (r.sendee.listening ==> !r.sendee.connected)
    && (r.SendeeActive() ==> r.sendee.open)
    && (r.SendeeActive() && r.buf != [] ==> r.kind == Simple && r.bytesAckd < r.bytesSent)
  }

  lemma SendFlows(r: Relay, resumeFrom: nat)
    requires Conserved(r, resumeFrom) && |Flat(r.received)| < WORD
    requires r.kind != Capture && r.bytesAckd <= r.bytesSent && r.buf != []
    requires r.sendee == Sendee(false, true, true)
    ensures Flowing(SendPacket(r, true))
  {
    SentIsTrue(r, resumeFrom);
  }

  lemma TriggerFlows(r: Relay, resumeFrom: nat)
    requires Conserved(r, resumeFrom) && |Flat(r.received)| < WORD
    requires r.kind != Capture && r.bytesAckd <= r.bytesSent
    requires r.SendeeActive() ==> r.sendee.open
    requires r.sendee.listening ==> !r.sendee.connected
    ensures Flowing(Trigger(r, true))
  {
    if r.SendeeActive() && r.buf != [] {
      SendFlows(r, resumeFrom);
    }
  }

  lemma ReceiveFlows(r: Relay, data: seq<byte>, resumeFrom: nat)
    requires Flowing(r) && Conserved(r, resumeFrom) && |Flat(Receive(r, data).received)| < WORD
    ensures Flowing(OnSenderData(r, data, true, true))
  {
    if data == [] {
      assert |Flat(r.received)| < WORD by { ReceivedGrows(r, data); }
      TriggerFlows(r, resumeFrom);
    } else {
      ReceiveConserves(r, data, resumeFrom);
      ReceivedFlows(r, Receive(r, data), resumeFrom);
    }
  }

  lemma ReceivedFlows(r: Relay, s: Relay, resumeFrom: nat)
    requires Flowing(r) && s.kind == r.kind && s.sendee == r.sendee
    requires s.bytesAckd == r.bytesAckd && s.bytesSent == r.bytesSent
    requires Conserved(s, resumeFrom) && |Flat(s.received)| < WORD
    ensures Flowing(Trigger(s.(toSender := s.toSender + [s.bytesRcvd]), true))
  {
    var t := s.(toSender := s.toSender + [s.bytesRcvd]);
    ConservedAs(s, t, resumeFrom);
    TriggerFlows(t, resumeFrom);
  }

  lemma ReceivedGrows(r: Relay, data: seq<byte>)
    ensures |Flat(Receive(r, data).received)| == |Flat(r.received)| + |data|
  {
  }

  lemma SenderDataReceives(r: Relay, data: seq<byte>)
    ensures |Flat(OnSenderData(r, data, true, true).received)| == |Flat(Receive(r, data).received)|
  {
    ReceivesData(r, data, true, true);
    ReceivedGrows(r, data);
  }

  lemma AckFlows(r: Relay, ack: Option<nat>, resumeFrom: nat)
    requires Flowing(r) && Conserved(r, resumeFrom) && |Flat(r.received)| < WORD
    requires ack.Some? ==> ack.value <= r.bytesSent
    ensures Flowing(OnSendeeData(r, ack, true))
  {
    var s := if ack.None? then r
             else Acked(r, ack.value);
    TriggerFlows(s, resumeFrom);
  }

  lemma AcceptFlows(r: Relay, ok: bool, created: bool, resumeFrom: nat)
    requires Flowing(r) && Conserved(r, resumeFrom) && |Flat(r.received)| < WORD
    requires r.sendee.listening
    ensures Flowing(OnAccept(r, ok, created, true))
  {
    if ok && created && r.buf != [] {
      SendFlows(r.(sendee := Sendee(false, true, true)), resumeFrom);
    }
  }

  lemma QuietFlows(r: Relay, e: Event)
    requires Flowing(r) && !MovesData(e)
    ensures Flowing(Step(r, e))
  {
  }

  lemma StepFlows(r: Relay, e: Event, resumeFrom: nat)
    requires Flowing(r) && Conserved(r, resumeFrom) && Honest(r, e)
    requires |Flat(r.received)| <= |Flat(Step(r, e).received)| < WORD
    ensures Flowing(Step(r, e))
  {
    if !Enabled(r, e) {
    } else if !MovesData(e) {
      QuietFlows(r, e);
    } else {
      match e {
        case SenderData(data, _, _) =>
          SenderDataReceives(r, data);
          ReceiveFlows(r, data, resumeFrom);
        case SendeeData(ack, _) => AckFlows(r, ack, resumeFrom);
        case SendeeAccept(ok, created, _) => AcceptFlows(r, ok, created, resumeFrom);
      }
    }
  }

  lemma StepReceives(r: Relay, e: Event)
    ensures |Flat(r.received)| <= |Flat(Step(r, e).received)|
  {
    if e.SenderData? && Enabled(r, e) {
      ReceivesData(r, e.data, e.ackOk, e.queueOk);
      FlatSnoc(r.received, e.data);
    } else {
      ReceivesNothing(r, e);
    }
  }

  /** No stall: with honest acks and streams below 2^32 bytes, a connected sendee for
      whom data waits always has an unacknowledged block on its way; a fast session
      never lets anything wait. */
  lemma {:induction false} NoStall(kind: Kind, resumeFrom: nat, events: seq<Event>)
    requires kind != Capture && HonestRun(NewRelay(kind, 0, resumeFrom), events)
    requires |Flat(Run(NewRelay(kind, 0, resumeFrom), events).received)| < WORD
    ensures Flowing(Run(NewRelay(kind, 0, resumeFrom), events))
  {
    if events != [] {
      var n := |events| - 1;
      var r0 := NewRelay(kind, 0, resumeFrom);
      var r := Run(r0, events[..n]);
      assert forall i :: 0 <= i < n ==> events[..n][..i] == events[..i];
      StepReceives(r, events[n]);
      NoStall(kind, resumeFrom, events[..n]);
      RelayIsSafe(kind, 0, resumeFrom, events[..n]);
      StepFlows(r, events[n], resumeFrom);
    }
  }

  // ---- draining after the sender has gone ----

  /** m acks, each for everything sent so far. */
  function FullAcks(r: Relay, m: nat): Relay {
    if m == 0 then r else Step(FullAcks(r, m - 1), SendeeData(Some(FullAcks(r, m - 1).bytesSent), true))
  }

  function Blocks(n: nat): nat {
    (n + DCC_BLOCK_SIZE - 1) / DCC_BLOCK_SIZE
  }

  ghost predicate Draining(r: Relay) {
    r.kind == Simple && r.SenderGoneOnly() && r.sendee == Sendee(false, true, true) && r.bytesSent < WORD
  }

  /** One full ack moves one block, and the last one kills the proxy. */
  lemma DrainStep(s: Relay)
    requires Draining(s) && !s.dead && s.buf != []
    ensures var t := Step(s, SendeeData(Some(s.bytesSent), true));
            var nr := SendSize(Simple, |s.buf|);
            && Draining(t) && t.dead == (nr == |s.buf|)
            && t.toSendee == s.toSendee + s.buf[..nr] && t.buf == s.buf[nr..]
  {
  }

  lemma SliceOn<T>(had: seq<T>, b: seq<T>, n: nat, k: nat)
    requires n + k <= |b|
    ensures had + b[..n] + b[n..][..k] == had + b[..n + k] && b[n..][k..] == b[n + k..]
  {
  }

  /** How many of n bytes m blocks take. */
  function Drained(n: nat, m: nat): (sent: nat)
    ensures sent <= n
  {
    if m * DCC_BLOCK_SIZE < n then m * DCC_BLOCK_SIZE else n
  }

  lemma BlockByBlock(n: nat, m: nat)
    requires 0 < m <= Blocks(n)
    ensures var d := Drained(n, m - 1);
            d < n && Drained(n, m) == d + SendSize(Simple, n - d) && (Drained(n, m) == n <==> m == Blocks(n))
  {
  }

  /** The state m full acks after r. */
  ghost predicate DrainedTo(s: Relay, r: Relay, m: nat) {
    var sent := Drained(|r.buf|, m);
    && Draining(s) && s.dead == (sent == |r.buf|)
    && s.toSendee == r.toSendee + r.buf[..sent] && s.buf == r.buf[sent..]
  }

  lemma DrainOn(s: Relay, r: Relay, m: nat)
    requires 0 < m <= Blocks(|r.buf|) && DrainedTo(s, r, m - 1)
    ensures DrainedTo(Step(s, SendeeData(Some(s.bytesSent), true)), r, m)
  {
    var had := Drained(|r.buf|, m - 1);
    BlockByBlock(|r.buf|, m);
    DrainStep(s);
    SliceOn(r.toSendee, r.buf, had, SendSize(Simple, |s.buf|));
  }

  lemma {:induction false} DrainBy(r: Relay, m: nat)
    requires Draining(r) && !r.dead && r.buf != [] && m <= Blocks(|r.buf|)
    ensures DrainedTo(FullAcks(r, m), r, m)
  {
    if m == 0 {
      assert r.toSendee + r.buf[..0] == r.toSendee && r.buf[0..] == r.buf;
    } else {
      DrainBy(r, m - 1);
      DrainOn(FullAcks(r, m - 1), r, m);
    }
  }

  /** Drain: in any reachable state of a simple session whose sender has gone, is not
      dead, and has its sendee connected, exactly as many further full acks as there
      are blocks left deliver every received byte; the proxy dies with the last one
      and not before. */
  lemma DrainAfterSenderLeft(resumeFrom: nat, events: seq<Event>, m: nat)
    requires var r := Run(NewRelay(Simple, 0, resumeFrom), events);
             r.sender.gone && !r.dead && r.sendee == Sendee(false, true, true) && m <= Blocks(|r.buf|)
    ensures var r := Run(NewRelay(Simple, 0, resumeFrom), events);
            var s := FullAcks(r, m);
            && (s.dead <==> m == Blocks(|r.buf|))
            && (s.dead ==> s.toSendee == Flat(r.received) && s.buf == [])
  {
    var r := Run(NewRelay(Simple, 0, resumeFrom), events);
    RelayIsSafe(Simple, 0, resumeFrom, events);
    DrainBy(r, m);
    AllDrained(r, FullAcks(r, m), m, resumeFrom);
  }

  /** A sender that leaves while data waits for a connected sendee: exactly as many further
      full acks as there are blocks deliver every received byte, and the last one ends the
      relay. */
  lemma SenderLeavesThenDrains(resumeFrom: nat, events: seq<Event>, bad: bool, m: nat)
    requires var r := Run(NewRelay(Simple, 0, resumeFrom), events);
             && r.sender.connected && r.sender.open && !r.dead && r.sendee == Sendee(false, true, true)
             && r.buf != [] && m <= Blocks(|r.buf|)
    ensures var r := Run(NewRelay(Simple, 0, resumeFrom), events);
            var s := FullAcks(Step(r, SenderError(bad)), m);
            && (s.dead <==> m == Blocks(|r.buf|))
            && (s.dead ==> s.toSendee == Flat(r.received) && s.buf == [])
  {
    var r := Run(NewRelay(Simple, 0, resumeFrom), events);
    RelayIsSafe(Simple, 0, resumeFrom, events);
    RunSnoc(NewRelay(Simple, 0, resumeFrom), events, SenderError(bad));
    SenderLeaves(r, bad);
    DrainAfterSenderLeft(resumeFrom, events + [SenderError(bad)], m);
  }

  lemma SenderLeaves(r: Relay, bad: bool)
    requires r.sender.connected && r.sender.open && r.kind != Capture && r.buf != []
    ensures var s := Step(r, SenderError(bad));
            && s.sender.gone && s.dead == r.dead && s.sendee == r.sendee && s.buf == r.buf && s.received == r.received
  {
  }

  lemma AllDrained(r: Relay, s: Relay, m: nat, resumeFrom: nat)
    requires r.kind == Simple && r.buf != [] && Conserved(r, resumeFrom) && m <= Blocks(|r.buf|) && DrainedTo(s, r, m)
    ensures s.dead <==> m == Blocks(|r.buf|)
    ensures s.dead ==> s.toSendee == Flat(r.received) && s.buf == []
  {
    if m > 0 {
      BlockByBlock(|r.buf|, m);
    }
    assert r.buf[..|r.buf|] == r.buf;
  }
}
