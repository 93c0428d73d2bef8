/** What the DCC SEND relay of src/dcc_send.c and the life cycle around it in
    src/dcc_net.c do: data from the sender is acknowledged, buffered, and passed on to
    the sendee as its own acknowledgements allow, or captured into a file. */
module DccRelay {
  import opened Basics

  newtype byte = x: int | 0 <= x < 256

  const DCC_BLOCK_SIZE := 2048
  const WORD := 0x1_0000_0000

  datatype Kind = Simple | Fast | Capture

  /** A status word, one boolean per bit; `open` says the socket has not been closed. */
  datatype Sender = Sender(created: bool, connected: bool, gone: bool, open: bool)

  datatype Sendee = Sendee(listening: bool, connected: bool, open: bool)

  /** The fields of `struct dccproxy` and what has been handed to the outside: acks
      queued to the sender, bytes queued to the sendee, bytes written to the capture
      file. `received` and `maxAck` record the inputs for the theorems. */
  datatype Relay = Relay(
    kind: Kind,
    dead: bool,
    sender: Sender,
    sendee: Sendee,
    buf: seq<byte>,
    bytesSent: nat, bytesAckd: nat, bytesRcvd: nat, bytesMax: nat,
    toSender: seq<nat>, toSendee: seq<byte>, captured: seq<byte>, fileOpen: bool,
    received: seq<seq<byte>>, maxAck: nat)
  {
    predicate SenderActive() {
      sender.created && sender.connected && !sender.gone
    }

    predicate SenderGoneOnly() {
      !sender.created && !sender.connected && sender.gone
    }

    predicate SendeeActive() {
      sendee.connected && !sendee.listening
    }

    function Delivered(): seq<byte> {
      if kind == Capture then captured else toSendee
    }
  }

  /** What can happen to a proxy. The booleans say whether `net_queue`, `accept` and
      `net_create` succeed; an ack is None while fewer than four of its bytes are in. */
  datatype Event =
    | SenderConnected
    | SenderConnectFailed
    | SendeeAccept(ok: bool, created: bool, queueOk: bool)
    | SenderData(data: seq<byte>, ackOk: bool, queueOk: bool)
    | SendeeData(ack: Option<nat>, queueOk: bool)
    | SenderError(bad: bool)
    | SendeeError(bad: bool)
    | TimedOut

  /** `dccnet_new` when all its system calls succeed. */
  function NewRelay(kind: Kind, maxsize: int, resumeFrom: nat): Relay {
    Relay(kind, false, Sender(true, false, false, true),
          Sendee(kind != Capture, false, kind != Capture),
          [], 0, 0, resumeFrom % WORD, if kind == Capture then (maxsize * 1024) % WORD else 0,
          [], [], [], kind == Capture, [], 0)
  }

  function SendSize(kind: Kind, bufsz: nat): (nr: nat)
    ensures nr <= bufsz
  {
    if kind == Fast then bufsz else if bufsz > DCC_BLOCK_SIZE then DCC_BLOCK_SIZE else bufsz
  }

  function PassOn(r: Relay, nr: nat): Relay
    requires nr <= |r.buf|
  {
    r.(toSendee := r.toSendee + r.buf[..nr], bytesSent := (r.bytesSent + nr) % WORD, buf := r.buf[nr..])
  }

  function EndIfDrained(r: Relay): Relay {
    if r.buf == [] && r.SenderGoneOnly() then r.(dead := true) else r
  }

  function SendPacket(r: Relay, queueOk: bool): Relay {
    var nr := SendSize(r.kind, |r.buf|);
    if nr == 0 then EndIfDrained(r)
    else if queueOk && r.sendee.open then EndIfDrained(PassOn(r, nr))
    else r.(sendee := r.sendee.(open := false))
  }

  /** The tail of `_dccsend_data`: any data is a trigger to try to send. */
  function Trigger(r: Relay, queueOk: bool): Relay {
    if r.buf != [] && (r.kind == Fast || r.kind == Capture || r.bytesAckd >= r.bytesSent) then
      if r.kind == Capture then
        var s := r.(captured := r.captured + r.buf,
                    bytesSent := (r.bytesSent + |r.buf|) % WORD,
                    buf := []);
        if s.bytesMax != 0 && s.bytesSent >= s.bytesMax then s.(dead := true) else s
      else if r.SendeeActive() then SendPacket(r, queueOk)
      else r
    else r
  }

  predicate Enabled(r: Relay, e: Event) {
    match e
    case SenderConnected => r.sender.open && r.sender.created && !r.sender.connected
    case SenderConnectFailed => r.sender.open && r.sender.created && !r.sender.connected
    case SendeeAccept(_, _, _) => r.sendee.open && r.sendee.listening
    case SenderData(_, _, _) => r.sender.open && r.sender.connected
    case SenderError(_) => r.sender.open && r.sender.connected
    case SendeeData(ack, _) => r.sendee.open && r.sendee.connected && (ack.Some? ==> ack.value < WORD)
    case SendeeError(_) => r.sendee.open && r.sendee.connected
    case TimedOut => true
  }

  function OnSenderData(r: Relay, data: seq<byte>, ackOk: bool, queueOk: bool): Relay {
    if data == [] then Trigger(r, queueOk)
    else
      var s := r.(buf := r.buf + data,
                  bytesRcvd := (r.bytesRcvd + |data|) % WORD,
                  received := r.received + [data]);
      if ackOk then Trigger(s.(toSender := s.toSender + [s.bytesRcvd]), queueOk)
      else s.(sender := s.sender.(open := false))
  }

  function Acked(r: Relay, count: nat): Relay {
    r.(bytesAckd := count, maxAck := if count > r.maxAck then count else r.maxAck)
  }

  function OnSendeeData(r: Relay, ack: Option<nat>, queueOk: bool): Relay {
    if ack.Some? then
      Trigger(Acked(r, ack.value), queueOk)
    else Trigger(r, queueOk)
  }

  function OnAccept(r: Relay, ok: bool, created: bool, queueOk: bool): Relay {
    if !ok then r.(dead := true)
    else
      var s := r.(sendee := Sendee(false, r.sendee.connected, created));
      if !created then s
      else
        var t := s.(sendee := s.sendee.(connected := true));
        if t.buf != [] then SendPacket(t, queueOk) else t
  }

  function CloseFile(r: Relay, bad: bool): Relay {
    if !bad && r.kind == Capture then r.(fileOpen := false) else r
  }

  function OnSenderError(r: Relay, bad: bool): Relay {
    var s := r.(sender := r.sender.(created := false, open := false));
    CloseFile(if s.buf != [] && s.kind != Capture
              then s.(sender := Sender(false, false, true, false))
              else s.(dead := true), bad)
  }

  function OnSendeeError(r: Relay, bad: bool): Relay {
    CloseFile(r.(sendee := Sendee(false, false, false), dead := true), bad)
  }

  function OnTimedOut(r: Relay): Relay {
    if r.SenderActive() && r.kind == Capture then r
    else if !r.SendeeActive() then r.(dead := true)
    else if !r.SenderActive() then if r.sender.gone then r else r.(dead := true)
    else r
  }

  function Step(r: Relay, e: Event): Relay {
    if !Enabled(r, e) then r
    else
      match e
      case SenderConnected => r.(sender := r.sender.(connected := true))
      case SenderConnectFailed => r.(sender := r.sender.(created := false, open := false), dead := true)
      case SendeeAccept(ok, created, queueOk) => OnAccept(r, ok, created, queueOk)
      case SenderData(data, ackOk, queueOk) => OnSenderData(r, data, ackOk, queueOk)
      case SendeeData(ack, queueOk) => OnSendeeData(r, ack, queueOk)
      case SenderError(bad) => OnSenderError(r, bad)
      case SendeeError(bad) => OnSendeeError(r, bad)
      case TimedOut => OnTimedOut(r)
  }

  function Run(r: Relay, events: seq<Event>): Relay {
    if events == [] then r else Step(Run(r, events[..|events| - 1]), events[|events| - 1])
  }
}
