/** What each delivery of data moves, to the byte, in every kind of session. */
module DccLaws {
  import opened Basics
  import opened DccRelay

  /** The front n bytes of `buf` have gone to the sendee, and the relay ends if that was all
      and its sender has gone. */
  predicate Moved(s: Relay, r: Relay, buf: seq<byte>, n: int) {
    && 0 <= n <= |buf|
    && s.toSendee == r.toSendee + buf[..n] && s.buf == buf[n..]
    && s.bytesSent == (if n > 0 then (r.bytesSent + n) % WORD else r.bytesSent)
    && (s.dead <==> r.dead || (n > 0 && n == |buf| && r.SenderGoneOnly()))
    && s.kind == r.kind && s.sender == r.sender && s.sendee == r.sendee && s.captured == r.captured
  }

  /** How much of what waits may go when `acked` has been acknowledged: all in a fast session,
      otherwise one block, and only if everything sent before is acknowledged. */
  function MayGo(kind: Kind, acked: nat, sent: nat, waiting: nat): (n: int)
    ensures 0 <= n <= waiting
  {
    if kind == Fast then waiting else if acked >= sent then Min(DCC_BLOCK_SIZE, waiting) else 0
  }

  /** Anything a connected sendee says moves what may go with the acknowledgement it brings, or
      with the last one if it is not all there yet. */
  lemma SendeeMoves(r: Relay, ack: Option<nat>)
    requires r.SendeeActive() && r.sendee.open && (ack.Some? ==> ack.value < WORD) && r.kind != Capture
    ensures var s, acked := Step(r, SendeeData(ack, true)), if ack.Some? then ack.value else r.bytesAckd;
            && Moved(s, r, r.buf, MayGo(r.kind, acked, r.bytesSent, |r.buf|))
            && s.bytesAckd == acked && s.toSender == r.toSender && s.received == r.received
  {
    assert r.toSendee + [] == r.toSendee;
  }

  /** Data from the sender waits behind what waits already, is acknowledged if it is not empty,
      and moves what may go if a sendee is connected. */
  lemma SenderMoves(r: Relay, data: seq<byte>)
    requires r.sender.connected && r.sender.open && r.kind != Capture
    requires r.SendeeActive() ==> r.sendee.open
    ensures var s, buf := Step(r, SenderData(data, true, true)), r.buf + data;
            && Moved(s, r, buf, if r.SendeeActive() then MayGo(r.kind, r.bytesAckd, r.bytesSent, |buf|) else 0)
            && (data != [] ==> s.bytesRcvd == (r.bytesRcvd + |data|) % WORD)
            && s.toSender == r.toSender + (if data == [] then [] else [s.bytesRcvd])
            && s.received == r.received + (if data == [] then [] else [data]) && s.bytesAckd == r.bytesAckd
  {
    assert r.toSendee + [] == r.toSendee;
    assert r.buf + [] == r.buf && r.toSender + [] == r.toSender && r.received + [] == r.received;
  }

  /** When a block cannot be queued it waits on, and the sendee is cut off. */
  lemma QueueingFails(r: Relay, ack: nat)
    requires r.SendeeActive() && r.sendee.open && ack < WORD && r.kind != Capture
    requires MayGo(r.kind, ack, r.bytesSent, |r.buf|) > 0
    ensures var s := Step(r, SendeeData(Some(ack), false));
            && !s.sendee.open && s.toSendee == r.toSendee && s.buf == r.buf && s.bytesSent == r.bytesSent
            && s.dead == r.dead && s.sender == r.sender && s.bytesAckd == ack
  {
  }

  /** When an acknowledgement cannot be queued the data waits all the same, and the sender is
      cut off. */
  lemma AckingFails(r: Relay, data: seq<byte>, queueOk: bool)
    requires r.sender.connected && r.sender.open && data != []
    ensures var s := Step(r, SenderData(data, false, queueOk));
            && s == r.(buf := r.buf + data, received := r.received + [data], sender := r.sender.(open := false),
                       bytesRcvd := (r.bytesRcvd + |data|) % WORD)
            && !Enabled(s, SenderData(data, false, queueOk))
  {
  }

  /** A capture writes all it gets, and ends exactly when its counter has reached the limit. */
  lemma CaptureWrites(r: Relay, data: seq<byte>)
    requires r.sender.connected && r.sender.open && data != [] && r.kind == Capture
    ensures var s := Step(r, SenderData(data, true, true));
            && s.captured == r.captured + (r.buf + data) && s.buf == [] && s.toSendee == r.toSendee
            && s.bytesSent == (r.bytesSent + |r.buf + data|) % WORD
            && (s.dead <==> r.dead || (r.bytesMax != 0 && s.bytesSent >= r.bytesMax))
            && s.received == r.received + [data] && s.sender == r.sender && s.fileOpen == r.fileOpen
  {
  }

  /** The file of a capture is closed, and so kept, exactly when its sender goes without an
      error; nothing else closes it. */
  lemma FileKept(r: Relay, e: Event)
    requires r.kind == Capture && r.fileOpen && !r.sendee.open
    requires e.SenderError? ==> r.sender.connected && r.sender.open
    ensures var s := Step(r, e); !s.fileOpen <==> e.SenderError? && !e.bad
  {
  }
}
