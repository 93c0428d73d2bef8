/** Flow control once the 32-bit counters wrap: exactly how long a stream may be for it. */
module DccWindow {
  import opened Basics
  import opened DccRelay
  import opened DccFlow

  /** So many full blocks make 2^32 bytes. */
  const BLOCKS := 0x20_0000

  function Block(n: nat): (d: seq<byte>)
    ensures |d| == n
  {
    seq(n, _ => 0)
  }

  function Simply(resumeFrom: nat, events: seq<Event>): Relay {
    Run(NewRelay(Simple, 0, resumeFrom), events)
  }

  // ---- runs in which one block follows the other ----

  /** Both ends are there, nothing waits, and this many bytes were sent and acknowledged. */
  ghost predicate Level(r: Relay, sent: nat, acked: nat) {
    && r.kind == Simple && r.buf == []
    && r.sender == Sender(true, true, false, true) && r.sendee == Sendee(false, true, true)
    && |r.toSendee| == |Flat(r.received)| == sent && r.bytesSent == sent % WORD
    && r.bytesAckd == r.maxAck == acked
  }

  /** A read of at most one block goes on at once if the last acknowledgement is not below
      the counter. */
  lemma ReadGoesOn(r: Relay, sent: nat, acked: nat, n: nat)
    requires Level(r, sent, acked) && acked >= sent % WORD && 0 < n <= DCC_BLOCK_SIZE
    ensures Level(Step(r, SenderData(Block(n), true, true)), sent + n, acked)
  {
    FlatSnoc(r.received, Block(n));
    AddWord(sent, n);
    assert [] + Block(n) == Block(n) && Block(n)[..n] == Block(n);
  }

  lemma AckCounts(r: Relay, sent: nat, acked: nat)
    requires Level(r, sent, acked) && acked <= sent < WORD
    ensures Level(Step(r, SendeeData(Some(sent), true)), sent, sent)
  {
  }

  lemma Begins(resumeFrom: nat)
    ensures Level(Simply(resumeFrom, [SenderConnected] + [SendeeAccept(true, true, true)]), 0, 0)
  {
    var r := NewRelay(Simple, 0, resumeFrom);
    RunSnoc(r, [], SenderConnected);
    RunSnoc(r, [SenderConnected], SendeeAccept(true, true, true));
    assert [] + [SenderConnected] == [SenderConnected];
  }

  /** i blocks, each acknowledged before the next one. */
  function LockStep(i: nat): seq<Event> {
    if i == 0 then [SenderConnected] + [SendeeAccept(true, true, true)]
    else LockStep(i - 1) + [SenderData(Block(DCC_BLOCK_SIZE), true, true)]
                         + [SendeeData(Some(DCC_BLOCK_SIZE * i), true)]
  }

  lemma {:induction false} LockStepLevel(resumeFrom: nat, i: nat, events: seq<Event>)
    requires i < BLOCKS && events == LockStep(i)
    ensures Level(Simply(resumeFrom, events), DCC_BLOCK_SIZE * i, DCC_BLOCK_SIZE * i)
    decreases i
  {
    if i == 0 {
      Begins(resumeFrom);
    } else {
      LockStepLevel(resumeFrom, i - 1, LockStep(i - 1));
      OneBlockOn(resumeFrom, LockStep(i - 1), events, DCC_BLOCK_SIZE * (i - 1), DCC_BLOCK_SIZE * i);
    }
  }

  lemma OneBlockOn(resumeFrom: nat, events: seq<Event>, after: seq<Event>, sent: nat, n: nat)
    requires Level(Simply(resumeFrom, events), sent, sent) && n == sent + DCC_BLOCK_SIZE < WORD
    requires after == events + [SenderData(Block(DCC_BLOCK_SIZE), true, true)] + [SendeeData(Some(n), true)]
    ensures Level(Simply(resumeFrom, after), n, n)
  {
    var r := NewRelay(Simple, 0, resumeFrom);
    var read, ack := SenderData(Block(DCC_BLOCK_SIZE), true, true), SendeeData(Some(n), true);
    RunSnoc(r, events, read);
    ReadGoesOn(Run(r, events), sent, sent, DCC_BLOCK_SIZE);
    RunSnoc(r, events + [read], ack);
    AckCounts(Run(r, events + [read]), n, sent);
  }

  // ---- beyond the wrap ----

  /** The last acknowledgement is for all but one block of 2^32 bytes; m blocks follow and
      none of them is acknowledged. */
  function Unacknowledged(m: nat): seq<Event> {
    if m == 0 then LockStep(BLOCKS - 1)
    else Unacknowledged(m - 1) + [SenderData(Block(DCC_BLOCK_SIZE), true, true)]
  }

  /** From there on the counter is never above that acknowledgement again, and any number
      of blocks goes out without another one. */
  lemma {:induction false} NothingHoldsBack(resumeFrom: nat, m: nat)
    ensures var r := Simply(resumeFrom, Unacknowledged(m));
            && Level(r, DCC_BLOCK_SIZE * (BLOCKS - 1 + m), WORD - DCC_BLOCK_SIZE)
            && |r.toSendee| == r.maxAck + DCC_BLOCK_SIZE * m
  {
    if m == 0 {
      LockStepLevel(resumeFrom, BLOCKS - 1, Unacknowledged(m));
    } else {
      NothingHoldsBack(resumeFrom, m - 1);
      OneReadMore(resumeFrom, Unacknowledged(m - 1), BLOCKS - 2 + m, DCC_BLOCK_SIZE);
    }
  }

  lemma OneReadMore(resumeFrom: nat, events: seq<Event>, k: nat, n: nat)
    requires Level(Simply(resumeFrom, events), DCC_BLOCK_SIZE * k, WORD - DCC_BLOCK_SIZE) && 0 < n <= DCC_BLOCK_SIZE
    ensures Level(Simply(resumeFrom, events + [SenderData(Block(n), true, true)]),
                  DCC_BLOCK_SIZE * k + n, WORD - DCC_BLOCK_SIZE)
  {
    BelowLast(k);
    RunSnoc(NewRelay(Simple, 0, resumeFrom), events, SenderData(Block(n), true, true));
    ReadGoesOn(Simply(resumeFrom, events), DCC_BLOCK_SIZE * k, WORD - DCC_BLOCK_SIZE, n);
  }

  lemma BelowLast(k: nat)
    ensures DCC_BLOCK_SIZE * k % WORD <= WORD - DCC_BLOCK_SIZE
  {
    Remainder(DCC_BLOCK_SIZE * k, k / BLOCKS, DCC_BLOCK_SIZE * (k % BLOCKS));
  }

  lemma Remainder(x: nat, q: nat, m: nat)
    requires x == q * WORD + m && m < WORD
    ensures x % WORD == m
  {
  }

  // ---- exactly when the window holds ----

  /** Whatever happens to a stream of at most n bytes, the sendee is never sent more than
      one block beyond the highest count it has acknowledged. */
  ghost predicate AlwaysInWindow(resumeFrom: nat, n: nat) {
    forall events ::
      var r := Simply(resumeFrom, events);
      |Flat(r.received)| <= n ==> |r.toSendee| <= r.maxAck + DCC_BLOCK_SIZE
  }

  lemma FlowControlIff(resumeFrom: nat, n: nat)
    ensures AlwaysInWindow(resumeFrom, n) <==> n <= WORD
  {
    if n <= WORD {
      forall events
        ensures var r := Simply(resumeFrom, events);
                |Flat(r.received)| <= n ==> |r.toSendee| <= r.maxAck + DCC_BLOCK_SIZE
      {
        FlowControl(resumeFrom, events);
      }
    } else {
      var m := 1;
      NothingHoldsBack(resumeFrom, m);
      OneByteBeyond(resumeFrom, Unacknowledged(m), n);
    }
  }

  /** With the first of those blocks the stream is as long as it may be. */
  lemma OneByteBeyond(resumeFrom: nat, events: seq<Event>, n: nat)
    requires Level(Simply(resumeFrom, events), DCC_BLOCK_SIZE * BLOCKS, WORD - DCC_BLOCK_SIZE) && n > WORD
    ensures !AlwaysInWindow(resumeFrom, n)
  {
    OneReadMore(resumeFrom, events, BLOCKS, 1);
    var r := Simply(resumeFrom, events + [SenderData(Block(1), true, true)]);
    assert |Flat(r.received)| <= n && |r.toSendee| > r.maxAck + DCC_BLOCK_SIZE;
  }
}
