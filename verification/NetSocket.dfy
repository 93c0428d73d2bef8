/** One socket of src/net.c: its two queues, its throttle counters, the reset and
    the write loop of `net_poll`, and the sweep over closed sockets. */
module NetSocket {
  import opened Basics
  import opened NetBuffers
  import opened Seqs
  import opened NetFraming

  const NET_BLOCK_SIZE := 8192

  /** What the rest of the program can observe of a socket's output side. `written`
      is every byte `write` has accepted so far. */
  datatype Sock<T> = Sock(
    out: seq<Buf<T>>,
    written: seq<T>,
    throtbytes: int,
    throtperiod: int,
    throtlast: int,
    throtamt: int)

  datatype Op<T> =
    | Send(data: seq<T>)
    | Queue(data: seq<T>)
    | Urgent(data: seq<T>)
    | PollBegin(now: int)
    | Flush(accepts: seq<int>)
    | Throttle(bytes: int, period: int, now: int)

  function Fresh<T>(): Sock<T> {
    Sock([], [], 0, 0, 0, 0)
  }

  predicate Throttled<T>(s: Sock<T>) {
    s.throtbytes != 0 && s.throtamt >= s.throtbytes
  }

  /** How much the next `write` is asked to take. */
  function Chunk<T>(s: Sock<T>): (n: nat)
    requires s.out != [] && !Throttled(s)
    ensures n <= |s.out[0].data|
  {
    var bl := Min(|s.out[0].data|, NET_BLOCK_SIZE);
    if s.throtbytes != 0 then Min(bl, s.throtbytes - s.throtamt) else bl
  }

  function Wrote<T>(s: Sock<T>, n: nat): Sock<T>
    requires s.out != [] && n <= |s.out[0].data|
  {
    s.(out := DropFront(s.out, n),
       written := s.written + s.out[0].data[..n],
       throtamt := if s.throtbytes != 0 then s.throtamt + n else s.throtamt)
  }

  /** The write loop when the successive `write` calls would take `accepts` bytes
      (at most the chunk offered); a value of 0 or less stops it, and so does
      running out of answers. */
  function WriteLoop<T>(s: Sock<T>, accepts: seq<int>): Sock<T>
    decreases |accepts|
  {
    if s.out == [] || Throttled(s) || accepts == [] || Min(accepts[0], Chunk(s)) <= 0 then s
    else WriteLoop(Wrote(s, Min(accepts[0], Chunk(s))), accepts[1..])
  }

  function ResetThrottle<T>(s: Sock<T>, now: int): Sock<T> {
    if s.throtperiod != 0 && now - s.throtlast >= s.throtperiod
    then s.(throtlast := now, throtamt := 0) else s
  }

  function Step<T>(s: Sock<T>, op: Op<T>): Sock<T> {
    match op
    case Send(d) => s.(out := Append(s.out, Pack, d))
    case Queue(d) => s.(out := Append(s.out, Raw, d))
    case Urgent(d) => s.(out := PushUrgent(s.out, d))
    case PollBegin(now) => ResetThrottle(s, now)
    case Flush(accepts) => WriteLoop(s, accepts)
    case Throttle(b, p, now) =>
      s.(throtbytes := b, throtperiod := p, throtlast := now, throtamt := 0)
  }

  function Run<T>(s: Sock<T>, ops: seq<Op<T>>): Sock<T> {
    if ops == [] then s else Step(Run(s, ops[..|ops| - 1]), ops[|ops| - 1])
  }

  // ---- the throttle over whole runs ----

  /** k full periods have been opened since t0, and every byte written since then
      fits in those periods plus the current one. */
  ghost predicate WithinPeriods<T>(s: Sock<T>, base: nat, t0: int, k: nat) {
    && s.throtbytes > 0 && s.throtperiod > 0
    && 0 <= s.throtamt <= s.throtbytes
    && s.throtlast >= t0 + k * s.throtperiod
    && base <= |s.written|
    && |s.written| - base <= s.throtbytes * k + s.throtamt
  }

  lemma {:induction false} WriteLoopWithin<T>(s: Sock<T>, accepts: seq<int>, base: nat, t0: int, k: nat)
    requires WithinPeriods(s, base, t0, k)
    ensures WithinPeriods(WriteLoop(s, accepts), base, t0, k)
    ensures WriteLoop(s, accepts).throtlast == s.throtlast
    ensures WriteLoop(s, accepts).throtbytes == s.throtbytes
    ensures WriteLoop(s, accepts).throtperiod == s.throtperiod
    decreases |accepts|
  {
    if s.out == [] || Throttled(s) || accepts == [] || Min(accepts[0], Chunk(s)) <= 0 {
    } else {
      WriteLoopWithin(Wrote(s, Min(accepts[0], Chunk(s))), accepts[1..], base, t0, k);
    }
  }

  predicate NoRethrottle<T>(ops: seq<Op<T>>) {
    forall i :: 0 <= i < |ops| ==> !ops[i].Throttle?
  }

  predicate PolledBy<T>(ops: seq<Op<T>>, t: int) {
    forall i :: 0 <= i < |ops| && ops[i].PollBegin? ==> ops[i].now <= t
  }

  lemma PeriodStep(last: int, t0: int, k: nat, p: int, now: int)
    requires p > 0 && last >= t0 + k * p && now - last >= p
    ensures now >= t0 + (k + 1) * p
  {
  }

  lemma ResetWithin<T>(s: Sock<T>, now: int, base: nat, t0: int, k: nat)
    requires WithinPeriods(s, base, t0, k)
    ensures var r := ResetThrottle(s, now);
            if now - s.throtlast >= s.throtperiod then WithinPeriods(r, base, t0, k + 1) && r.throtlast == now
            else r == s
  {
    if now - s.throtlast >= s.throtperiod {
      PeriodStep(s.throtlast, t0, k, s.throtperiod, now);
      assert s.throtbytes * (k + 1) == s.throtbytes * k + s.throtbytes;
    }
  }

  lemma AllResetWithin<T>(s: Sock<T>, now: int) returns (r: Sock<T>)
    ensures r == ResetThrottle(s, now)
    ensures forall base: nat, t0, k: nat :: WithinPeriods(s, base, t0, k) ==>
              WithinPeriods(r, base, t0, k) || (WithinPeriods(r, base, t0, k + 1) && r.throtlast == now)
  {
    r := ResetThrottle(s, now);
    forall base: nat, t0, k: nat | WithinPeriods(s, base, t0, k)
      ensures WithinPeriods(r, base, t0, k) || (WithinPeriods(r, base, t0, k + 1) && r.throtlast == now)
    {
      ResetWithin(s, now, base, t0, k);
    }
  }

  lemma {:induction false} RunWithin<T>(s: Sock<T>, ops: seq<Op<T>>, t0: int, t: int) returns (k: nat)
    requires s.throtbytes > 0 && s.throtperiod > 0 && s.throtamt == 0 && s.throtlast == t0 <= t
    requires NoRethrottle(ops) && PolledBy(ops, t)
    ensures WithinPeriods(Run(s, ops), |s.written|, t0, k)
    ensures Run(s, ops).throtlast <= t
    ensures Run(s, ops).throtbytes == s.throtbytes && Run(s, ops).throtperiod == s.throtperiod
  {
    if ops == [] {
      k := 0;
    } else {
      k := RunWithin(s, ops[..|ops| - 1], t0, t);
      var r, op := Run(s, ops[..|ops| - 1]), ops[|ops| - 1];
      match op {
        case Flush(accepts) =>
          WriteLoopWithin(r, accepts, |s.written|, t0, k);
        case PollBegin(now) =>
          ResetWithin(r, now, |s.written|, t0, k);
          if now - r.throtlast >= r.throtperiod {
            k := k + 1;
          }
        case _ =>
      }
    }
  }

  lemma MulMonotone(x: int, y: int, p: int)
    requires x <= y && p >= 0
    ensures x * p <= y * p && p * x <= p * y
  {
  }

  lemma PeriodsBound(k: nat, p: int, d: int, b: int, amt: int, total: int)
    requires p > 0 && b > 0 && k * p <= d && amt <= b && total <= b * k + amt
    ensures total <= b * (d / p + 1)
  {
    var q := d / p;
    assert d < (q + 1) * p;
    if k >= q + 1 {
      MulMonotone(q + 1, k, p);
      assert false;
    }
    MulMonotone(k, q, b);
    assert b * (q + 1) == b * q + b;
  }

  /** A socket throttled at t0 to B bytes each P seconds never has more than B on
      its counter, and by any time t has written at most B for every period begun,
      whatever is sent, however partial the writes and whenever the polls happen.
      The clock may even step backwards in between. */
  lemma ThrottleBound<T>(start: Sock<T>, bytes: int, period: int, t0: int, ops: seq<Op<T>>, t: int)
    requires bytes > 0 && period > 0 && t0 <= t
    requires NoRethrottle(ops) && PolledBy(ops, t)
    ensures var s := Step(start, Throttle(bytes, period, t0));
            var r := Run(s, ops);
            && r.throtamt <= bytes
            && |r.written| - |start.written| <= bytes * ((t - t0) / period + 1)
  {
    var s := Step(start, Throttle(bytes, period, t0));
    var k := RunWithin(s, ops, t0, t);
    var r := Run(s, ops);
    PeriodsBound(k, period, t - t0, bytes, r.throtamt, |r.written| - |start.written|);
  }

  lemma JoinedOn(had: seq<char>, blocks: seq<seq<char>>, i: nat)
    requires i < |blocks|
    ensures had + Joined(blocks[..i + 1]) == (had + Joined(blocks[..i])) + blocks[i]
  {
    assert blocks[..i + 1][..i] == blocks[..i];
    Associative(had, Joined(blocks[..i]), blocks[i]);
  }

  // ---- the socket object ----

  datatype SockType = Normal | Connecting | Listening

  class SockInfo {
    var closed: bool
    var kind: SockType
    const inBuff: BufferQueue<char>
    const outBuff: BufferQueue<char>
    var throtbytes: int
    var throtperiod: int
    var throtlast: int
    var throtamt: int
    ghost var written: seq<char>

    ghost predicate Valid()
      reads this, inBuff, outBuff, inBuff.Repr, outBuff.Repr
    {
      && this !in inBuff.Repr && this !in outBuff.Repr
      && inBuff.Repr !! outBuff.Repr && inBuff.Valid() && outBuff.Valid()
      && AtMostOneRaw(inBuff.View())
    }

    ghost function Out(): Sock<char>
      requires outBuff.Valid()
      reads this, outBuff, outBuff.Repr
    {
      Sock(outBuff.View(), written, throtbytes, throtperiod, throtlast, throtamt)
    }

    constructor ()
      ensures Valid() && Out() == Fresh() && inBuff.View() == []
      ensures !closed && kind == Normal
      ensures fresh(inBuff.Repr) && fresh(outBuff.Repr)
    {
      inBuff := new BufferQueue();
      outBuff := new BufferQueue();
      closed, kind, written := false, Normal, [];
      throtbytes, throtperiod, throtlast, throtamt := 0, 0, 0, 0;
    }

    /** `net_throttle`: what was written before does not count, a first period begins now. */
    method SetThrottle(bytes: int, period: int, now: int)
      requires Valid()
      modifies this`throtbytes, this`throtperiod, this`throtlast, this`throtamt
      ensures Valid() && Out() == Step(old(Out()), Throttle(bytes, period, now))
      ensures bytes > 0 && period > 0 ==> WithinPeriods(Out(), |written|, now, 0)
      ensures inBuff.View() == old(inBuff.View())
    {
      throtbytes, throtperiod, throtlast, throtamt := bytes, period, now, 0;
    }

    /** `net_send` once the line has been formatted. */
    method SendLine(msg: seq<char>)
      requires Valid()
      modifies outBuff.Repr
      ensures Valid() && fresh(outBuff.Repr - old(outBuff.Repr))
      ensures Out() == Step(old(Out()), Send(msg))
      ensures inBuff.View() == old(inBuff.View())
    {
      outBuff.Buffer(Pack, msg);
    }

    /** `net_sendurgent` once the line has been formatted. */
    method SendUrgent(msg: seq<char>)
      requires Valid()
      modifies outBuff.Repr
      ensures Valid() && fresh(outBuff.Repr - old(outBuff.Repr))
      ensures Out() == Step(old(Out()), Urgent(msg))
      ensures inBuff.View() == old(inBuff.View())
    {
      outBuff.BufferUrgent(msg);
    }

    /** `net_queue` */
    method QueueRaw(data: seq<char>)
      requires Valid()
      modifies outBuff.Repr
      ensures Valid() && fresh(outBuff.Repr - old(outBuff.Repr))
      ensures Out() == Step(old(Out()), Queue(data))
      ensures inBuff.View() == old(inBuff.View())
    {
      outBuff.Buffer(Raw, data);
    }

    /** The counter reset at the head of `net_poll`: once a period has passed the whole of the
        next one's bytes can go, and before that nothing changes. Whatever fitted the periods
        begun so far still does, one more having begun if the counter starts again. */
    method BeginPoll(now: int)
      requires Valid()
      modifies this`throtlast, this`throtamt
      ensures Valid() && Out() == Step(old(Out()), PollBegin(now))
      ensures if throtperiod != 0 && now - old(throtlast) >= throtperiod
              then throtamt == 0 && throtlast == now && (throtbytes > 0 ==> !Throttled(Out()))
              else Out() == old(Out())
      ensures forall base: nat, t0, k: nat :: WithinPeriods(old(Out()), base, t0, k) ==>
                WithinPeriods(Out(), base, t0, k) || (WithinPeriods(Out(), base, t0, k + 1) && throtlast == now)
      ensures inBuff.View() == old(inBuff.View())
    {
      ghost var r := AllResetWithin(Out(), now);
      if throtperiod != 0 && now - throtlast >= throtperiod {
        throtlast, throtamt := now, 0;
      }
      assert Out() == r;
    }

    /** The bytes `write` accepted leave the queue and count against the throttle. */
    method Accepted(wl: nat)
      requires Valid() && outBuff.head != null && wl <= |outBuff.head.data|
      modifies this`written, this`throtamt, outBuff.Repr
      ensures Valid() && outBuff.Repr == old(outBuff.Repr)
      ensures inBuff.View() == old(inBuff.View())
      ensures |old(Out()).out| > 0 && wl <= |old(Out()).out[0].data|
      ensures Out() == Wrote(old(Out()), wl)
    {
      ghost var s := Out();
      assert s.out[0] == outBuff.head.Value();
      var _, got := outBuff.Unbuffer(wl);
      CountWritten(got);
    }

    method CountWritten(got: seq<char>)
      requires Valid()
      modifies this`written, this`throtamt
      ensures Valid() && inBuff.View() == old(inBuff.View())
      ensures Out() == old(Out()).(written := old(written) + got,
                                   throtamt := old(throtamt) + if throtbytes != 0 then |got| else 0)
    {
      written := written + got;
      if throtbytes != 0 {
        throtamt := throtamt + |got|;
      }
    }

    /** One turn of the write loop: `write` would take `accept` bytes. */
    method WriteOnce(accept: int) returns (more: bool)
      requires Valid() && outBuff.head != null
      modifies this`written, this`throtamt, outBuff.Repr
      ensures Valid() && outBuff.Repr == old(outBuff.Repr)
      ensures inBuff.View() == old(inBuff.View())
      ensures more == (old(Out()).out != [] && !Throttled(old(Out())) && Min(accept, Chunk(old(Out()))) > 0)
      ensures more ==> Out() == Wrote(old(Out()), Min(accept, Chunk(old(Out()))))
      ensures !more ==> Out() == old(Out())
    {
      ghost var s := Out();
      assert s.out[0] == outBuff.head.Value();
      var bl := if |outBuff.head.data| > NET_BLOCK_SIZE then NET_BLOCK_SIZE else |outBuff.head.data|;
      if throtbytes != 0 {
        if throtamt >= throtbytes {
          return false;
        }
        bl := if bl > throtbytes - throtamt then throtbytes - throtamt else bl;
      }
      var wl := if accept < bl then accept else bl;
      if wl <= 0 {
        return false;
      }
      Accepted(wl);
      return true;
    }

    /** The write loop of `net_poll`. */
    method WriteOut(accepts: seq<int>)
      requires Valid()
      modifies this`written, this`throtamt, outBuff.Repr
      ensures Valid() && outBuff.Repr == old(outBuff.Repr)
      ensures Out() == Step(old(Out()), Flush(accepts))
      ensures inBuff.View() == old(inBuff.View())
    {
      var i, more := 0, true;
      while more && outBuff.head != null && i < |accepts|
        invariant 0 <= i <= |accepts|
        invariant Valid() && outBuff.Repr == old(outBuff.Repr)
        invariant inBuff.View() == old(inBuff.View())
        invariant (if more then WriteLoop(Out(), accepts[i..]) else Out()) == WriteLoop(old(Out()), accepts)
      {
        assert |outBuff.View()| == |outBuff.Spine|;
        assert accepts[i..][1..] == accepts[i + 1..];
        more := WriteOnce(accepts[i]);
        i := i + 1;
      }
      assert |outBuff.View()| == |outBuff.Spine|;
    }

    /** One call or one part of a poll. */
    method Perform(op: Op<char>)
      requires Valid()
      modifies this, outBuff.Repr
      ensures Valid() && fresh(outBuff.Repr - old(outBuff.Repr))
      ensures Out() == Step(old(Out()), op) && inBuff.View() == old(inBuff.View())
    {
      match op
      case Send(d) => SendLine(d);
      case Queue(d) => QueueRaw(d);
      case Urgent(d) => SendUrgent(d);
      case PollBegin(now) => BeginPoll(now);
      case Flush(accepts) => WriteOut(accepts);
      case Throttle(b, p, now) => SetThrottle(b, p, now);
    }

    /** A whole run of calls and polls. */
    method PerformAll(ops: seq<Op<char>>)
      requires Valid()
      modifies this, outBuff.Repr
      ensures Valid() && fresh(outBuff.Repr - old(outBuff.Repr))
      ensures Out() == Run(old(Out()), ops) && inBuff.View() == old(inBuff.View())
    {
      ghost var s := Out();
      var i := 0;
      while i < |ops|
        invariant i <= |ops| && Valid() && fresh(outBuff.Repr - old(outBuff.Repr))
        invariant Out() == Run(s, ops[..i]) && inBuff.View() == old(inBuff.View())
      {
        assert ops[..i + 1][..i] == ops[..i];
        Perform(ops[i]);
        i := i + 1;
      }
      assert ops[..|ops|] == ops;
    }

    /** The throttle on the socket itself: set at t0 to B bytes each P seconds, by time t it
        has let at most B bytes pass for each period begun. */
    method PerformThrottled(bytes: int, period: int, t0: int, ops: seq<Op<char>>, ghost t: int)
      requires Valid() && bytes > 0 && period > 0 && t0 <= t && NoRethrottle(ops) && PolledBy(ops, t)
      modifies this, outBuff.Repr
      ensures Valid() && throtamt <= bytes
      ensures |written| - |old(written)| <= bytes * ((t - t0) / period + 1)
    {
      ThrottleBound(Out(), bytes, period, t0, ops, t);
      SetThrottle(bytes, period, t0);
      PerformAll(ops);
    }

    /** One block read from the socket joins the input buffer. */
    method ReadBlock(block: seq<char>)
      requires Valid() && block != []
      modifies inBuff.Repr
      ensures Valid() && fresh(inBuff.Repr - old(inBuff.Repr))
      ensures Out() == old(Out())
      ensures Flatten(inBuff.View()) == Flatten(old(inBuff.View())) + block
    {
      RawAppendKeepsOne(inBuff.View(), block);
      AppendFlatten(inBuff.View(), Raw, block);
      inBuff.Buffer(Raw, block);
    }

    /** The read loop of `net_poll`. */
    method ReadIn(blocks: seq<seq<char>>)
      requires Valid() && forall b | b in blocks :: b != []
      modifies inBuff.Repr
      ensures Valid() && fresh(inBuff.Repr - old(inBuff.Repr))
      ensures Out() == old(Out())
      ensures Flatten(inBuff.View()) == Flatten(old(inBuff.View())) + Joined(blocks)
    {
      ghost var had := Flatten(inBuff.View());
      for i := 0 to |blocks|
        invariant Valid() && Out() == old(Out())
        invariant fresh(inBuff.Repr - old(inBuff.Repr))
        invariant Flatten(inBuff.View()) == had + Joined(blocks[..i])
      {
        assert blocks[i] in blocks;
        ReadBlock(blocks[i]);
        JoinedOn(had, blocks, i);
      }
      assert blocks[..|blocks|] == blocks;
    }

    /** `net_gets` */
    method GetsLine(delim: seq<char>) returns (ret: nat, line: seq<char>)
      requires Valid()
      modifies inBuff.Repr
      ensures Valid() && inBuff.Repr == old(inBuff.Repr)
      ensures Out() == old(Out())
      ensures var g := Gets(Flatten(old(inBuff.View())), delim);
              ret == g.ret && line == g.line && Flatten(inBuff.View()) == g.rest
    {
      ghost var q := inBuff.View();
      if inBuff.head == null {
        assert q == [];
        return 0, [];
      }
      assert q == [inBuff.head.Value()];
      FlattenOne(q[0]);
      var buff := inBuff.head.data;
      var retlen := Cspn(buff, delim);
      var getlen := retlen + Spn(buff[retlen..], delim);
      if retlen == |buff| {
        return 0, [];
      }
      DropFlatten(q, getlen);
      var _, got := inBuff.Unbuffer(getlen);
      return retlen, got[..retlen];
    }

    /** `net_read`; a length of 0 asks how much there is. */
    method ReadBytes(len: nat) returns (ret: nat, got: seq<char>)
      requires Valid()
      modifies inBuff.Repr
      ensures Valid() && inBuff.Repr == old(inBuff.Repr)
      ensures Out() == old(Out())
      ensures var buf := Flatten(old(inBuff.View()));
              if len == 0 then ret == |buf| && got == [] && Flatten(inBuff.View()) == buf
              else if len <= |buf| then ret == len && got == buf[..len] && Flatten(inBuff.View()) == buf[len..]
              else ret == 0 && got == [] && Flatten(inBuff.View()) == buf
    {
      ghost var q := inBuff.View();
      if inBuff.head == null {
        assert q == [];
        return 0, [];
      }
      assert q == [inBuff.head.Value()];
      FlattenOne(q[0]);
      if len == 0 {
        return |inBuff.head.data|, [];
      }
      if len <= |inBuff.head.data| {
        DropFlatten(q, len);
      }
      var ok, data := inBuff.Unbuffer(len);
      if ok {
        return len, data;
      }
      return 0, [];
    }
  }

  // ---- closed sockets ----

  /** A closed socket goes unless it is an ordinary one with output left. */
  predicate Spent(s: SockInfo)
    reads s, s.outBuff
  {
    s.closed && (s.kind != Normal || s.outBuff.head == null)
  }

  function Staying(ss: seq<SockInfo>): seq<SockInfo>
    reads ss, set s <- ss :: s.outBuff
  {
    if ss == [] then [] else (if Spent(ss[0]) then [] else [ss[0]]) + Staying(ss[1..])
  }

  /** Closing loses no output: a socket goes exactly when it is closed and, if it is an
      ordinary one, everything queued has been written. */
  lemma {:induction false} StayingIff(ss: seq<SockInfo>, s: SockInfo)
    requires s.Valid()
    ensures s in Staying(ss) <==> s in ss && !(s.closed && (s.kind == Normal ==> s.Out().out == []))
  {
    if ss != [] {
      StayingIff(ss[1..], s);
      assert |s.outBuff.View()| == |s.outBuff.Spine|;
      assert ss == [ss[0]] + ss[1..];
    }
  }

  lemma {:induction false} StayingInOrder(a: seq<SockInfo>, b: seq<SockInfo>)
    ensures Staying(a + b) == Staying(a) + Staying(b)
  {
    if a == [] {
      assert a + b == b;
    } else {
      StayingInOrder(a[1..], b);
      assert (a + b)[0] == a[0] && (a + b)[1..] == a[1..] + b;
      Associative(if Spent(a[0]) then [] else [a[0]], Staying(a[1..]), Staying(b));
    }
  }

  lemma StayingStep(kept: seq<SockInfo>, ss: seq<SockInfo>, i: nat)
    requires i < |ss|
    ensures kept + Staying(ss[i..]) == (if Spent(ss[i]) then kept else kept + [ss[i]]) + Staying(ss[i + 1..])
  {
  }

  class Sockets {
    var sockets: seq<SockInfo>

    constructor ()
      ensures sockets == []
    {
      sockets := [];
    }

    /** `_net_expunge` */
    method Expunge()
      modifies this
      ensures sockets == old(Staying(sockets))
    {
      var kept: seq<SockInfo>, i := [], 0;
      while i < |sockets|
        invariant i <= |sockets| && sockets == old(sockets)
        invariant kept + Staying(sockets[i..]) == old(Staying(sockets))
      {
        var s := sockets[i];
        StayingStep(kept, sockets, i);
        if !(s.closed && (s.kind != Normal || s.outBuff.head == null)) {
          kept := kept + [s];
        }
        i := i + 1;
      }
      sockets := kept;
    }
  }

  function Joined(blocks: seq<seq<char>>): seq<char> {
    if blocks == [] then [] else Joined(blocks[..|blocks| - 1]) + blocks[|blocks| - 1]
  }
}
