/** What does go out: the exact number of bytes that leave a socket in a poll, and over
    several polls, when the other side takes all it is offered. */
module NetProgress {
  import opened Basics
  import opened NetBuffers
  import opened NetSocket
  import opened Seqs

  /** The bytes that can leave: those before the first empty node, at which `write` would
      be asked to take nothing and the loop stops. */
  function Sendable<T>(q: seq<Buf<T>>): seq<T> {
    if q == [] || q[0].data == [] then [] else q[0].data + Sendable(q[1..])
  }

  /** At most how many writes that takes. */
  function Writes<T>(q: seq<Buf<T>>): nat {
    if q == [] then 0 else (|q[0].data| + NET_BLOCK_SIZE - 1) / NET_BLOCK_SIZE + Writes(q[1..])
  }

  /** Each of at least n writes takes a whole block if it is offered one. */
  predicate Willing(accepts: seq<int>, n: nat) {
    |accepts| >= n && forall k :: 0 <= k < |accepts| ==> accepts[k] >= NET_BLOCK_SIZE
  }

  /** n of the bytes that could leave have left, and all the others still can. */
  ghost predicate HasSent<T>(r: Sock<T>, s: Sock<T>, n: int) {
    && 0 <= n <= |Sendable(s.out)|
    && r.written == s.written + Sendable(s.out)[..n] && Sendable(r.out) == Sendable(s.out)[n..]
    && Writes(r.out) <= Writes(s.out)
    && r.throtbytes == s.throtbytes && r.throtperiod == s.throtperiod
  }

  /** What the throttle lets pass of `queued` bytes when `amt` have passed in this period. */
  function Share(bytes: int, amt: int, queued: nat): (n: nat)
    ensures n <= queued
  {
    if bytes == 0 then queued else if amt >= bytes then 0 else Min(bytes - amt, queued)
  }

  // ---- one poll ----

  /** One write of n bytes of the first node. */
  lemma WroteSends<T>(s: Sock<T>, n: nat)
    requires s.out != [] && 0 < n <= |s.out[0].data|
    ensures HasSent(Wrote(s, n), s, n)
    ensures n >= Min(|s.out[0].data|, NET_BLOCK_SIZE) ==> Writes(Wrote(s, n).out) < Writes(s.out)
  {
    var d, rest := s.out[0].data, Sendable(s.out[1..]);
    TakeDropConcat(d, rest, n);
    if n < |d| {
      assert DropFront(s.out, n)[1..] == s.out[1..];
    } else {
      assert d[n..] + rest == rest;
    }
  }

  lemma SendsMore<T>(t: Sock<T>, r: Sock<T>, s: Sock<T>, n: nat, m: nat)
    requires HasSent(r, s, n) && HasSent(t, r, m)
    ensures HasSent(t, s, n + m)
  {
    var f := Sendable(s.out);
    assert f[..n] + f[n..][..m] == f[..n + m] && f[n..][m..] == f[n + m..];
    Associative(s.written, f[..n], f[n..][..m]);
  }

  /** A flush that sends the throttle's share of what can leave, and counts it. */
  ghost predicate SendsShare<T>(r: Sock<T>, s: Sock<T>) {
    var n := Share(s.throtbytes, s.throtamt, |Sendable(s.out)|);
    && HasSent(r, s, n) && r.throtlast == s.throtlast
    && r.throtamt == s.throtamt + if s.throtbytes != 0 then n else 0
  }

  lemma SendsNothing<T>(s: Sock<T>)
    ensures HasSent(s, s, 0)
  {
    assert s.written + [] == s.written;
  }

  lemma ShareGoesOn<T>(t: Sock<T>, r: Sock<T>, s: Sock<T>, n: nat)
    requires SendsShare(t, r) && HasSent(r, s, n) && r.throtlast == s.throtlast
    requires s.throtbytes != 0 ==> n <= s.throtbytes - s.throtamt
    requires r.throtamt == s.throtamt + if s.throtbytes != 0 then n else 0
    ensures SendsShare(t, s)
  {
    SendsMore(t, r, s, n, Share(r.throtbytes, r.throtamt, |Sendable(r.out)|));
  }

  /** When the writes take all they are offered, exactly the throttle's share of what can
      leave does leave, in order, and counts against the throttle. */
  lemma {:induction false} FlushExact<T>(s: Sock<T>, accepts: seq<int>)
    requires Willing(accepts, Writes(s.out))
    ensures SendsShare(Step(s, Flush(accepts)), s)
    decreases |accepts|
  {
    SendsNothing(s);
    if s.out != [] && !Throttled(s) && s.out[0].data != [] {
      var n := Min(accepts[0], Chunk(s));
      var r := Wrote(s, n);
      WroteSends(s, n);
      assert Step(s, Flush(accepts)) == WriteLoop(r, accepts[1..]);
      if Throttled(r) {
        SendsNothing(r);
        assert SendsShare(r, r);
      } else {
        FlushExact(r, accepts[1..]);
      }
      ShareGoesOn(Step(s, Flush(accepts)), r, s, n);
    }
  }

  lemma RunSnoc<T>(s: Sock<T>, ops: seq<Op<T>>, op: Op<T>)
    ensures Run(s, ops + [op]) == Step(Run(s, ops), op)
  {
    assert (ops + [op])[..|ops|] == ops;
  }

  lemma RunTwo<T>(s: Sock<T>, ops: seq<Op<T>>, a: Op<T>, b: Op<T>)
    ensures Run(s, ops + [a, b]) == Step(Step(Run(s, ops), a), b)
  {
    assert (ops + [a]) + [b] == ops + [a, b];
    RunSnoc(s, ops, a);
    RunSnoc(s, ops + [a], b);
  }

  lemma RunPair<T>(s: Sock<T>, a: Op<T>, b: Op<T>)
    ensures Run(s, [a, b]) == Step(Step(s, a), b)
  {
    RunTwo(s, [], a, b);
    assert [] + [a, b] == [a, b];
  }

  /** What has passed already in the period a poll at `now` falls into. */
  function Counted<T>(s: Sock<T>, now: int): int {
    if s.throtperiod != 0 && now - s.throtlast >= s.throtperiod then 0 else s.throtamt
  }

  /** One poll: the share of the period it falls into, which is a new one exactly when the
      last one that began is at least a period ago. */
  lemma PollExact<T>(s: Sock<T>, now: int, accepts: seq<int>)
    requires Willing(accepts, Writes(s.out))
    ensures HasSent(Run(s, [PollBegin(now), Flush(accepts)]), s,
                    Share(s.throtbytes, Counted(s, now), |Sendable(s.out)|))
  {
    RunPair(s, PollBegin(now), Flush(accepts));
    FlushExact(Step(s, PollBegin(now)), accepts);
  }

  /** After a new throttle its bytes can leave at once. */
  lemma ThrottleThenFlush<T>(s: Sock<T>, bytes: int, period: int, now: int, accepts: seq<int>)
    requires Willing(accepts, Writes(s.out))
    ensures var r := Run(s, [Throttle(bytes, period, now), Flush(accepts)]);
            && r.written == s.written + Sendable(s.out)[..Share(bytes, 0, |Sendable(s.out)|)]
            && r.throtbytes == bytes && r.throtperiod == period && r.throtlast == now
  {
    RunPair(s, Throttle(bytes, period, now), Flush(accepts));
    FlushExact(Step(s, Throttle(bytes, period, now)), accepts);
  }

  /** Progress however little is accepted: in a poll that begins a period, with something
      that can leave, a first write that takes anything writes something. */
  lemma PollWrites<T>(s: Sock<T>, now: int, accepts: seq<int>)
    requires s.throtbytes > 0 && s.throtperiod > 0 && now - s.throtlast >= s.throtperiod
    requires Sendable(s.out) != [] && accepts != [] && accepts[0] > 0
    ensures |Run(s, [PollBegin(now), Flush(accepts)]).written| > |s.written|
  {
    RunPair(s, PollBegin(now), Flush(accepts));
    var t := Step(s, PollBegin(now));
    NeverUnwritten(Wrote(t, Min(accepts[0], Chunk(t))), accepts[1..]);
  }

  lemma {:induction false} NeverUnwritten<T>(s: Sock<T>, accepts: seq<int>)
    ensures |WriteLoop(s, accepts).written| >= |s.written|
    decreases |accepts|
  {
    if s.out == [] || Throttled(s) || accepts == [] || Min(accepts[0], Chunk(s)) <= 0 {
    } else {
      NeverUnwritten(Wrote(s, Min(accepts[0], Chunk(s))), accepts[1..]);
    }
  }

  // ---- many polls ----

  function Polls<T>(times: seq<int>, accepts: seq<int>): seq<Op<T>> {
    if times == [] then [] else Polls(times[..|times| - 1], accepts) + [PollBegin(times[|times| - 1]), Flush(accepts)]
  }

  function Latest(times: seq<int>, last: int): int {
    if times == [] then last else times[|times| - 1]
  }

  /** Each poll at least a period after the one before, the first a period after `last`. */
  predicate Spaced(times: seq<int>, last: int, period: int) {
    times == []
    || (Spaced(times[..|times| - 1], last, period)
        && times[|times| - 1] - Latest(times[..|times| - 1], last) >= period)
  }

  /** k periods' bytes have left, or all that could. */
  ghost predicate HasSentIn<T>(r: Sock<T>, s: Sock<T>, k: nat) {
    HasSent(r, s, Min(k * s.throtbytes, |Sendable(s.out)|))
  }

  /** The throttle does not only bound what leaves: polled once a period, with writes that
      take all they are offered, a socket sends exactly B bytes of what can leave each time,
      until nothing of it is left. */
  lemma {:induction false} DrainsByPeriods<T>(s: Sock<T>, times: seq<int>, accepts: seq<int>)
    requires s.throtbytes > 0 && s.throtperiod > 0 && Spaced(times, s.throtlast, s.throtperiod)
    requires Willing(accepts, Writes(s.out))
    ensures HasSentIn(Run(s, Polls(times, accepts)), s, |times|)
    ensures Run(s, Polls(times, accepts)).throtlast == Latest(times, s.throtlast)
  {
    if times == [] {
      SendsNothing(s);
    } else {
      var before, now := times[..|times| - 1], times[|times| - 1];
      DrainsByPeriods(s, before, accepts);
      RunTwo(s, Polls(before, accepts), PollBegin(now), Flush(accepts));
      PeriodSends(s, Run(s, Polls(before, accepts)), |before|, now, accepts);
    }
  }

  lemma OneMorePeriod(k: nat, b: nat, f: nat)
    requires b > 0
    ensures 0 <= Min(k * b, f) && Min((k + 1) * b, f) == Min(k * b, f) + Share(b, 0, f - Min(k * b, f))
  {
    assert (k + 1) * b == k * b + b;
  }

  lemma PeriodSends<T>(s: Sock<T>, r: Sock<T>, k: nat, now: int, accepts: seq<int>)
    requires HasSentIn(r, s, k) && s.throtbytes > 0 && s.throtperiod > 0 && now - r.throtlast >= s.throtperiod
    requires Willing(accepts, Writes(s.out))
    ensures var t := Step(Step(r, PollBegin(now)), Flush(accepts));
            HasSentIn(t, s, k + 1) && t.throtlast == now
  {
    var b, n := Step(r, PollBegin(now)), Min(k * s.throtbytes, |Sendable(s.out)|);
    FlushExact(b, accepts);
    OneMorePeriod(k, s.throtbytes, |Sendable(s.out)|);
    BeginsAnew(r, s, n, now);
    SendsMore(Step(b, Flush(accepts)), b, s, n, Share(s.throtbytes, 0, |Sendable(b.out)|));
  }

  lemma BeginsAnew<T>(r: Sock<T>, s: Sock<T>, n: nat, now: int)
    requires HasSent(r, s, n) && s.throtperiod > 0 && now - r.throtlast >= s.throtperiod
    ensures var b := Step(r, PollBegin(now));
            && HasSent(b, s, n) && b.throtamt == 0 && b.throtlast == now
            && |Sendable(b.out)| == |Sendable(s.out)| - n
  {
  }

  // ---- what can leave is everything, unless something empty was sent ----

  predicate NoEmptyNode<T(==)>(q: seq<Buf<T>>) {
    forall i :: 0 <= i < |q| ==> q[i].data != []
  }

  predicate SendsBytes<T(==)>(op: Op<T>) {
    (op.Send? || op.Queue? || op.Urgent?) ==> op.data != []
  }

  lemma {:induction false} AllSendable<T>(q: seq<Buf<T>>)
    requires NoEmptyNode(q)
    ensures Sendable(q) == Flatten(q)
  {
    if q != [] {
      assert q[0].data != [];
      AllSendable(q[1..]);
    }
  }

  /** Something waits behind an empty node. */
  predicate Stuck<T(==)>(q: seq<Buf<T>>) {
    exists i, j :: 0 <= i < j < |q| && q[i].data == [] && q[j].data != []
  }

  /** All that is queued can leave if and only if nothing waits behind an empty node. */
  lemma {:induction false} StuckIff<T>(q: seq<Buf<T>>)
    ensures Sendable(q) == Flatten(q) <==> !Stuck(q)
  {
    if q != [] {
      var d, rest := q[0].data, q[1..];
      if d == [] {
        assert Flatten(q) == Flatten(rest);
        FlattenEmpty(rest);
      } else {
        StuckIff(rest);
        StuckBehind(q);
        assert (d + Sendable(rest))[|d|..] == Sendable(rest) && (d + Flatten(rest))[|d|..] == Flatten(rest);
      }
    }
  }

  lemma StuckBehind<T>(q: seq<Buf<T>>)
    requires q != [] && q[0].data != []
    ensures Stuck(q) <==> Stuck(q[1..])
  {
    var rest := q[1..];
    if Stuck(q) {
      var i, j :| 0 <= i < j < |q| && q[i].data == [] && q[j].data != [];
      assert rest[i - 1] == q[i] && rest[j - 1] == q[j];
    }
    if Stuck(rest) {
      var i, j :| 0 <= i < j < |rest| && rest[i].data == [] && rest[j].data != [];
      assert q[i + 1] == rest[i] && q[j + 1] == rest[j];
    }
  }

  lemma {:induction false} FlattenEmpty<T>(q: seq<Buf<T>>)
    ensures Flatten(q) == [] <==> forall j :: 0 <= j < |q| ==> q[j].data == []
  {
    if q != [] {
      FlattenEmpty(q[1..]);
      assert |Flatten(q)| == |q[0].data| + |Flatten(q[1..])|;
      assert q == [q[0]] + q[1..];
    }
  }

  lemma {:induction false} FlushKeepsBytes<T>(s: Sock<T>, accepts: seq<int>)
    requires NoEmptyNode(s.out)
    ensures NoEmptyNode(WriteLoop(s, accepts).out)
    decreases |accepts|
  {
    if s.out == [] || Throttled(s) || accepts == [] || Min(accepts[0], Chunk(s)) <= 0 {
    } else {
      FlushKeepsBytes(Wrote(s, Min(accepts[0], Chunk(s))), accepts[1..]);
    }
  }

  /** Over every run in which nothing empty is sent, all that is queued can leave. */
  lemma {:induction false} EverythingCanLeave<T>(ops: seq<Op<T>>)
    requires forall op | op in ops :: SendsBytes(op)
    ensures var s := Run(Fresh(), ops); NoEmptyNode(s.out) && Sendable(s.out) == Flatten(s.out)
  {
    if ops != [] {
      var before, op := ops[..|ops| - 1], ops[|ops| - 1];
      EverythingCanLeave(before);
      assert SendsBytes(op);
      if op.Flush? {
        FlushKeepsBytes(Run(Fresh(), before), op.accepts);
      }
    }
    AllSendable(Run(Fresh<T>(), ops).out);
  }

  /** So nothing that was sent waits for ever: throttled to B bytes each P seconds and
      polled once a period, a socket has written all that is queued, in order, after as many
      polls as that takes at B bytes each. */
  lemma EverythingGoesOut<T>(ops: seq<Op<T>>, bytes: int, period: int, t0: int, times: seq<int>, accepts: seq<int>)
    requires forall op | op in ops :: SendsBytes(op)
    requires bytes > 0 && period > 0 && Spaced(times, t0, period)
    requires var s := Run(Fresh(), ops);
             Willing(accepts, Writes(s.out)) && |times| * bytes >= |Flatten(s.out)|
    ensures var s := Run(Fresh(), ops);
            var r := Run(Step(s, Throttle(bytes, period, t0)), Polls(times, accepts));
            r.written == s.written + Flatten(s.out) && Sendable(r.out) == []
  {
    var s := Run(Fresh(), ops);
    EverythingCanLeave(ops);
    DrainsByPeriods(Step(s, Throttle(bytes, period, t0)), times, accepts);
    assert Flatten(s.out)[..|Flatten(s.out)|] == Flatten(s.out);
  }

  /** The output part of `net_poll` for one socket: with writes that take all they are
      offered, the share of the period leaves, and no more. */
  method PollOnce(s: SockInfo, now: int, accepts: seq<int>)
    requires s.Valid() && Willing(accepts, Writes(s.Out().out))
    modifies s, s.outBuff.Repr
    ensures s.Valid() && HasSent(s.Out(), old(s.Out()),
                                 Share(s.throtbytes, old(Counted(s.Out(), now)), |old(Sendable(s.Out().out))|))
    ensures s.inBuff.View() == old(s.inBuff.View())
  {
    ghost var was := s.Out();
    s.BeginPoll(now);
    s.WriteOut(accepts);
    RunPair(was, PollBegin(now), Flush(accepts));
    PollExact(was, now, accepts);
  }

  /** The first node is empty and not one that raw data would fill. */
  predicate Blocked<T(==)>(s: Sock<T>) {
    s.out != [] && s.out[0].data == [] && (s.out[0].mode == Pack || |s.out| > 1)
  }

  /** An empty node stops the output for good: once it is first in the queue no byte of any
      ordinary line or raw data leaves any more, whatever is sent and however long it is polled. */
  lemma {:induction false} EmptyBlocks<T>(s: Sock<T>, ops: seq<Op<T>>)
    requires Blocked(s) && forall op | op in ops :: !op.Urgent?
    ensures var r := Run(s, ops); r.written == s.written && Blocked(r)
  {
    if ops != [] {
      var before, op := ops[..|ops| - 1], ops[|ops| - 1];
      EmptyBlocks(s, before);
      assert op in ops;
    }
  }
}
