/** What reaches the wire. Every byte handed to a socket is tagged with the call that
    brought it, and the theorems speak about the tagged bytes written so far followed
    by the ones still queued; `UntagRun` ties that stream back to the plain bytes. */
module NetStream {
  import opened Basics
  import opened Seqs
  import opened NetBuffers
  import opened NetSocket

  datatype Kind = Line | Data | Jump

  /** Byte `off` of the `size` bytes brought by call number `id`. */
  datatype Tagged<T> = Tagged(id: nat, kind: Kind, off: nat, size: nat, val: T)

  predicate HasData<T>(op: Op<T>) {
    op.Send? || op.Queue? || op.Urgent?
  }

  function KindOf<T>(op: Op<T>): Kind
    requires HasData(op)
  {
    match op case Send(_) => Line case Queue(_) => Data case Urgent(_) => Jump
  }

  function TagData<T>(id: nat, kind: Kind, d: seq<T>): (t: seq<Tagged<T>>)
    ensures |t| == |d|
  {
    seq(|d|, i requires 0 <= i < |d| => Tagged(id, kind, i, |d|, d[i]))
  }

  function Payload<T>(id: nat, op: Op<T>): seq<Tagged<T>> {
    if HasData(op) then TagData(id, KindOf(op), op.data) else []
  }

  function TagOp<T>(id: nat, op: Op<T>): Op<Tagged<T>> {
    match op
    case Send(_) => Send(Payload(id, op))
    case Queue(_) => Queue(Payload(id, op))
    case Urgent(_) => Urgent(Payload(id, op))
    case PollBegin(now) => PollBegin(now)
    case Flush(accepts) => Flush(accepts)
    case Throttle(b, p, now) => Throttle(b, p, now)
  }

  /** The run of `ops` on a new socket with every byte tagged. */
  function TaggedRun<T>(ops: seq<Op<T>>): Sock<Tagged<T>> {
    if ops == [] then Fresh() else Step(TaggedRun(Init(ops)), TagOp(|ops| - 1, Last(ops)))
  }

  function Init<T>(s: seq<T>): seq<T>
    requires s != []
  {
    s[..|s| - 1]
  }

  function Last<T>(s: seq<T>): T
    requires s != []
  {
    s[|s| - 1]
  }

  /** Everything written, then everything queued. */
  function Stream<T>(s: Sock<T>): seq<T> {
    s.written + Flatten(s.out)
  }

  // ---- erasing the tags gives the real run ----

  function Untag<T>(s: seq<Tagged<T>>): (r: seq<T>)
    ensures |r| == |s|
  {
    seq(|s|, i requires 0 <= i < |s| => s[i].val)
  }

  function UntagBuf<T>(b: Buf<Tagged<T>>): Buf<T> {
    Buf(Untag(b.data), b.linelen, b.mode)
  }

  function UntagQueue<T>(q: seq<Buf<Tagged<T>>>): (r: seq<Buf<T>>)
    ensures |r| == |q|
  {
    seq(|q|, i requires 0 <= i < |q| => UntagBuf(q[i]))
  }

  function UntagSock<T>(s: Sock<Tagged<T>>): Sock<T> {
    Sock(UntagQueue(s.out), Untag(s.written), s.throtbytes, s.throtperiod, s.throtlast, s.throtamt)
  }

  lemma UntagConcat<T>(a: seq<Tagged<T>>, b: seq<Tagged<T>>)
    ensures Untag(a + b) == Untag(a) + Untag(b)
  {
  }

  lemma UntagAppend<T>(q: seq<Buf<Tagged<T>>>, mode: Mode, d: seq<Tagged<T>>)
    ensures UntagQueue(Append(q, mode, d)) == Append(UntagQueue(q), mode, Untag(d))
  {
    if mode == Raw && q != [] && q[|q| - 1].mode == Raw {
      UntagConcat(q[|q| - 1].data, d);
    }
  }

  lemma UntagDrop<T>(q: seq<Buf<Tagged<T>>>, n: nat)
    requires q != [] && n <= |q[0].data|
    ensures UntagQueue(DropFront(q, n)) == DropFront(UntagQueue(q), n)
    ensures Untag(q[0].data[..n]) == UntagQueue(q)[0].data[..n]
  {
    var a, b := UntagQueue(DropFront(q, n)), DropFront(UntagQueue(q), n);
    if n < |q[0].data| {
      assert a[0] == b[0];
      assert forall i :: 1 <= i < |a| ==> a[i] == b[i];
    }
  }

  lemma {:induction false} UntagWriteLoop<T>(s: Sock<Tagged<T>>, accepts: seq<int>)
    ensures UntagSock(WriteLoop(s, accepts)) == WriteLoop(UntagSock(s), accepts)
    decreases |accepts|
  {
    var u := UntagSock(s);
    if s.out == [] || Throttled(s) || accepts == [] || Min(accepts[0], Chunk(s)) <= 0 {
    } else {
      var n := Min(accepts[0], Chunk(s));
      UntagWriteLoop(Wrote(s, n), accepts[1..]);
      UntagConcat(s.written, s.out[0].data[..n]);
      UntagDrop(s.out, n);
      assert UntagSock(Wrote(s, n)) == Wrote(u, n);
    }
  }

  /** The tags are only for the statement: forgetting them gives the run of the code. */
  lemma {:induction false} UntagRun<T>(ops: seq<Op<T>>)
    ensures UntagSock(TaggedRun(ops)) == Run(Fresh(), ops)
  {
    if ops != [] {
      UntagRun(Init(ops));
      UntagStep(TaggedRun(Init(ops)), |ops| - 1, Last(ops));
    }
  }

  lemma UntagStep<T>(s: Sock<Tagged<T>>, n: nat, op: Op<T>)
    ensures UntagSock(Step(s, TagOp(n, op))) == Step(UntagSock(s), op)
  {
    if HasData(op) {
      assert Untag(Payload(n, op)) == op.data;
    }
    match op {
      case Send(d) => UntagAppend(s.out, Pack, Payload(n, op));
      case Queue(d) => UntagAppend(s.out, Raw, Payload(n, op));
      case Urgent(d) =>
        assert UntagQueue(PushUrgent(s.out, Payload(n, op))) == PushUrgent(UntagQueue(s.out), d);
      case Flush(accepts) => UntagWriteLoop(s, accepts);
      case PollBegin(_) =>
      case Throttle(_, _, _) =>
    }
  }

  lemma {:induction false} UntagFlatten<T>(q: seq<Buf<Tagged<T>>>)
    ensures Untag(Flatten(q)) == Flatten(UntagQueue(q))
  {
    if q != [] {
      UntagFlatten(q[1..]);
      UntagConcat(q[0].data, Flatten(q[1..]));
      assert UntagQueue(q)[1..] == UntagQueue(q[1..]);
    }
  }

  /** The stream of the theorems below is the stream of the real socket. */
  lemma StreamIsReal<T>(ops: seq<Op<T>>)
    ensures Untag(Stream(TaggedRun(ops))) == Stream(Run(Fresh(), ops))
  {
    var s := TaggedRun(ops);
    UntagRun(ops);
    UntagFlatten(s.out);
    UntagConcat(s.written, Flatten(s.out));
  }

  // ---- how one call changes the stream ----

  lemma {:induction false} WriteLoopStream<T>(s: Sock<T>, accepts: seq<int>)
    ensures Stream(WriteLoop(s, accepts)) == Stream(s)
    decreases |accepts|
  {
    if s.out == [] || Throttled(s) || accepts == [] || Min(accepts[0], Chunk(s)) <= 0 {
    } else {
      var n := Min(accepts[0], Chunk(s));
      var f := Flatten(s.out);
      WriteLoopStream(Wrote(s, n), accepts[1..]);
      DropFlatten(s.out, n);
      SplitAt(f, n);
      Associative(s.written, f[..n], f[n..]);
    }
  }

  function InsertAt<T>(s: seq<T>, p: nat, x: seq<T>): seq<T>
    requires p <= |s|
  {
    s[..p] + x + s[p..]
  }

  /** Where the payload of `op` enters the stream. */
  function Place<T>(s: Sock<T>, op: Op<T>): (p: nat)
    ensures p <= |Stream(s)|
  {
    UrgentFlatten(s.out, []);
    if op.Urgent? then |s.written| + UrgentPosition(s.out) else |Stream(s)|
  }

  lemma StepStream<T>(s: Sock<T>, op: Op<T>)
    ensures Stream(Step(s, op)) ==
            if HasData(op) then InsertAt(Stream(s), Place(s, op), op.data) else Stream(s)
  {
    var w, f := s.written, Flatten(s.out);
    match op {
      case Send(d) =>
        AppendFlatten(s.out, Pack, d);
        AtEnd(w + f, d);
        Associative(w, f, d);
      case Queue(d) =>
        AppendFlatten(s.out, Raw, d);
        AtEnd(w + f, d);
        Associative(w, f, d);
      case Urgent(d) =>
        UrgentFlatten(s.out, d);
        ShiftInsert(w, f, UrgentPosition(s.out), d);
      case Flush(accepts) => WriteLoopStream(s, accepts);
      case PollBegin(_) =>
      case Throttle(_, _, _) =>
    }
  }

  lemma AtEnd<T>(s: seq<T>, d: seq<T>)
    ensures InsertAt(s, |s|, d) == s + d
  {
  }

  lemma ShiftInsert<T>(w: seq<T>, f: seq<T>, p: nat, d: seq<T>)
    requires p <= |f|
    ensures w + (f[..p] + d + f[p..]) == InsertAt(w + f, |w| + p, d)
  {
  }

  // ---- conservation and order ----

  function Pick<T>(s: seq<T>, f: T -> bool): seq<T> {
    if s == [] then [] else (if f(s[0]) then [s[0]] else []) + Pick(s[1..], f)
  }

  lemma {:induction false} PickConcat<T>(a: seq<T>, b: seq<T>, f: T -> bool)
    ensures Pick(a + b, f) == Pick(a, f) + Pick(b, f)
  {
    if a == [] {
      assert a + b == b;
    } else {
      PickConcat(a[1..], b, f);
      assert (a + b)[0] == a[0] && (a + b)[1..] == a[1..] + b;
      Associative(if f(a[0]) then [a[0]] else [], Pick(a[1..], f), Pick(b, f));
    }
  }

  lemma {:induction false} PickAll<T>(s: seq<T>, f: T -> bool)
    requires forall i :: 0 <= i < |s| ==> f(s[i])
    ensures Pick(s, f) == s
  {
    if s != [] {
      PickAll(s[1..], f);
      assert s == [s[0]] + s[1..];
    }
  }

  lemma {:induction false} PickNone<T>(s: seq<T>, f: T -> bool)
    ensures Pick(s, f) == [] <==> forall i :: 0 <= i < |s| ==> !f(s[i])
  {
    if s != [] {
      PickNone(s[1..], f);
      assert forall i :: 1 <= i < |s| ==> s[i] == s[1..][i - 1];
      if Pick(s, f) == [] {
        assert forall i :: 0 <= i < |s| ==> !f(s[i]);
      } else if Pick(s[1..], f) != [] {
        var i :| 0 <= i < |s[1..]| && f(s[1..][i]);
        assert f(s[i + 1]);
      }
    }
  }

  lemma PickInsert<T>(s: seq<T>, p: nat, x: seq<T>, f: T -> bool)
    requires p <= |s|
    ensures Pick(InsertAt(s, p, x), f) == Pick(s[..p], f) + Pick(x, f) + Pick(s[p..], f)
    ensures Pick(s, f) == Pick(s[..p], f) + Pick(s[p..], f)
  {
    PickConcat(s[..p] + x, s[p..], f);
    PickConcat(s[..p], x, f);
    PickConcat(s[..p], s[p..], f);
    SplitAt(s, p);
  }

  function WithId<T>(k: nat): Tagged<T> -> bool {
    (t: Tagged<T>) => t.id == k
  }

  function Ordinary<T>(): Tagged<T> -> bool {
    (t: Tagged<T>) => t.kind != Jump
  }

  lemma PickInsertCases<T>(s: seq<T>, p: nat, x: seq<T>, f: T -> bool)
    requires p <= |s|
    ensures Pick(x, f) == [] ==> Pick(InsertAt(s, p, x), f) == Pick(s, f)
    ensures p == |s| || Pick(s, f) == [] ==> Pick(InsertAt(s, p, x), f) == Pick(s, f) + Pick(x, f)
  {
    PickInsert(s, p, x, f);
    if p == |s| {
      assert s[p..] == [];
    } else if Pick(s, f) == [] {
      assert |Pick(s[..p], f)| == 0 && |Pick(s[p..], f)| == 0;
    }
  }

  /** The stream after one more call: its payload is inserted, or nothing changes. */
  function Grown<T>(s: Sock<Tagged<T>>, n: nat, op: Op<T>): seq<Tagged<T>> {
    if HasData(op) then InsertAt(Stream(s), Place(s, TagOp(n, op)), Payload(n, op)) else Stream(s)
  }

  lemma CallOn<T>(s: Sock<Tagged<T>>, n: nat, op: Op<T>)
    ensures Stream(Step(s, TagOp(n, op))) == Grown(s, n, op)
  {
    StepStream(s, TagOp(n, op));
  }

  lemma LastCall<T>(ops: seq<Op<T>>)
    requires ops != []
    ensures Stream(TaggedRun(ops)) == Grown(TaggedRun(Init(ops)), |ops| - 1, Last(ops))
  {
    CallOn(TaggedRun(Init(ops)), |ops| - 1, Last(ops));
  }

  lemma PickGrown<T>(s: Sock<Tagged<T>>, n: nat, op: Op<T>, f: Tagged<T> -> bool)
    ensures var was, now := Pick(Stream(s), f), Pick(Grown(s, n, op), f);
            var x := Pick(Payload(n, op), f);
            && (x == [] ==> now == was)
            && (!op.Urgent? || was == [] ==> now == was + x)
  {
    if HasData(op) {
      PickInsertCases(Stream(s), Place(s, TagOp(n, op)), Payload(n, op), f);
    }
  }

  lemma PickStep<T>(ops: seq<Op<T>>, f: Tagged<T> -> bool)
    requires ops != []
    ensures var was, now := Pick(Stream(TaggedRun(Init(ops))), f), Pick(Stream(TaggedRun(ops)), f);
            var x := Pick(Payload(|ops| - 1, Last(ops)), f);
            && (x == [] ==> now == was)
            && (!Last(ops).Urgent? || was == [] ==> now == was + x)
  {
    LastCall(ops);
    PickGrown(TaggedRun(Init(ops)), |ops| - 1, Last(ops), f);
  }

  lemma PickPayload<T>(n: nat, op: Op<T>, k: nat)
    ensures Pick(Payload(n, op), WithId(k)) == if n == k then Payload(n, op) else []
    ensures Pick(Payload(n, op), Ordinary()) == if op.Urgent? then [] else Payload(n, op)
  {
    PickNone(Payload(n, op), WithId(k));
    PickNone(Payload(n, op), Ordinary());
    if n == k {
      PickAll(Payload(n, op), WithId(k));
    }
    if !op.Urgent? {
      PickAll(Payload(n, op), Ordinary());
    }
  }

  /** Conservation: the stream holds each payload exactly once, its bytes in order. */
  lemma {:induction false} EachPayloadOnce<T>(ops: seq<Op<T>>, k: nat)
    ensures Pick(Stream(TaggedRun(ops)), WithId(k)) == if k < |ops| then Payload(k, ops[k]) else []
  {
    if ops != [] {
      var n := |ops| - 1;
      EachPayloadOnce(Init(ops), k);
      PickStep(ops, WithId(k));
      PickPayload(n, Last(ops), k);
      if k < n {
        assert Init(ops)[k] == ops[k];
      } else if k == n {
        assert Last(ops) == ops[k];
      }
    }
  }

  function OrdinaryPayloads<T>(ops: seq<Op<T>>): seq<Tagged<T>> {
    if ops == [] then []
    else OrdinaryPayloads(Init(ops)) + if Last(ops).Urgent? then [] else Payload(|ops| - 1, Last(ops))
  }

  /** Order: leaving the urgent bytes out, the stream is every other payload in the
      order of the calls. */
  lemma {:induction false} OrdinaryInOrder<T>(ops: seq<Op<T>>)
    ensures Pick(Stream(TaggedRun(ops)), Ordinary()) == OrdinaryPayloads(ops)
  {
    if ops != [] {
      OrdinaryInOrder(Init(ops));
      PickStep(ops, Ordinary());
      PickPayload(|ops| - 1, Last(ops), 0);
    }
  }

  // ---- contiguity ----

  predicate At<T(==)>(s: seq<T>, a: nat, d: seq<T>) {
    a + |d| <= |s| && s[a..a + |d|] == d
  }

  ghost predicate Contiguous<T>(s: seq<T>, d: seq<T>) {
    exists a: nat :: At(s, a, d)
  }

  /** Bytes of a line sit alone in one node, and are the tail of that line. */
  ghost predicate NodeOk<T>(b: Buf<Tagged<T>>) {
    && (forall j :: 0 <= j < |b.data| && b.data[j].kind == Line ==>
          && b.mode == Pack && b.linelen == b.data[j].size
          && b.data[j].off == b.linelen - |b.data| + j)
    && (b.mode == Pack && b.linelen > 0 ==>
          b.data != [] && forall j :: 0 <= j < |b.data| ==> b.data[j].kind == Line)
  }

  /** Only the node at the very front can be a part-written line. */
  ghost predicate QueueOk<T>(q: seq<Buf<Tagged<T>>>) {
    && (forall i :: 0 <= i < |q| ==> NodeOk(q[i]))
    && (forall i :: 1 <= i < |q| && q[i].mode == Pack ==> q[i].linelen <= |q[i].data|)
  }

  lemma {:induction false} WriteLoopQueueOk<T>(s: Sock<Tagged<T>>, accepts: seq<int>)
    requires QueueOk(s.out)
    ensures QueueOk(WriteLoop(s, accepts).out)
    decreases |accepts|
  {
    if s.out == [] || Throttled(s) || accepts == [] || Min(accepts[0], Chunk(s)) <= 0 {
    } else {
      var n := Min(accepts[0], Chunk(s));
      var q, r := s.out, DropFront(s.out, n);
      if n < |q[0].data| {
        assert forall j :: 0 <= j < |r[0].data| ==> r[0].data[j] == q[0].data[n + j];
        assert NodeOk(r[0]);
        assert forall i :: 1 <= i < |r| ==> r[i] == q[i];
      }
      WriteLoopQueueOk(Wrote(s, n), accepts[1..]);
    }
  }

  lemma StepQueueOk<T>(s: Sock<Tagged<T>>, n: nat, op: Op<T>)
    requires QueueOk(s.out)
    ensures QueueOk(Step(s, TagOp(n, op)).out)
  {
    match op {
      case Flush(accepts) => WriteLoopQueueOk(s, accepts);
      case Queue(d) => QueueRawOk(s.out, n, d);
      case Send(d) => QueueLineOk(s.out, n, d);
      case Urgent(d) => QueueUrgentOk(s.out, n, d);
      case _ =>
    }
  }

  lemma QueueRawOk<T>(q: seq<Buf<Tagged<T>>>, n: nat, d: seq<T>)
    requires QueueOk(q)
    ensures QueueOk(Append(q, Raw, Payload(n, Queue(d))))
  {
    var r := Append(q, Raw, Payload(n, Queue(d)));
    assert NodeOk(Last(r));
    assert forall i :: 0 <= i < |r| - 1 ==> r[i] == q[i];
  }

  lemma QueueLineOk<T>(q: seq<Buf<Tagged<T>>>, n: nat, d: seq<T>)
    requires QueueOk(q)
    ensures QueueOk(Append(q, Pack, Payload(n, Send(d))))
  {
    assert NodeOk(Last(Append(q, Pack, Payload(n, Send(d)))));
  }

  lemma QueueUrgentOk<T>(q: seq<Buf<Tagged<T>>>, n: nat, d: seq<T>)
    requires QueueOk(q)
    ensures QueueOk(PushUrgent(q, Payload(n, Urgent(d))))
  {
    assert NodeOk(Buf(Payload(n, Urgent(d)), 0, Pack));
  }

  lemma {:induction false} RunQueueOk<T>(ops: seq<Op<T>>)
    ensures QueueOk(TaggedRun(ops).out)
  {
    if ops != [] {
      RunQueueOk(Init(ops));
      StepQueueOk(TaggedRun(Init(ops)), |ops| - 1, Last(ops));
    }
  }

  /** A first queued byte from the middle of a line means that line heads the queue. */
  lemma {:induction false} MiddleOfLineIsHead<T>(q: seq<Buf<Tagged<T>>>)
    requires QueueOk(q) && Flatten(q) != []
    requires Flatten(q)[0].kind == Line && Flatten(q)[0].off > 0
    ensures HeadIncomplete(q)
  {
    if q[0].data == [] {
      MiddleOfLineIsHead(q[1..]);
    } else {
      assert Flatten(q)[0] == q[0].data[0];
    }
  }

  /** If a part-written line heads the queue, the byte before the place of an urgent
      payload is the last byte of that line. */
  lemma PlaceAfterLine<T>(s: Sock<Tagged<T>>, x: seq<Tagged<T>>)
    requires QueueOk(s.out) && HeadIncomplete(s.out)
    ensures var p := Place(s, Urgent(x));
            && p > 0 && Stream(s)[p - 1].kind == Line
            && Stream(s)[p - 1].off + 1 == Stream(s)[p - 1].size
    ensures |s.written| < |Stream(s)| && Stream(s)[|s.written|].kind == Line
  {
  }

  /** No payload is ever inserted strictly inside a line. */
  lemma UrgentMissesLines<T>(s: Sock<Tagged<T>>, x: seq<Tagged<T>>, a: nat, k: nat, d: seq<T>)
    requires QueueOk(s.out) && At(Stream(s), a, TagData(k, Line, d))
    ensures var p := Place(s, Urgent(x)); p <= a || a + |d| <= p
  {
    var p, str, t := Place(s, Urgent(x)), Stream(s), TagData(k, Line, d);
    if a < p < a + |d| {
      assert str[a..a + |d|][p - 1 - a] == t[p - 1 - a] && str[a..a + |d|][p - a] == t[p - a];
      if HeadIncomplete(s.out) {
        PlaceAfterLine(s, x);
      } else {
        assert Flatten(s.out)[0] == str[p];
        MiddleOfLineIsHead(s.out);
      }
    }
  }

  lemma InsertKeepsAt<T>(s: seq<T>, p: nat, x: seq<T>, a: nat, d: seq<T>)
    requires p <= |s| && At(s, a, d) && (p <= a || a + |d| <= p || x == [])
    ensures Contiguous(InsertAt(s, p, x), d)
  {
    var r := InsertAt(s, p, x);
    if x == [] {
      assert r == s;
      assert At(r, a, d);
    } else if p <= a {
      assert r[a + |x|..a + |x| + |d|] == s[a..a + |d|];
      assert At(r, a + |x|, d);
    } else {
      assert r[a..a + |d|] == s[a..a + |d|];
      assert At(r, a, d);
    }
  }

  lemma InsertIsAt<T>(s: seq<T>, p: nat, x: seq<T>)
    requires p <= |s|
    ensures Contiguous(InsertAt(s, p, x), x)
  {
    assert At(InsertAt(s, p, x), p, x);
  }

  /** Atomic lines: whatever else is sent, and however the writes are cut, every line
      given to `net_send` goes out in one piece. */
  lemma {:induction false} LinesAreAtomic<T>(ops: seq<Op<T>>, k: nat)
    requires k < |ops| && ops[k].Send?
    ensures Contiguous(Stream(TaggedRun(ops)), TagData(k, Line, ops[k].data))
  {
    var s := TaggedRun(Init(ops));
    if k == |ops| - 1 {
      StepStarts(s, k, ops[k]);
    } else {
      LinesAreAtomic(Init(ops), k);
      RunQueueOk(Init(ops));
      StepAroundLine(s, k, ops[k].data, |ops| - 1, Last(ops));
    }
  }

  lemma StepStarts<T>(s: Sock<Tagged<T>>, k: nat, op: Op<T>)
    requires HasData(op)
    ensures Contiguous(Stream(Step(s, TagOp(k, op))), Payload(k, op))
  {
    CallOn(s, k, op);
    InsertIsAt(Stream(s), Place(s, TagOp(k, op)), Payload(k, op));
  }

  lemma StepAroundLine<T>(s: Sock<Tagged<T>>, k: nat, d: seq<T>, n: nat, op: Op<T>)
    requires QueueOk(s.out) && Contiguous(Stream(s), TagData(k, Line, d))
    ensures Contiguous(Stream(Step(s, TagOp(n, op))), TagData(k, Line, d))
  {
    CallOn(s, n, op);
    if HasData(op) {
      InsertAroundLine(s, k, d, n, op);
    }
  }

  lemma InsertAroundLine<T>(s: Sock<Tagged<T>>, k: nat, d: seq<T>, n: nat, op: Op<T>)
    requires QueueOk(s.out) && HasData(op)
    requires Contiguous(Stream(s), TagData(k, Line, d))
    ensures Contiguous(InsertAt(Stream(s), Place(s, TagOp(n, op)), Payload(n, op)), TagData(k, Line, d))
  {
    var x, p, t := Payload(n, op), Place(s, TagOp(n, op)), TagData(k, Line, d);
    var a: nat :| At(Stream(s), a, t);
    if op.Urgent? {
      UrgentMissesLines(s, x, a, k, d);
    }
    InsertKeepsAt(Stream(s), p, x, a, t);
  }

  ghost predicate HasId<T>(s: seq<Tagged<T>>, k: nat) {
    exists i :: 0 <= i < |s| && s[i].id == k
  }

  /** Call k has some of its bytes written and some still waiting. */
  ghost predicate PartWritten<T>(s: Sock<Tagged<T>>, k: nat) {
    HasId(s.written, k) && HasId(Flatten(s.out), k)
  }

  /** Some urgent text arrived while call k was part-written. */
  ghost predicate Interrupted<T>(ops: seq<Op<T>>, k: nat) {
    exists j :: k < j < |ops| && InterruptedBy(ops, k, j)
  }

  ghost predicate InterruptedBy<T>(ops: seq<Op<T>>, k: nat, j: nat)
    requires j < |ops|
  {
    ops[j].Urgent? && ops[j].data != [] && PartWritten(TaggedRun(ops[..j]), k)
  }

  ghost predicate SplitUp<T>(s: seq<Tagged<T>>, k: nat) {
    exists i, m, j :: 0 <= i < m < j < |s| && s[i].id == k && s[m].id != k && s[j].id == k
  }

  lemma InsertKeepsSplit<T>(s: seq<Tagged<T>>, p: nat, x: seq<Tagged<T>>, k: nat)
    requires p <= |s| && SplitUp(s, k)
    ensures SplitUp(InsertAt(s, p, x), k)
  {
    var i, m, j :| 0 <= i < m < j < |s| && s[i].id == k && s[m].id != k && s[j].id == k;
    var r := InsertAt(s, p, x);
    var i', m', j' := Moved(i, p, |x|), Moved(m, p, |x|), Moved(j, p, |x|);
    assert r[i'] == s[i] && r[m'] == s[m] && r[j'] == s[j];
  }

  function Moved(i: nat, p: nat, n: nat): nat {
    if i < p then i else i + n
  }

  lemma PickAround<T>(pre: seq<T>, t: seq<T>, post: seq<T>, f: T -> bool)
    requires Pick(pre + t + post, f) == t == Pick(t, f)
    ensures Pick(pre, f) == [] == Pick(post, f)
  {
    PickConcat(pre + t, post, f);
    PickConcat(pre, t, f);
    assert |Pick(pre, f)| + |t| + |Pick(post, f)| == |t|;
  }

  lemma NoneOutside<T>(s: seq<Tagged<T>>, k: nat, t: seq<Tagged<T>>, a: nat)
    requires At(s, a, t) && Pick(s, WithId(k)) == t == Pick(t, WithId(k))
    ensures Pick(s[..a], WithId(k)) == [] == Pick(s[a + |t|..], WithId(k))
  {
    assert s == s[..a] + t + s[a + |t|..];
    PickAround(s[..a], t, s[a + |t|..], WithId(k));
  }

  lemma BytesInside<T>(s: seq<Tagged<T>>, k: nat, t: seq<Tagged<T>>, a: nat, i: nat)
    requires At(s, a, t) && Pick(s, WithId(k)) == t == Pick(t, WithId(k))
    requires i < |s| && s[i].id == k
    ensures a <= i < a + |t|
  {
    NoneOutside(s, k, t, a);
    if i < a {
      PickMember(s[..a], i, WithId(k));
      assert false;
    } else if a + |t| <= i {
      PickMember(s[a + |t|..], i - a - |t|, WithId(k));
      assert false;
    }
  }

  lemma AtIndex<T>(s: seq<T>, a: nat, t: seq<T>, m: nat)
    requires At(s, a, t) && a <= m < a + |t|
    ensures s[m] == t[m - a]
  {
  }

  lemma SplitIsNotContiguous<T>(s: seq<Tagged<T>>, k: nat, kind: Kind, d: seq<T>)
    requires SplitUp(s, k) && Pick(s, WithId(k)) == TagData(k, kind, d)
    ensures !Contiguous(s, TagData(k, kind, d))
  {
    var t := TagData(k, kind, d);
    PickAll(t, WithId(k));
    var i, m, j :| 0 <= i < m < j < |s| && s[i].id == k && s[m].id != k && s[j].id == k;
    if Contiguous(s, t) {
      var a: nat :| At(s, a, t);
      BytesInside(s, k, t, a, i);
      BytesInside(s, k, t, a, j);
      AtIndex(s, a, t, m);
    }
  }

  /** Every byte of call k carries the kind of call k. */
  lemma KindById<T>(ops: seq<Op<T>>, i: nat)
    requires i < |Stream(TaggedRun(ops))|
    ensures var t := Stream(TaggedRun(ops))[i];
            t.id < |ops| && HasData(ops[t.id]) && t.kind == KindOf(ops[t.id])
  {
    var s := Stream(TaggedRun(ops));
    var k := s[i].id;
    EachPayloadOnce(ops, k);
    PickNone(s, WithId(k));
    PickMember(s, i, WithId(k));
  }

  lemma {:induction false} PickMember<T>(s: seq<T>, i: nat, f: T -> bool)
    requires i < |s| && f(s[i])
    ensures s[i] in Pick(s, f)
  {
    if i > 0 {
      PickMember(s[1..], i - 1, f);
    }
  }

  lemma UrgentWhilePartWritten<T>(s: Sock<Tagged<T>>, k: nat, x: seq<Tagged<T>>)
    requires PartWritten(s, k) && QueueOk(s.out) && NotLine(Stream(s), k)
    requires x != [] && x[0].id != k
    ensures SplitUp(InsertAt(Stream(s), Place(s, Urgent(x)), x), k)
  {
    var str, p, w, f := Stream(s), Place(s, Urgent(x)), |s.written|, Flatten(s.out);
    var i :| 0 <= i < w && s.written[i].id == k;
    var j :| 0 <= j < |f| && f[j].id == k;
    assert str[i].id == k && str[w + j].id == k;
    if HeadIncomplete(s.out) {
      PlaceAfterLine(s, x);
      assert str[w].id != k;
      assert SplitUp(str, k);
      InsertKeepsSplit(str, p, x, k);
    } else {
      var r := InsertAt(str, p, x);
      assert r[i] == str[i] && r[w] == x[0] && r[w + |x| + j] == str[w + j];
    }
  }

  ghost predicate NotLine<T>(s: seq<Tagged<T>>, k: nat) {
    forall i :: 0 <= i < |s| && s[i].id == k ==> s[i].kind != Line
  }

  lemma UrgentOtherwise<T>(s: Sock<Tagged<T>>, k: nat, kind: Kind, d: seq<T>, x: seq<Tagged<T>>)
    requires kind != Line && QueueOk(s.out)
    requires Contiguous(Stream(s), TagData(k, kind, d))
    requires x == [] || !PartWritten(s, k)
    ensures Contiguous(InsertAt(Stream(s), Place(s, Urgent(x)), x), TagData(k, kind, d))
  {
    var t := TagData(k, kind, d);
    var str, p := Stream(s), Place(s, Urgent(x));
    var a: nat :| At(str, a, t);
    if a < p < a + |t| {
      AtIndex(str, a, t, p - 1);
      AtIndex(str, a, t, p);
      if HeadIncomplete(s.out) {
        PlaceAfterLine(s, x);
      } else {
        assert s.written[p - 1] == str[p - 1] && Flatten(s.out)[0] == str[p];
        assert PartWritten(s, k);
      }
    }
    InsertKeepsAt(str, p, x, a, t);
  }

  /** One more call keeps or breaks the contiguity of payload k. */
  lemma OneMoreCall<T>(ops: seq<Op<T>>, k: nat)
    requires k < |ops| - 1 && (ops[k].Urgent? || ops[k].Queue?)
    requires Contiguous(Stream(TaggedRun(Init(ops))), Payload(k, ops[k]))
    ensures InterruptedBy(ops, k, |ops| - 1) ==> SplitUp(Stream(TaggedRun(ops)), k)
    ensures !InterruptedBy(ops, k, |ops| - 1) ==> Contiguous(Stream(TaggedRun(ops)), Payload(k, ops[k]))
  {
    var s, n, op := TaggedRun(Init(ops)), |ops| - 1, Last(ops);
    assert ops[..n] == Init(ops);
    LastCall(ops);
    RunQueueOk(Init(ops));
    forall i | 0 <= i < |Stream(s)| && Stream(s)[i].id == k ensures Stream(s)[i].kind != Line {
      KindById(Init(ops), i);
    }
    OneMoreInsert(s, k, KindOf(ops[k]), ops[k].data, n, op);
  }

  lemma OneMoreInsert<T>(s: Sock<Tagged<T>>, k: nat, kind: Kind, d: seq<T>, n: nat, op: Op<T>)
    requires k < n && kind != Line && QueueOk(s.out) && NotLine(Stream(s), k)
    requires Contiguous(Stream(s), TagData(k, kind, d))
    ensures var r := Grown(s, n, op);
            if op.Urgent? && op.data != [] && PartWritten(s, k) then SplitUp(r, k)
            else Contiguous(r, TagData(k, kind, d))
  {
    var x := Payload(n, op);
    if op.Urgent? && op.data != [] && PartWritten(s, k) {
      UrgentWhilePartWritten(s, k, x);
    } else if op.Urgent? {
      UrgentOtherwise(s, k, kind, d, x);
    } else if HasData(op) {
      var a: nat :| At(Stream(s), a, TagData(k, kind, d));
      InsertKeepsAt(Stream(s), |Stream(s)|, x, a, TagData(k, kind, d));
    }
  }

  lemma SplitStays<T>(ops: seq<Op<T>>, k: nat)
    requires ops != [] && SplitUp(Stream(TaggedRun(Init(ops))), k)
    ensures SplitUp(Stream(TaggedRun(ops)), k)
  {
    var s, t := TaggedRun(Init(ops)), TagOp(|ops| - 1, Last(ops));
    LastCall(ops);
    if HasData(Last(ops)) {
      InsertKeepsSplit(Stream(s), Place(s, t), Payload(|ops| - 1, Last(ops)), k);
    }
  }

  /** Urgent and raw payloads go out in one piece exactly when no urgent text was
      enqueued while they were part-written. */
  lemma {:induction false} OthersAtomicIff<T>(ops: seq<Op<T>>, k: nat)
    requires k < |ops| && (ops[k].Urgent? || ops[k].Queue?)
    ensures Contiguous(Stream(TaggedRun(ops)), Payload(k, ops[k])) <==> !Interrupted(ops, k)
    ensures Interrupted(ops, k) ==> SplitUp(Stream(TaggedRun(ops)), k)
  {
    if k == |ops| - 1 {
      StepStarts(TaggedRun(Init(ops)), k, ops[k]);
    } else {
      OthersAtomicIff(Init(ops), k);
      InterruptedSnoc(ops, k);
      if Interrupted(Init(ops), k) {
        SplitStays(ops, k);
      } else {
        OneMoreCall(ops, k);
      }
      if Interrupted(ops, k) {
        EachPayloadOnce(ops, k);
        SplitIsNotContiguous(Stream(TaggedRun(ops)), k, KindOf(ops[k]), ops[k].data);
      }
    }
  }

  lemma InterruptedSnoc<T>(ops: seq<Op<T>>, k: nat)
    requires k < |ops| - 1
    ensures Interrupted(ops, k) <==> Interrupted(Init(ops), k) || InterruptedBy(ops, k, |ops| - 1)
  {
    var before := Init(ops);
    forall j | k < j < |before|
      ensures InterruptedBy(ops, k, j) == InterruptedBy(before, k, j)
    {
      assert ops[..j] == before[..j];
    }
    if InterruptedBy(ops, k, |ops| - 1) {
      assert Interrupted(ops, k);
    }
    if Interrupted(before, k) {
      var j :| k < j < |before| && InterruptedBy(before, k, j);
      assert InterruptedBy(ops, k, j);
    }
  }

  lemma OneByteOut<T>(a: T, b: T) returns (s: Sock<T>)
    ensures s == Step(Step(Fresh(), Urgent([a, b])), Flush([1]))
    ensures s == Sock([Buf([b], 0, Pack)], [a], 0, 0, 0, 0)
  {
    var q := Step(Fresh(), Urgent([a, b]));
    assert q == Sock([Buf([a, b], 0, Pack)], [], 0, 0, 0, 0);
    assert [1][1..] == [];
    s := Wrote(q, 1);
    assert [a, b][1..] == [b] && [a, b][..1] == [a] && s.out == [Buf([b], 0, Pack)];
    assert WriteLoop(q, [1]) == WriteLoop(s, []) == s;
  }

  lemma RunSnoc<T>(ops: seq<Op<T>>, op: Op<T>)
    ensures Run(Fresh(), ops + [op]) == Step(Run(Fresh(), ops), op)
  {
    assert (ops + [op])[..|ops|] == ops;
  }

  lemma TaggedSnoc<T>(ops: seq<Op<T>>, op: Op<T>)
    ensures TaggedRun(ops + [op]) == Step(TaggedRun(ops), TagOp(|ops|, op))
  {
    assert Init(ops + [op]) == ops;
  }

  lemma RunThree<T>(x: Op<T>, y: Op<T>, z: Op<T>)
    ensures Run(Fresh(), [x, y, z]) == Step(Step(Step(Fresh(), x), y), z)
    ensures TaggedRun([x, y]) == Step(Step(Fresh(), TagOp(0, x)), TagOp(1, y))
  {
    RunSnoc([], x);
    RunSnoc([x], y);
    RunSnoc([x, y], z);
    TaggedSnoc([], x);
    TaggedSnoc([x], y);
    assert [] + [x] == [x] && [x] + [y] == [x, y] && [x, y] + [z] == [x, y, z];
  }

  function Tearing(): seq<Op<char>> {
    [Urgent("ab"), Flush([1]), Urgent("x")]
  }

  /** The run that tears an urgent line: one byte of it is written before the next comes. */
  lemma UrgentTorn()
    ensures Interrupted(Tearing(), 0) && !Contiguous(Stream(TaggedRun(Tearing())), Payload(0, Tearing()[0]))
    ensures Stream(Run(Fresh(), Tearing())) == "axb"
  {
    var ops := Tearing();
    RunThree(ops[0], ops[1], ops[2]);
    HalfWritten(ops[0].data, ops[2].data);
    assert InterruptedBy(ops, 0, 2) by {
      assert ops[..2] == [ops[0], ops[1]];
    }
    OthersAtomicIff(ops, 0);
    Overtaken('a', 'b', 'x');
  }

  lemma HalfWritten(d: string, x: string)
    requires |d| == 2
    ensures PartWritten(TaggedRun([Urgent(d), Flush([1])]), 0)
  {
    RunThree(Urgent(d), Flush([1]), Urgent(x));
    var t := Payload(0, Urgent(d));
    assert t == [t[0], t[1]];
    var s := OneByteOut(t[0], t[1]);
    FlattenOne(s.out[0]);
    assert s.written[0].id == 0 && Flatten(s.out)[0].id == 0;
  }

  lemma Overtaken(a: char, b: char, x: char)
    ensures Stream(Step(Step(Step(Fresh(), Urgent([a, b])), Flush([1])), Urgent([x]))) == [a, x, b]
  {
    var p := OneByteOut(a, b);
    UrgentFlatten(p.out, [x]);
    FlattenOne(p.out[0]);
  }
}
