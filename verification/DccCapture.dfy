/** What the size limit of a DCC capture bounds: the counter compared with it has 32 bits,
    and so has the limit itself. */
module DccCapture {
  import opened DccRelay
  import opened DccFlow

  /** The limit that is enforced when `maxsize` kilobytes are asked for; 0 is none. */
  function Limit(maxsize: int): (m: nat)
    ensures m < WORD
  {
    (maxsize * 1024) % WORD
  }

  /** No read brings more than n bytes. */
  predicate ReadsUpTo(events: seq<Event>, n: nat) {
    forall e | e in events && e.SenderData? :: |e.data| <= n
  }

  function Captured(maxsize: int, resumeFrom: nat, events: seq<Event>): Relay {
    Run(NewRelay(Capture, maxsize, resumeFrom), events)
  }

  /** If no single read can take the counter past 2^32, the limit holds of the true
      size of the capture and not only of the 32-bit counter. */
  lemma {:induction false} CaptureReallyBounded(maxsize: int, resumeFrom: nat, events: seq<Event>)
    requires forall e | e in events && e.SenderData? :: |e.data| + (maxsize * 1024) % WORD <= WORD
    ensures var r := Run(NewRelay(Capture, maxsize, resumeFrom), events);
            r.kind == Capture && r.bytesMax == (maxsize * 1024) % WORD
            && (!r.dead && r.bytesMax != 0 ==> |r.captured| < r.bytesMax && |r.captured| == r.bytesSent)
  {
    if events != [] {
      var n := |events| - 1;
      CaptureReallyBounded(maxsize, resumeFrom, events[..n]);
      RelayIsSafe(Capture, maxsize, resumeFrom, events[..n]);
      BufferedOnlyWhenClosed(maxsize, resumeFrom, events[..n]);
      assert events[n] in events;
      CaptureStep(Run(NewRelay(Capture, maxsize, resumeFrom), events[..n]), events[n]);
    }
  }

  lemma {:induction false} BufferedOnlyWhenClosed(maxsize: int, resumeFrom: nat, events: seq<Event>)
    ensures var r := Run(NewRelay(Capture, maxsize, resumeFrom), events);
            r.kind == Capture && (r.sender.open ==> r.buf == [])
  {
    if events != [] {
      BufferedOnlyWhenClosed(maxsize, resumeFrom, events[..|events| - 1]);
      var r := Run(NewRelay(Capture, maxsize, resumeFrom), events[..|events| - 1]);
      StepBuffersOnlyWhenClosed(r, events[|events| - 1]);
    }
  }

  lemma StepBuffersOnlyWhenClosed(r: Relay, e: Event)
    requires r.kind == Capture && (r.sender.open ==> r.buf == [])
    ensures var s := Step(r, e); s.kind == Capture && (s.sender.open ==> s.buf == [])
  {
    if Enabled(r, e) && !MovesData(e) {
      QuietBuffers(r, e);
    }
  }

  lemma QuietBuffers(r: Relay, e: Event)
    requires !MovesData(e)
    ensures var s := Step(r, e); s.kind == r.kind && s.buf == r.buf && (s.sender.open ==> r.sender.open)
  {
  }

  lemma CaptureStep(r: Relay, e: Event)
    requires r.kind == Capture && CaptureAlone(r) && (r.sender.open ==> r.buf == [])
    requires !r.dead && r.bytesMax != 0 ==> |r.captured| < r.bytesMax && |r.captured| == r.bytesSent
    requires e.SenderData? ==> |e.data| + r.bytesMax <= WORD
    ensures var s := Step(r, e);
            && s.kind == Capture && s.bytesMax == r.bytesMax
            && (!s.dead && s.bytesMax != 0 ==> |s.captured| < s.bytesMax && |s.captured| == s.bytesSent)
  {
    if Enabled(r, e) && e.SenderData? {
      var s := Receive(r, e.data);
      assert s.buf == e.data;
    }
  }

  // ---- captures that outgrow the limit ----

  function Zeros(n: nat): (d: seq<byte>)
    ensures |d| == n
  {
    seq(n, _ => 0)
  }

  /** A live capture of c bytes that waits for more. */
  ghost predicate Capturing(r: Relay, m: nat, c: nat) {
    && r.kind == Capture && !r.dead && r.sender == Sender(true, true, false, true)
    && r.buf == [] && r.bytesMax == m && |r.captured| == c && r.bytesSent == c % WORD
  }

  lemma ReadGrows(r: Relay, m: nat, c: nat, n: nat) returns (s: Relay)
    requires Capturing(r, m, c) && n > 0 && (m != 0 ==> (c + n) % WORD < m)
    ensures s == Step(r, SenderData(Zeros(n), true, true)) && Capturing(s, m, c + n)
  {
    AddWord(c, n);
    assert [] + Zeros(n) == Zeros(n);
    s := Trigger(Receive(r, Zeros(n)).(toSender := r.toSender + [Receive(r, Zeros(n)).bytesRcvd]), true);
  }

  /** The next read: one byte, except that with the counter at its last value below the
      limit a read of k bytes takes it past 2^32. */
  function NextRead(m: nat, k: nat, c: nat): nat {
    if m != 0 && c % WORD == m - 1 then k else 1
  }

  function Size(m: nat, k: nat, i: nat): nat {
    if i == 0 then 0 else Size(m, k, i - 1) + NextRead(m, k, Size(m, k, i - 1))
  }

  function Growing(m: nat, k: nat, i: nat): seq<Event> {
    if i == 0 then [SenderConnected]
    else Growing(m, k, i - 1) + [SenderData(Zeros(NextRead(m, k, Size(m, k, i - 1))), true, true)]
  }

  lemma NextStays(m: nat, k: nat, c: nat)
    requires m < WORD && 0 < k <= WORD && (m != 0 ==> c % WORD < m && k + m > WORD)
    ensures m != 0 ==> (c + NextRead(m, k, c)) % WORD < m
    ensures 0 < NextRead(m, k, c) <= k
  {
  }

  lemma StartsCapturing(maxsize: int, resumeFrom: nat)
    ensures Capturing(Captured(maxsize, resumeFrom, [SenderConnected]), Limit(maxsize), 0)
  {
    assert [] + [SenderConnected] == [SenderConnected];
    RunSnoc(NewRelay(Capture, maxsize, resumeFrom), [], SenderConnected);
  }

  lemma {:induction false} GrowingCaptures(maxsize: int, resumeFrom: nat, k: nat, i: nat)
    requires 0 < k <= WORD && (Limit(maxsize) != 0 ==> k + Limit(maxsize) > WORD)
    ensures var m := Limit(maxsize);
            && Capturing(Captured(maxsize, resumeFrom, Growing(m, k, i)), m, Size(m, k, i))
            && (m != 0 ==> Size(m, k, i) % WORD < m)
    decreases i
  {
    if i == 0 {
      StartsCapturing(maxsize, resumeFrom);
    } else {
      GrowingCaptures(maxsize, resumeFrom, k, i - 1);
      var m := Limit(maxsize);
      var before, c := Growing(m, k, i - 1), Size(m, k, i - 1);
      GrowsOnce(maxsize, resumeFrom, before, m, k, c);
    }
  }

  lemma GrowsOnce(maxsize: int, resumeFrom: nat, before: seq<Event>, m: nat, k: nat, c: nat)
    requires m < WORD && 0 < k <= WORD && (m != 0 ==> c % WORD < m && k + m > WORD)
    requires Capturing(Captured(maxsize, resumeFrom, before), m, c)
    ensures var n := NextRead(m, k, c);
            && Capturing(Captured(maxsize, resumeFrom, before + [SenderData(Zeros(n), true, true)]), m, c + n)
            && (m != 0 ==> (c + n) % WORD < m)
  {
    var r, n := Captured(maxsize, resumeFrom, before), NextRead(m, k, c);
    NextStays(m, k, c);
    var s := ReadGrows(r, m, c, n);
    RunSnoc(NewRelay(Capture, maxsize, resumeFrom), before, SenderData(Zeros(n), true, true));
  }

  lemma {:induction false} GrowingReads(m: nat, k: nat, i: nat)
    requires m < WORD && 0 < k
    ensures ReadsUpTo(Growing(m, k, i), k) && Size(m, k, i) >= i
    decreases i
  {
    if i > 0 {
      GrowingReads(m, k, i - 1);
    }
  }

  // ---- exactly when the limit holds ----

  /** In every run whose reads bring at most n bytes a live capture is smaller than this. */
  ghost predicate AlwaysBelow(maxsize: int, resumeFrom: nat, n: nat, bytes: int) {
    forall events :: ReadsUpTo(events, n) ==>
      var r := Captured(maxsize, resumeFrom, events); r.dead || |r.captured| < bytes
  }

  /** The limit in force bounds the true size of live captures if and only if no read can
      take the counter past 2^32. */
  lemma CaptureBoundedIff(maxsize: int, resumeFrom: nat, n: nat)
    requires Limit(maxsize) != 0
    ensures AlwaysBelow(maxsize, resumeFrom, n, Limit(maxsize)) <==> n + Limit(maxsize) <= WORD
  {
    AskedBoundedIff(maxsize, resumeFrom, n, Limit(maxsize));
  }

  /** The same for any bound at least as large as the limit in force, such as the limit
      that was asked for: either no read can wrap the counter, or live captures of every
      size can be reached. Without a limit in force any read at all is enough for that. */
  lemma AskedBoundedIff(maxsize: int, resumeFrom: nat, n: nat, bytes: int)
    requires 0 < bytes && Limit(maxsize) <= bytes
    ensures AlwaysBelow(maxsize, resumeFrom, n, bytes) <==>
            n == 0 || (Limit(maxsize) != 0 && n + Limit(maxsize) <= WORD)
  {
    var m := Limit(maxsize);
    if n == 0 || (m != 0 && n + m <= WORD) {
      forall events | ReadsUpTo(events, n)
        ensures var r := Captured(maxsize, resumeFrom, events); r.dead || |r.captured| < bytes
      {
        if n == 0 {
          NothingRead(maxsize, resumeFrom, events);
        } else {
          CaptureReallyBounded(maxsize, resumeFrom, events);
        }
      }
    } else {
      var k := if n < WORD then n else WORD;
      GrowingCaptures(maxsize, resumeFrom, k, bytes);
      GrowingReads(m, k, bytes);
      assert ReadsUpTo(Growing(m, k, bytes), n);
    }
  }

  lemma {:induction false} NothingRead(maxsize: int, resumeFrom: nat, events: seq<Event>)
    requires ReadsUpTo(events, 0)
    ensures var r := Captured(maxsize, resumeFrom, events); r.captured == [] && r.buf == [] && r.kind == Capture
  {
    if events != [] {
      NothingRead(maxsize, resumeFrom, events[..|events| - 1]);
      QuietWithoutData(Captured(maxsize, resumeFrom, events[..|events| - 1]), events[|events| - 1]);
    }
  }

  lemma QuietWithoutData(r: Relay, e: Event)
    requires r.captured == [] && r.buf == [] && r.kind == Capture && (e.SenderData? ==> |e.data| <= 0)
    ensures Step(r, e).captured == [] && Step(r, e).buf == [] && Step(r, e).kind == Capture
  {
  }

  /** The limit in force is the one asked for exactly when that fits 32 bits; it is no
      limit at all exactly for the multiples of 4194304 kilobytes. */
  lemma LimitAsked(maxsize: int, resumeFrom: nat)
    ensures var m := NewRelay(Capture, maxsize, resumeFrom).bytesMax;
            && (m == maxsize * 1024 <==> 0 <= maxsize * 1024 < WORD)
            && (m == 0 <==> maxsize % 4194304 == 0)
  {
    var q := maxsize / 4194304;
    assert maxsize == q * 4194304 + maxsize % 4194304;
    assert maxsize * 1024 == q * WORD + maxsize % 4194304 * 1024;
  }
}
