/** Line framing of src/net.c (`net_gets`): lines are cut out of whatever has been
    read so far, and the result does not depend on how the bytes arrived. */
module NetFraming {
  import opened Basics
  import opened Seqs


  /** strcspn on the buffer taken as a C string: it stops at a NUL. */
  function Cspn(s: seq<char>, delim: seq<char>): (n: nat)
    ensures n <= |s|
  {
    if s == [] || s[0] == NUL || s[0] in delim then 0 else 1 + Cspn(s[1..], delim)
  }

  /** strspn, which stops at a NUL too. */
  function Spn(s: seq<char>, delim: seq<char>): (n: nat)
    ensures n <= |s|
  {
    if s == [] || s[0] == NUL || s[0] !in delim then 0 else 1 + Spn(s[1..], delim)
  }

  datatype Got = Got(ret: nat, line: seq<char>, rest: seq<char>)

  /** What one `net_gets` call returns and leaves in the buffer. */
  function Gets(buf: seq<char>, delim: seq<char>): Got {
    var retlen := Cspn(buf, delim);
    var getlen := retlen + Spn(buf[retlen..], delim);
    if retlen < |buf| then Got(retlen, buf[..retlen], buf[getlen..]) else Got(0, [], buf)
  }

  // ---- the reference: one pass over the stream, a character at a time ----

  datatype Scan = Scan(lines: seq<seq<char>>, cur: seq<char>, stopped: bool)

  const FRESH := Scan([], [], false)

  function Feed(s: Scan, c: char, delim: seq<char>): Scan {
    if s.stopped then s
    else if c == NUL || c in delim then
      Scan(if s.cur == [] then s.lines else s.lines + [s.cur], [], c == NUL)
    else s.(cur := s.cur + [c])
  }

  function FeedAll(s: Scan, text: seq<char>, delim: seq<char>): Scan
    decreases text
  {
    if text == [] then s else FeedAll(Feed(s, text[0], delim), text[1..], delim)
  }

  /** The non-empty delimiter-terminated lines of a stream; a NUL ends it for good. */
  function Lines(text: seq<char>, delim: seq<char>): seq<seq<char>> {
    FeedAll(FRESH, text, delim).lines
  }

  lemma FeedStep(s: Scan, c: char, text: seq<char>, delim: seq<char>)
    ensures FeedAll(s, [c] + text, delim) == FeedAll(Feed(s, c, delim), text, delim)
  {
  }

  lemma {:induction false} FeedConcat(s: Scan, a: seq<char>, b: seq<char>, delim: seq<char>)
    ensures FeedAll(s, a + b, delim) == FeedAll(FeedAll(s, a, delim), b, delim)
    decreases a
  {
    if a == [] {
      assert a + b == b;
    } else {
      FeedConcat(Feed(s, a[0], delim), a[1..], b, delim);
      assert (a + b)[0] == a[0] && (a + b)[1..] == a[1..] + b;
    }
  }

  function Before(ls: seq<seq<char>>, s: Scan): Scan {
    s.(lines := ls + s.lines)
  }

  lemma {:induction false} FeedBefore(ls: seq<seq<char>>, s: Scan, text: seq<char>, delim: seq<char>)
    ensures FeedAll(Before(ls, s), text, delim) == Before(ls, FeedAll(s, text, delim))
    decreases text
  {
    if text != [] {
      assert Feed(Before(ls, s), text[0], delim) == Before(ls, Feed(s, text[0], delim)) by {
        Associative(ls, s.lines, [s.cur]);
      }
      FeedBefore(ls, Feed(s, text[0], delim), text[1..], delim);
    }
  }

  lemma {:induction false} FeedWord(s: Scan, text: seq<char>, delim: seq<char>)
    requires !s.stopped
    ensures var n := Cspn(text, delim);
            FeedAll(s, text[..n], delim) == s.(cur := s.cur + text[..n])
    decreases text
  {
    var n := Cspn(text, delim);
    if n > 0 {
      FeedWord(Feed(s, text[0], delim), text[1..], delim);
      assert text[..n][1..] == text[1..][..n - 1];
      assert [text[0]] + text[..n][1..] == text[..n];
      Associative(s.cur, [text[0]], text[..n][1..]);
    }
  }

  lemma {:induction false} FeedDelims(s: Scan, text: seq<char>, delim: seq<char>)
    requires !s.stopped && s.cur == []
    ensures FeedAll(s, text, delim) == FeedAll(s, text[Spn(text, delim)..], delim)
  {
    var n := Spn(text, delim);
    if n > 0 {
      FeedDelims(s, text[1..], delim);
      assert text[1..][n - 1..] == text[n..];
    }
  }

  /** One call takes off exactly the first line, and a call that returns 0 loses nothing. */
  lemma GetsScan(buf: seq<char>, delim: seq<char>)
    ensures var g := Gets(buf, delim);
            FeedAll(FRESH, buf, delim)
            == Before(if g.ret > 0 then [g.line] else [], FeedAll(FRESH, g.rest, delim))
  {
    var n := Cspn(buf, delim);
    if n < |buf| {
      var tail := buf[n..];
      GetsParts(buf, delim);
      FeedLine(buf, tail, delim);
      CspnStops(buf, delim);
      assert tail == [buf[n]] + buf[n + 1..];
      FirstLine(buf[..n], buf[n], buf[n + 1..], delim);
    }
  }

  lemma GetsParts(buf: seq<char>, delim: seq<char>)
    requires Cspn(buf, delim) < |buf|
    ensures var n := Cspn(buf, delim);
            var tail := buf[n..];
            Gets(buf, delim) == Got(n, buf[..n], tail[Spn(tail, delim)..])
  {
    var n := Cspn(buf, delim);
    assert buf[n + Spn(buf[n..], delim)..] == buf[n..][Spn(buf[n..], delim)..];
  }

  lemma FeedLine(buf: seq<char>, tail: seq<char>, delim: seq<char>)
    requires tail == buf[Cspn(buf, delim)..]
    ensures FeedAll(FRESH, buf, delim) == FeedAll(FRESH.(cur := buf[..Cspn(buf, delim)]), tail, delim)
  {
    var word := buf[..Cspn(buf, delim)];
    FeedWord(FRESH, buf, delim);
    assert FRESH.cur + word == word;
    assert buf == word + tail;
    FeedConcat(FRESH, word, tail, delim);
  }

  /** The scan after a word, whether closed by a delimiter or by a NUL. */
  lemma FirstLine(word: seq<char>, c: char, t: seq<char>, delim: seq<char>)
    requires c == NUL || c in delim
    ensures var tail := [c] + t;
            FeedAll(FRESH.(cur := word), tail, delim)
            == Before(if word == [] then [] else [word], FeedAll(FRESH, tail[Spn(tail, delim)..], delim))
  {
    var tail, ls := [c] + t, if word == [] then [] else [word];
    FeedStep(FRESH.(cur := word), c, t, delim);
    assert Feed(FRESH.(cur := word), c, delim) == Scan(ls, [], c == NUL);
    if c == NUL {
      FeedStep(FRESH, c, t, delim);
      FeedStopped(Scan(ls, [], true), t, delim);
      FeedStopped(Scan([], [], true), t, delim);
      assert tail[0..] == tail;
    } else {
      FeedBefore(ls, FRESH, t, delim);
      FeedDelims(FRESH, t, delim);
      assert Before(ls, FRESH) == Scan(ls, [], false);
      assert tail[1..] == t;
      assert tail[Spn(tail, delim)..] == t[Spn(t, delim)..];
    }
  }

  lemma {:induction false} FeedStopped(s: Scan, text: seq<char>, delim: seq<char>)
    requires s.stopped
    ensures FeedAll(s, text, delim) == s
  {
    if text != [] {
      FeedStopped(s, text[1..], delim);
    }
  }

  lemma {:induction false} CspnStops(s: seq<char>, delim: seq<char>)
    requires Cspn(s, delim) < |s|
    ensures var c := s[Cspn(s, delim)]; c == NUL || c in delim
  {
    if Cspn(s, delim) > 0 {
      CspnStops(s[1..], delim);
    }
  }

  // ---- runs of reads and calls ----

  datatype Event = Read(block: seq<char>) | GetLine

  datatype Reader = Reader(buf: seq<char>, returned: seq<seq<char>>)

  function StepReader(r: Reader, e: Event, delim: seq<char>): Reader {
    match e
    case Read(b) => r.(buf := r.buf + b)
    case GetLine =>
      var g := Gets(r.buf, delim);
      Reader(g.rest, if g.ret > 0 then r.returned + [g.line] else r.returned)
  }

  function RunReader(events: seq<Event>, delim: seq<char>): Reader {
    if events == [] then Reader([], [])
    else StepReader(RunReader(events[..|events| - 1], delim), events[|events| - 1], delim)
  }

  function Received(events: seq<Event>): seq<char> {
    if events == [] then []
    else Received(events[..|events| - 1]) + Brought(events[|events| - 1])
  }

  function Brought(e: Event): seq<char> {
    match e case Read(b) => b case GetLine => []
  }

  ghost predicate InStep(r: Reader, received: seq<char>, delim: seq<char>) {
    FeedAll(FRESH, received, delim) == Before(r.returned, FeedAll(FRESH, r.buf, delim))
  }

  lemma StepInStep(r: Reader, e: Event, received: seq<char>, delim: seq<char>)
    requires InStep(r, received, delim)
    ensures InStep(StepReader(r, e, delim), received + Brought(e), delim)
  {
    match e {
      case Read(b) =>
        FeedConcat(FRESH, received, b, delim);
        FeedBefore(r.returned, FeedAll(FRESH, r.buf, delim), b, delim);
        FeedConcat(FRESH, r.buf, b, delim);
      case GetLine =>
        var g := Gets(r.buf, delim);
        var ls := if g.ret > 0 then [g.line] else [];
        GetsScan(r.buf, delim);
        assert received + [] == received;
        Associative(r.returned, ls, FeedAll(FRESH, g.rest, delim).lines);
        assert r.returned + ls == StepReader(r, e, delim).returned;
    }
  }

  lemma {:induction false} RunInStep(events: seq<Event>, delim: seq<char>)
    ensures InStep(RunReader(events, delim), Received(events), delim)
  {
    if events != [] {
      var n := |events| - 1;
      RunInStep(events[..n], delim);
      StepInStep(RunReader(events[..n], delim), events[n], Received(events[..n]), delim);
    }
  }

  /** Framing is independent of chunking: whatever the reads and however the calls fall
      between them, the lines returned so far followed by the lines still in the buffer
      are the lines of the whole stream. */
  lemma FramingIndependent(events: seq<Event>, delim: seq<char>)
    ensures var r := RunReader(events, delim);
            r.returned + Lines(r.buf, delim) == Lines(Received(events), delim)
  {
    RunInStep(events, delim);
  }

  // ---- what Lines means ----

  predicate Plain(w: seq<char>, delim: seq<char>) {
    forall i :: 0 <= i < |w| ==> w[i] != NUL && w[i] !in delim
  }

  lemma {:induction false} CspnPlain(w: seq<char>, rest: seq<char>, delim: seq<char>)
    requires Plain(w, delim)
    requires rest != [] ==> rest[0] == NUL || rest[0] in delim
    ensures Cspn(w + rest, delim) == |w|
  {
    if w == [] {
      assert w + rest == rest;
    } else {
      assert (w + rest)[0] == w[0] && (w + rest)[1..] == w[1..] + rest;
      CspnPlain(w[1..], rest, delim);
    }
  }

  /** A line is a delimiter-free run closed by a delimiter, dropped when empty; an
      unfinished one does not count yet; and nothing after a NUL is ever a line. */
  lemma LinesMeaning(w: seq<char>, d: char, rest: seq<char>, delim: seq<char>)
    requires Plain(w, delim)
    ensures Lines(w, delim) == []
    ensures d in delim && d != NUL ==>
              Lines(w + [d] + rest, delim) == (if w == [] then [] else [w]) + Lines(rest, delim)
    ensures d == NUL ==> Lines(w + [d] + rest, delim) == if w == [] then [] else [w]
  {
    CspnPlain(w, [], delim);
    assert w + [] == w;
    assert w[..|w|] == w;
    FeedWord(FRESH, w, delim);
    FeedConcat(FRESH, w, [d] + rest, delim);
    FeedStep(FRESH.(cur := w), d, rest, delim);
    assert w + [d] + rest == w + ([d] + rest);
    assert FRESH.cur + w == w;
    var ls := if w == [] then [] else [w];
    if d == NUL || d in delim {
      assert Feed(FRESH.(cur := w), d, delim) == Scan(ls, [], d == NUL);
    }
    if d == NUL {
      FeedStopped(Scan(ls, [], true), rest, delim);
    } else if d in delim {
      FeedBefore(ls, FRESH, rest, delim);
      assert Before(ls, FRESH) == Scan(ls, [], false);
    }
  }
}
