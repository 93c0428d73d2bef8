/** In-place removal of CTCP messages, src/irc_prot.c (`ircprot_stripctcp`). */
module Ctcp {
  import opened Basics
  import opened IrcString
  import opened Seqs

  const SOH := 1 as char

  predicate Paired(s: string)
    requires s != ""
  {
    IndexOf(s, SOH, 1) < |s|
  }

  /** Between the opening \001 at the front and its partner. */
  function Body(s: string): string
    requires s != "" && Paired(s)
  {
    s[1..IndexOf(s, SOH, 1)]
  }

  function AfterPair(s: string): (r: string)
    requires s != "" && Paired(s)
    ensures |r| == |s| - |Body(s)| - 2
  {
    s[IndexOf(s, SOH, 1) + 1..]
  }

  /** The text with every closed pair and what it holds removed. */
  function Residual(s: string): string
    decreases |s|
  {
    if s == "" then ""
    else if s[0] != SOH then [s[0]] + Residual(s[1..])
    else if Paired(s) then Residual(AfterPair(s))
    else s
  }

  /** The bodies of the pairs, in order. */
  function Bodies(s: string): seq<string>
    decreases |s|
  {
    if s == "" then []
    else if s[0] != SOH then Bodies(s[1..])
    else if Paired(s) then [Body(s)] + Bodies(AfterPair(s))
    else []
  }

  /** What the list holds for a body when d bytes have been removed before it: the
      write position lags d behind, so the copy has overwritten the body's own start. */
  function Listed(body: string, d: nat): (r: string)
    ensures |r| == |body|
  {
    seq(|body|, i requires 0 <= i < |body| => if i + d < |body| then body[i + d] else body[i])
  }

  function Entries(s: string, d: nat): seq<string>
    decreases |s|
  {
    if s == "" then []
    else if s[0] != SOH then Entries(s[1..], d)
    else if Paired(s) then
      var body := Body(s);
      (if body == "" then [] else [Listed(body, d)]) + Entries(AfterPair(s), d + |body| + 2)
    else []
  }

  /** strlen from index `from` of a buffer. */
  method StrLen(a: array<char>, from: nat, ghost end: nat) returns (n: nat)
    requires from <= end < a.Length && a[end] == NUL
    requires forall x :: from <= x < end ==> a[x] != NUL
    ensures n == end - from
  {
    n := 0;
    while a[from + n] != NUL
      invariant from + n <= end
      decreases end - n
    {
      n := n + 1;
    }
  }

  /** `ircprot_stripctcp` */
  method StripCtcp(msg: string) returns (newmsg: string, list: seq<string>)
    requires CString(msg)
    ensures newmsg == Residual(msg)
    ensures list == Entries(msg, 0)
  {
    var copy := new char[|msg| + 1];
    for i := 0 to |msg|
      invariant forall x :: 0 <= x < i ==> copy[x] == msg[x]
    {
      copy[i] := msg[i];
    }
    copy[|msg|] := NUL;
    var inp: nat, out: nat, start: nat, ctcp := 0, 0, 0, false;
    list := [];
    StateStarts(msg, copy[..]);
    while inp < |msg|
      invariant State(msg, copy[..], inp, out, start, ctcp, list)
    {
      out, start, ctcp, list := Turn(msg, copy, inp, out, start, ctcp, list);
      inp := inp + 1;
    }
    StateEnds(msg, copy[..], out, start, ctcp, list);
    newmsg := copy[..out];
    assert newmsg == copy[..][..out];
    copy[out] := NUL;
  }

  /** The state at the head of the loop. */
  ghost predicate State(msg: string, c: string, inp: nat, out: nat, start: nat, ctcp: bool, list: seq<string>) {
    && out <= inp <= |msg| && Unread(msg, c, inp)
    && if ctcp then Inside(msg, c, inp, out, start, list) else Outside(msg, c, inp, out, list)
  }

  lemma StateStarts(msg: string, c: string)
    requires Unread(msg, c, 0)
    ensures State(msg, c, 0, 0, 0, false, [])
  {
  }

  lemma StateEnds(msg: string, c: string, out: nat, start: nat, ctcp: bool, list: seq<string>)
    requires State(msg, c, |msg|, out, start, ctcp, list)
    ensures c[..out] == Residual(msg) && list == Entries(msg, 0)
  {
    if ctcp {
      UnpairedTail(msg, start);
      assert msg[start..|msg|] == msg[start..];
    } else {
      assert msg[|msg|..] == "";
    }
  }

  /** The branches of the loop that copy a character. */
  method CopyOne(msg: string, copy: array<char>, inp: nat, out: nat, start: nat, ctcp: bool, ghost list: seq<string>)
    returns (start': nat, ctcp': bool)
    requires inp < |msg| < copy.Length && State(msg, copy[..], inp, out, start, ctcp, list)
    requires !(ctcp && msg[inp] == SOH)
    modifies copy
    ensures State(msg, copy[..], inp + 1, out + 1, start', ctcp', list)
  {
    ghost var c := copy[..];
    start', ctcp' := start, ctcp;
    if copy[inp] == SOH {
      start' := inp;
      OpeningStep(msg, c, inp, out, list);
      ctcp' := true;
    } else if ctcp {
      InsideStep(msg, c, inp, out, start, list);
    } else {
      OutsideStep(msg, c, inp, out, list);
    }
    copy[out] := copy[inp];
    assert copy[..] == c[out := c[inp]];
  }

  /** What has not been read yet is still the message. */
  ghost predicate Unread(msg: string, c: string, inp: nat) {
    |c| == |msg| + 1 && forall x {:trigger c[x]} :: inp <= x < |msg| ==> c[x] == msg[x]
  }

  /** The loop state outside any CTCP. */
  ghost predicate Outside(msg: string, c: string, inp: nat, out: nat, list: seq<string>)
    requires out <= inp <= |msg| < |c|
  {
    && c[..out] + Residual(msg[inp..]) == Residual(msg)
    && list + Entries(msg[inp..], inp - out) == Entries(msg, 0)
  }

  /** The loop state after an opening \001 at `start`. */
  ghost predicate Inside(msg: string, c: string, inp: nat, out: nat, start: nat, list: seq<string>)
    requires out <= inp <= |msg| < |c|
  {
    && OpenAt(msg, inp, out, start)
    && Kept(msg, c, inp, out, start)
    && Overwritten(msg, c, inp, out, start)
    && c[..start - (inp - out)] + Residual(msg[start..]) == Residual(msg)
    && list + Entries(msg[start..], inp - out) == Entries(msg, 0)
  }

  ghost predicate OpenAt(msg: string, inp: nat, out: nat, start: nat)
    requires out <= inp <= |msg|
  {
    && inp - out <= start < inp && msg[start] == SOH
    && forall x :: start < x < inp ==> msg[x] != SOH
  }

  ghost predicate Kept(msg: string, c: string, inp: nat, out: nat, start: nat)
    requires out <= inp <= |msg| < |c| && OpenAt(msg, inp, out, start)
  {
    c[..out] == c[..start - (inp - out)] + msg[start..inp]
  }

  /** Where the write position has passed `start`, the copy holds later text. */
  ghost predicate Overwritten(msg: string, c: string, inp: nat, out: nat, start: nat)
    requires out <= inp <= |msg| < |c|
  {
    && (forall x {:trigger c[x]} :: start <= x < out ==> c[x] == msg[x + (inp - out)])
    && (forall x {:trigger c[x]} :: start <= x < inp && out <= x ==> c[x] == msg[x])
  }

  lemma OutsideStep(msg: string, c: string, inp: nat, out: nat, list: seq<string>)
    requires out <= inp < |msg| && msg[inp] != SOH && Unread(msg, c, inp) && Outside(msg, c, inp, out, list)
    ensures var c' := c[out := c[inp]]; Unread(msg, c', inp + 1) && Outside(msg, c', inp + 1, out + 1, list)
  {
  }

  lemma OpeningStep(msg: string, c: string, inp: nat, out: nat, list: seq<string>)
    requires out <= inp < |msg| && msg[inp] == SOH && Unread(msg, c, inp) && Outside(msg, c, inp, out, list)
    ensures var c' := c[out := c[inp]]; Unread(msg, c', inp + 1) && Inside(msg, c', inp + 1, out + 1, inp, list)
  {
  }

  lemma BufferStep(msg: string, c: string, inp: nat, out: nat, start: nat)
    requires out <= inp < |msg| && msg[inp] != SOH && Unread(msg, c, inp)
    requires OpenAt(msg, inp, out, start) && Kept(msg, c, inp, out, start) && Overwritten(msg, c, inp, out, start)
    ensures var c' := c[out := c[inp]];
            && OpenAt(msg, inp + 1, out + 1, start) && Unread(msg, c', inp + 1)
            && Kept(msg, c', inp + 1, out + 1, start) && Overwritten(msg, c', inp + 1, out + 1, start)
            && c'[..start - (inp - out)] == c[..start - (inp - out)]
  {
    var c', p := c[out := c[inp]], start - (inp - out);
    assert c'[..p] == c[..p];
    assert c'[..out + 1] == c[..out] + [msg[inp]];
    assert msg[start..inp] + [msg[inp]] == msg[start..inp + 1];
    Associative(c[..p], msg[start..inp], [msg[inp]]);
  }

  lemma InsideStep(msg: string, c: string, inp: nat, out: nat, start: nat, list: seq<string>)
    requires out <= inp < |msg| && msg[inp] != SOH && Unread(msg, c, inp) && Inside(msg, c, inp, out, start, list)
    ensures var c' := c[out := c[inp]]; Unread(msg, c', inp + 1) && Inside(msg, c', inp + 1, out + 1, start, list)
  {
    BufferStep(msg, c, inp, out, start);
  }

  lemma PairFound(msg: string, start: nat, inp: nat)
    requires start < inp < |msg| && msg[start] == SOH && msg[inp] == SOH
    requires forall x :: start < x < inp ==> msg[x] != SOH
    ensures var s := msg[start..];
            && s != "" && Paired(s) && Body(s) == msg[start + 1..inp] && AfterPair(s) == msg[inp + 1..]
  {
    var s, b := msg[start..], msg[start + 1..inp];
    assert s[1..] == b + ([SOH] + msg[inp + 1..]);
    FirstIs(s, 1, b, SOH, msg[inp + 1..]);
  }

  lemma UnpairedTail(msg: string, start: nat)
    requires start < |msg| && msg[start] == SOH
    requires forall x :: start < x < |msg| ==> msg[x] != SOH
    ensures Residual(msg[start..]) == msg[start..]
    ensures forall d :: Entries(msg[start..], d) == []
  {
    NoneFrom(msg[start..], SOH, 1);
  }

  /** One turn of the loop. */
  method Turn(msg: string, copy: array<char>, inp: nat, out: nat, start: nat, ctcp: bool, list: seq<string>)
    returns (out': nat, start': nat, ctcp': bool, list': seq<string>)
    requires CString(msg) && inp < |msg| < copy.Length && State(msg, copy[..], inp, out, start, ctcp, list)
    modifies copy
    ensures State(msg, copy[..], inp + 1, out', start', ctcp', list')
  {
    start', list' := start, list;
    ReadsMessage(msg, copy[..], inp, out, start, ctcp, list);
    if copy[inp] == SOH && ctcp {
      out', list' := CloseOne(msg, copy, inp, out, start, list);
      ctcp' := false;
    } else {
      start', ctcp' := CopyOne(msg, copy, inp, out, start, ctcp, list);
      out' := out + 1;
    }
  }

  lemma ReadsMessage(msg: string, c: string, inp: nat, out: nat, start: nat, ctcp: bool, list: seq<string>)
    requires inp < |msg| < |c| && State(msg, c, inp, out, start, ctcp, list)
    ensures c[inp] == msg[inp]
  {
  }

  method CloseOne(msg: string, copy: array<char>, inp: nat, out: nat, start: nat, list: seq<string>)
    returns (out': nat, list': seq<string>)
    requires CString(msg) && inp < |msg| < copy.Length && msg[inp] == SOH
    requires State(msg, copy[..], inp, out, start, true, list)
    modifies copy
    ensures State(msg, copy[..], inp + 1, out', start, false, list')
  {
    ghost var c := copy[..];
    NoNulInside(msg, c, inp, out, start, list);
    ghost var o := start - (inp - out);
    ClosingStep(msg, c, inp, out, o, start, list);
    out', list' := ClosePair(copy, inp, out, start, list);
    assert copy[..] == c[inp := NUL] && out' == o && list' == list + CutOut(c, start, inp);
  }

  /** The branch of the loop at a closing \001. */
  method ClosePair(copy: array<char>, inp: nat, out: nat, start: nat, list: seq<string>)
    returns (out': nat, list': seq<string>)
    requires start < inp < copy.Length && inp <= out + start && forall x :: start <= x < inp ==> copy[..][x] != NUL
    modifies copy
    ensures copy[..] == old(copy[..])[inp := NUL] && out' == start - (inp - out)
    ensures list' == list + CutOut(old(copy[..]), start, inp)
  {
    var len, body := CutString(copy, start, inp);
    out' := out - len;
    list' := if len > 1 then list + [body] else list;
    assert list + [] == list;
  }

  /** Terminate the string at `end`, and take what follows its first character. */
  method CutString(copy: array<char>, start: nat, end: nat) returns (len: nat, body: string)
    requires start < end < copy.Length && forall x :: start <= x < end ==> copy[..][x] != NUL
    modifies copy
    ensures copy[..] == old(copy[..])[end := NUL]
    ensures len == end - start && body == old(copy[..])[start + 1..end]
  {
    assert forall x :: start <= x < end ==> copy[x] == copy[..][x];
    copy[end] := NUL;
    len := StrLen(copy, start, end);
    body := copy[start + 1..start + len];
  }

  lemma NoNulInside(msg: string, c: string, inp: nat, out: nat, start: nat, list: seq<string>)
    requires CString(msg) && inp < |msg| < |c| && State(msg, c, inp, out, start, true, list)
    ensures inp - out <= start < inp
    ensures forall x :: start <= x < inp ==> c[x] != NUL
  {
  }

  /** What a closed pair adds to the list: what stands between its marks, if anything. */
  function CutOut(c: string, start: nat, inp: nat): seq<string>
    requires start < inp <= |c|
  {
    if inp == start + 1 then [] else [c[start + 1..inp]]
  }

  lemma ClosingStep(msg: string, c: string, inp: nat, out: nat, out': nat, start: nat, list: seq<string>)
    requires inp < |msg| && msg[inp] == SOH && State(msg, c, inp, out, start, true, list)
    requires out' == start - (inp - out)
    ensures State(msg, c[inp := NUL], inp + 1, out', start, false, list + CutOut(c, start, inp))
  {
    UnreadOn(msg, c, inp);
    ClosesText(msg, c, inp, out, out', start, list);
    ClosesList(msg, c, inp, out, out', start, list);
  }

  lemma ClosesText(msg: string, c: string, inp: nat, out: nat, out': nat, start: nat, list: seq<string>)
    requires out <= inp < |msg| < |c| && msg[inp] == SOH && Inside(msg, c, inp, out, start, list)
    requires out' == start - (inp - out)
    ensures c[inp := NUL][..out'] + Residual(msg[inp + 1..]) == Residual(msg)
  {
    PairFound(msg, start, inp);
    ClosedText(msg, c, inp, start, out');
  }

  lemma ClosesList(msg: string, c: string, inp: nat, out: nat, out': nat, start: nat, list: seq<string>)
    requires out <= inp < |msg| < |c| && msg[inp] == SOH && Inside(msg, c, inp, out, start, list)
    requires out' == start - (inp - out)
    ensures (list + CutOut(c, start, inp)) + Entries(msg[inp + 1..], inp + 1 - out') == Entries(msg, 0)
  {
    ListedIs(msg, c, inp, out, start, list);
    ClosedList(msg, c, inp, out, start, inp + 1 - out', list);
  }

  /** The text with the closed pair left out. */
  lemma ClosedText(msg: string, c: string, inp: nat, start: nat, out: nat)
    requires out <= start < inp < |msg| < |c| && msg[start] == SOH && Paired(msg[start..])
    requires AfterPair(msg[start..]) == msg[inp + 1..] && c[..out] + Residual(msg[start..]) == Residual(msg)
    ensures c[inp := NUL][..out] + Residual(msg[inp + 1..]) == Residual(msg)
  {
    SameFront(c, inp, out);
    PairSkipped(msg[start..]);
  }

  lemma PairSkipped(s: string)
    requires s != "" && s[0] == SOH && Paired(s)
    ensures Residual(s) == Residual(AfterPair(s))
  {
  }

  /** The list with what the closed pair holds, if anything. */
  lemma ClosedList(msg: string, c: string, inp: nat, out: nat, start: nat, d': nat, list: seq<string>)
    requires out <= inp < |msg| < |c| && msg[inp] == SOH && Inside(msg, c, inp, out, start, list)
    requires d' == inp + 1 - start + (inp - out)
    requires c[start + 1..inp] == Listed(msg[start + 1..inp], inp - out)
    ensures (list + CutOut(c, start, inp)) + Entries(msg[inp + 1..], d') == Entries(msg, 0)
  {
    PairFound(msg, start, inp);
    PairUnfolds(msg[start..], msg[start + 1..inp], msg[inp + 1..], inp - out, d');
    Associative(list, CutOut(c, start, inp), Entries(msg[inp + 1..], d'));
  }

  lemma PairUnfolds(s: string, body: string, rest: string, d: nat, d': nat)
    requires s != "" && s[0] == SOH && Paired(s) && Body(s) == body && AfterPair(s) == rest
    requires d' == d + |body| + 2
    ensures Entries(s, d) == (if body == "" then [] else [Listed(body, d)]) + Entries(rest, d')
  {
  }

  lemma SameFront(c: string, at: nat, n: nat)
    requires n <= at < |c|
    ensures c[at := NUL][..n] == c[..n]
  {
  }

  lemma UnreadOn(msg: string, c: string, inp: nat)
    requires inp < |msg| && Unread(msg, c, inp)
    ensures Unread(msg, c[inp := NUL], inp + 1)
  {
  }

  lemma ListedIs(msg: string, c: string, inp: nat, out: nat, start: nat, list: seq<string>)
    requires out <= inp < |msg| < |c| && Inside(msg, c, inp, out, start, list)
    ensures c[start + 1..inp] == Listed(msg[start + 1..inp], inp - out)
  {
    var got, want := c[start + 1..inp], Listed(msg[start + 1..inp], inp - out);
    forall t | 0 <= t < |got| ensures got[t] == want[t] {
      CopyAt(msg, c, inp, out, start, start + 1 + t, list);
      ListedIn(msg, start + 1, inp, inp - out, start + 1 + t);
    }
  }

  lemma ListedIn(msg: string, a: nat, b: nat, d: nat, x: nat)
    requires a <= x < b <= |msg|
    ensures Listed(msg[a..b], d)[x - a] == if x + d < b then msg[x + d] else msg[x]
  {
    ListedAt(msg[a..b], d, x - a);
  }

  lemma CopyAt(msg: string, c: string, inp: nat, out: nat, start: nat, x: nat, list: seq<string>)
    requires out <= inp < |msg| < |c| && Inside(msg, c, inp, out, start, list) && start <= x < inp
    ensures c[x] == if x + (inp - out) < inp then msg[x + (inp - out)] else msg[x]
  {
  }

  lemma ListedAt(body: string, d: nat, t: nat)
    requires t < |body|
    ensures Listed(body, d)[t] == if t + d < |body| then body[t + d] else body[t]
  {
  }

  // ---- what that means ----

  /** What is listed for a body is the body itself exactly when nothing was removed before
      it, or at least its own length was, or it happens to repeat with that distance. */
  predicate Intact(body: string, d: nat) {
    d == 0 || d >= |body| || forall t :: 0 <= t < |body| - d ==> body[t + d] == body[t]
  }

  lemma ListedIntact(body: string, d: nat)
    ensures Listed(body, d) == body <==> Intact(body, d)
  {
    if 0 < d < |body| {
      var r := Listed(body, d);
      forall t | 0 <= t < |body| ensures r[t] == if t < |body| - d then body[t + d] else body[t] {
        ListedAt(body, d, t);
      }
      if r == body {
        forall t | 0 <= t < |body| - d ensures body[t + d] == body[t] {
          assert r[t] == body[t + d];
        }
      }
    }
  }

  function NonEmpty(bs: seq<string>): seq<string> {
    if bs == [] then [] else (if bs[0] == "" then [] else [bs[0]]) + NonEmpty(bs[1..])
  }

  function Removed(bs: seq<string>): nat {
    if bs == [] then 0 else |bs[0]| + 2 + Removed(bs[1..])
  }

  /** One entry for each non-empty pair, in order and of the right length. */
  lemma {:induction false} EntriesShape(s: string, d: nat)
    ensures var e, b := Entries(s, d), NonEmpty(Bodies(s));
            |e| == |b| && forall i :: 0 <= i < |e| ==> |e[i]| == |b[i]|
    decreases |s|
  {
    if s == "" {
    } else if s[0] != SOH {
      EntriesShape(s[1..], d);
    } else if Paired(s) {
      EntriesShape(AfterPair(s), d + |Body(s)| + 2);
      assert ([Body(s)] + Bodies(AfterPair(s)))[1..] == Bodies(AfterPair(s));
    }
  }

  /** How many bytes were removed ahead of the k-th body that is not empty. */
  function Before(bs: seq<string>, k: nat): nat
    requires k < |NonEmpty(bs)|
  {
    if bs[0] == "" then 2 + Before(bs[1..], k)
    else if k == 0 then 0
    else |bs[0]| + 2 + Before(bs[1..], k - 1)
  }

  /** The entries for these bodies, d bytes having been removed ahead of them. */
  function EntriesOf(bs: seq<string>, d: nat): seq<string> {
    if bs == [] then []
    else (if bs[0] == "" then [] else [Listed(bs[0], d)]) + EntriesOf(bs[1..], d + |bs[0]| + 2)
  }

  lemma {:induction false} EntriesFromBodies(s: string, d: nat)
    ensures Entries(s, d) == EntriesOf(Bodies(s), d)
    decreases |s|
  {
    if s == "" {
    } else if s[0] != SOH {
      EntriesFromBodies(s[1..], d);
    } else if Paired(s) {
      EntriesFromBodies(AfterPair(s), d + |Body(s)| + 2);
      EntriesOfCons(Bodies(s), Body(s), Bodies(AfterPair(s)), d);
    }
  }

  lemma EntriesOfCons(all: seq<string>, b: string, bs: seq<string>, d: nat)
    requires all == [b] + bs
    ensures EntriesOf(all, d) == (if b == "" then [] else [Listed(b, d)]) + EntriesOf(bs, d + |b| + 2)
  {
    assert all[1..] == bs;
  }

  /** The k-th entry is what the copy of the k-th non-empty body holds after everything
      removed ahead of it. */
  lemma {:induction false} EntryIs(bs: seq<string>, d: nat, k: nat)
    requires k < |NonEmpty(bs)|
    ensures |EntriesOf(bs, d)| == |NonEmpty(bs)|
    ensures EntriesOf(bs, d)[k] == Listed(NonEmpty(bs)[k], d + Before(bs, k))
  {
    SameCount(bs, d);
    var rest, d' := bs[1..], d + |bs[0]| + 2;
    var tail, more := NonEmpty(rest), EntriesOf(rest, d');
    if bs[0] == "" {
      assert [] + tail == tail && [] + more == more;
      EntryIs(rest, d', k);
    } else if k > 0 {
      assert ([bs[0]] + tail)[k] == tail[k - 1] && ([Listed(bs[0], d)] + more)[k] == more[k - 1];
      EntryIs(rest, d', k - 1);
    }
  }

  lemma {:induction false} SameCount(bs: seq<string>, d: nat)
    ensures |EntriesOf(bs, d)| == |NonEmpty(bs)|
  {
    if bs != [] {
      SameCount(bs[1..], d + |bs[0]| + 2);
    }
  }

  /** The k-th body is listed as it was sent if and only if nothing was removed ahead of
      it, at least its own length was, or it repeats with that distance. */
  lemma VerbatimIff(msg: string, k: nat)
    requires k < |NonEmpty(Bodies(msg))|
    ensures k < |Entries(msg, 0)|
    ensures Entries(msg, 0)[k] == NonEmpty(Bodies(msg))[k]
            <==> Intact(NonEmpty(Bodies(msg))[k], Before(Bodies(msg), k))
  {
    EntriesFromBodies(msg, 0);
    EntryIntact(Bodies(msg), k);
  }

  lemma EntryIntact(bs: seq<string>, k: nat)
    requires k < |NonEmpty(bs)|
    ensures k < |EntriesOf(bs, 0)|
    ensures EntriesOf(bs, 0)[k] == NonEmpty(bs)[k] <==> Intact(NonEmpty(bs)[k], Before(bs, k))
  {
    EntryIs(bs, 0, k);
    IntactAs(EntriesOf(bs, 0)[k], NonEmpty(bs)[k], Before(bs, k));
  }

  lemma IntactAs(entry: string, body: string, d: nat)
    requires entry == Listed(body, d)
    ensures entry == body <==> Intact(body, d)
  {
    ListedIntact(body, d);
  }

  lemma PairInFront(body: string, rest: string)
    requires Without(body, SOH)
    ensures var s := [SOH] + (body + ([SOH] + rest));
            s[0] == SOH && Paired(s) && Body(s) == body && AfterPair(s) == rest
  {
    FirstIs([SOH] + (body + ([SOH] + rest)), 1, body, SOH, rest);
  }

  /** A body that is overwritten before it is copied. */
  lemma SecondBodyTorn()
    ensures var msg := [SOH] + ("a" + ([SOH] + ([SOH] + ("bcdef" + ([SOH] + "")))));
            Bodies(msg) == ["a", "bcdef"] && Entries(msg, 0) == ["a", "efdef"]
  {
    var second := [SOH] + ("bcdef" + ([SOH] + ""));
    PairInFront("bcdef", "");
    PairInFront("a", second);
    assert Bodies(second) == ["bcdef"];
    EntriesFromBodies([SOH] + ("a" + ([SOH] + second)), 0);
    TornEntries();
  }

  lemma TornEntries()
    ensures EntriesOf(["a", "bcdef"], 0) == ["a", "efdef"]
  {
    assert ["a", "bcdef"][1..] == ["bcdef"] && ["bcdef"][1..] == [];
    assert Listed("bcdef", 3) == "efdef" && Listed("a", 0) == "a";
    assert EntriesOf(["bcdef"], 3) == ["efdef"];
  }

  function Count(s: string): nat {
    if s == "" then 0 else (if s[0] == SOH then 1 else 0) + Count(s[1..])
  }

  lemma {:induction false} CountConcat(a: string, b: string)
    ensures Count(a + b) == Count(a) + Count(b)
  {
    if a == "" {
      assert a + b == b;
    } else {
      CountConcat(a[1..], b);
      assert (a + b)[0] == a[0] && (a + b)[1..] == a[1..] + b;
    }
  }

  lemma {:induction false} CountNone(s: string)
    requires Without(s, SOH)
    ensures Count(s) == 0
  {
    if s != "" {
      CountNone(s[1..]);
    }
  }

  /** Nothing else is lost: the lengths add up, an even number of \001 disappears
      entirely and an odd number leaves exactly the last one. */
  lemma OnlyPairsGo(s: string)
    ensures |s| == |Residual(s)| + Removed(Bodies(s))
    ensures Count(Residual(s)) == Count(s) % 2
  {
    PairsTakeOut(s);
    PairsComeInTwos(s);
  }

  lemma {:induction false} PairsTakeOut(s: string)
    ensures |s| == |Residual(s)| + Removed(Bodies(s))
    decreases |s|
  {
    if s == "" {
    } else if s[0] != SOH {
      PairsTakeOut(s[1..]);
    } else if Paired(s) {
      PairsTakeOut(AfterPair(s));
      assert ([Body(s)] + Bodies(AfterPair(s)))[1..] == Bodies(AfterPair(s));
    }
  }

  lemma {:induction false} PairsComeInTwos(s: string)
    ensures Count(s) == Count(Residual(s)) + 2 * |Bodies(s)| && Count(Residual(s)) <= 1
    decreases |s|
  {
    if s == "" {
    } else if s[0] != SOH {
      PairsComeInTwos(s[1..]);
      CountCons(s[0], Residual(s[1..]));
    } else if Paired(s) {
      PairsComeInTwos(AfterPair(s));
      PairCount(s);
    } else {
      UnpairedCount(s);
    }
  }

  lemma UnpairedCount(s: string)
    requires s != "" && s[0] == SOH && !Paired(s)
    ensures Count(s) == 1
  {
    PieceBefore(s, SOH, 1);
    assert s[1..|s|] == s[1..];
    CountNone(s[1..]);
  }

  lemma CountCons(c: char, t: string)
    ensures Count([c] + t) == Count(t) + if c == SOH then 1 else 0
  {
    assert ([c] + t)[1..] == t;
  }

  lemma PairCount(s: string)
    requires s != "" && s[0] == SOH && Paired(s)
    ensures Count(s) == 2 + Count(AfterPair(s))
  {
    var b, r := Body(s), AfterPair(s);
    PieceBefore(s, SOH, 1);
    assert s[1..] == b + ([SOH] + r);
    CountConcat(b, [SOH] + r);
    CountNone(b);
    assert ([SOH] + r)[1..] == r;
  }

  /** Stripping twice strips nothing more. */
  lemma StripIdempotent(s: string)
    ensures Residual(Residual(s)) == Residual(s)
  {
  }

  // ---- what stripping means ----

  lemma {:induction false} PlainInFront(w: string, rest: string)
    requires Without(w, SOH)
    ensures Residual(w + rest) == w + Residual(rest) && Bodies(w + rest) == Bodies(rest)
    decreases |w|
  {
    if w == "" {
      assert w + rest == rest;
    } else {
      assert (w + rest)[0] == w[0] && (w + rest)[1..] == w[1..] + rest;
      PlainInFront(w[1..], rest);
      assert [w[0]] + w[1..] == w;
      Associative([w[0]], w[1..], Residual(rest));
    }
  }

  /** Of plain text, a closed pair and a rest, the text stays, the body is cut out and the rest
      is stripped in the same way; text with one mark at most stays as it is. */
  lemma StripMeaning(w: string, body: string, rest: string)
    requires Without(w, SOH) && Without(body, SOH)
    ensures Residual(w + ([SOH] + (body + ([SOH] + rest)))) == w + Residual(rest)
    ensures Bodies(w + ([SOH] + (body + ([SOH] + rest)))) == [body] + Bodies(rest)
    ensures Residual(w + ([SOH] + body)) == w + ([SOH] + body) && Bodies(w + ([SOH] + body)) == []
    ensures Residual(w) == w && Bodies(w) == []
  {
    var s, t := [SOH] + (body + ([SOH] + rest)), [SOH] + body;
    PairInFront(body, rest);
    PlainInFront(w, s);
    PlainInFront(w, t);
    PlainInFront(w, "");
    assert w + "" == w && w + Residual("") == w;
    assert t[1..] == body;
    NoneFrom(t, SOH, 1);
  }
}
