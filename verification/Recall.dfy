/** Log records and their recall, src/irc_log.c (`_logfile_writetext`,
    `_irclog_recall`, `irclog_autorecall`, `irclog_recall`). */
module Recall {
  import opened Basics
  import opened Seqs
  import opened IrcString
  import opened Log
  import Numbers
  import LogFlags

  datatype Record = Record(when: int, event: int, dest: string, from: string, text: string)

  // ---- one record as text ----

  /** Four words, each followed by a space. */
  function Words(t: string, e: string, dest: string, from: string): string {
    t + (" " + (e + (" " + (dest + (" " + (from + " "))))))
  }

  /** What comes before the text: time, event, destination, source. */
  function Header(r: Record): string
    requires r.when >= 0
  {
    Words(Numbers.Numeral(r.when, 10), LogFlags.FlagToStr(r.event), r.dest, r.from)
  }

  /** The line `_logfile_writetext` hands to `_logfile_write`. */
  function RecordLine(r: Record): string
    requires r.when >= 0
  {
    Header(r) + r.text
  }

  predicate IsDecimal(c: char) {
    '0' <= c <= '9'
  }

  /** The decimal number the digits from `at` on continue, above which strtoul stays. */
  function Reading(s: string, at: nat, value: nat): nat
    requires at <= |s|
    decreases |s| - at
  {
    if at == |s| || !IsDecimal(s[at]) then value
    else Reading(s, at + 1, Min(value * 10 + (s[at] as int - '0' as int), Numbers.ULONG - 1))
  }

  /** strtoul in base 10, for texts that do not begin with blanks or a sign. */
  function StrToUL(s: string): nat {
    Reading(s, 0, 0)
  }

  datatype Fields = Fields(time: string, event: string, dest: string, from: string, text: string)

  /** The recall parser: four words, each ended by a space, and the rest. */
  function Split(s: string): Option<Fields> {
    var a := IndexOf(s, ' ', 0);
    if a == |s| || a + 1 == |s| then None
    else
      var b := IndexOf(s, ' ', a + 1);
      if b == |s| then None else SplitTail(s, a, b)
  }

  function SplitTail(s: string, a: nat, b: nat): Option<Fields>
    requires a < b < |s|
  {
    var c := IndexOf(s, ' ', b + 1);
    if c == |s| then None
    else
      var d := IndexOf(s, ' ', c + 1);
      if d == |s| then None else Some(Fields(s[..a], s[a + 1..b], s[b + 1..c], s[c + 1..d], s[d + 1..]))
  }

  function Meaning(f: Fields): Record {
    Record(StrToUL(f.time), LogFlags.StrToFlag(f.event), f.dest, f.from, f.text)
  }

  function ParseRecord(s: string): Option<Record> {
    var f := Split(s);
    if f.None? then None else Some(Meaning(f.value))
  }

  /** The splitting of one line in `_irclog_recall`: time and event. */
  method SplitLine(msg: string) returns (f: Option<Fields>)
    ensures f == Split(msg)
  {
    if msg == "" {
      return None;
    }
    var a := StrChr(msg, ' ', 0);
    if a == |msg| {
      return None;
    }
    if a + 1 == |msg| {
      return None;
    }
    var b := StrChr(msg, ' ', a + 1);
    if b == |msg| {
      return None;
    }
    f := SplitOn(msg, a, b);
  }

  /** Destination, source and text. */
  method SplitOn(msg: string, a: nat, b: nat) returns (f: Option<Fields>)
    requires a < b < |msg|
    ensures f == SplitTail(msg, a, b)
  {
    var c := StrChr(msg, ' ', b + 1);
    if c == |msg| {
      return None;
    }
    var d := StrChr(msg, ' ', c + 1);
    if d == |msg| {
      return None;
    }
    return Some(Fields(msg[..a], msg[a + 1..b], msg[b + 1..c], msg[c + 1..d], msg[d + 1..]));
  }

  method ReadRecord(msg: string) returns (r: Option<Record>)
    ensures r == ParseRecord(msg)
  {
    var f := SplitLine(msg);
    if f.None? {
      return None;
    }
    var event := LogFlags.IrclogStrToFlag(f.value.event);
    return Some(Record(StrToUL(f.value.time), event, f.value.dest, f.value.from, f.value.text));
  }

  // ---- round trip ----

  predicate Plain(r: Record) {
    && 0 <= r.when < Numbers.ULONG && LogFlags.Known(r.event)
    && Without(r.dest, ' ') && Without(r.from, ' ')
  }

  /** Reading goes through the values of the prefixes. */
  lemma {:induction false} ReadsPrefix(s: string, at: nat)
    requires at <= |s| && Numbers.AllDigits(s, 10) && Numbers.Eval(s, 10) < Numbers.ULONG
    ensures 0 <= Numbers.Eval(s[..at], 10)
    ensures Reading(s, at, Numbers.Eval(s[..at], 10)) == Numbers.Eval(s, 10)
    decreases |s| - at
  {
    PrefixValue(s, at);
    if at == |s| {
      assert s[..at] == s;
    } else {
      PrefixValue(s, at + 1);
      Numbers.EvalSnoc(s[..at], s[at], 10);
      assert s[..at + 1] == s[..at] + [s[at]];
      assert Numbers.IsDigit(s[at]) && Numbers.DigitValue(s[at]) < 10;
      ReadsPrefix(s, at + 1);
    }
  }

  lemma {:induction false} PrefixValue(s: string, at: nat)
    requires at <= |s| && Numbers.AllDigits(s, 10)
    ensures 0 <= Numbers.Eval(s[..at], 10) <= Numbers.Eval(s, 10)
    decreases |s|
  {
    if s != "" {
      var p := s[..|s| - 1];
      var c := s[|s| - 1];
      assert Numbers.IsDigit(c) && Numbers.DigitValue(c) < 10;
      assert s == p + [c];
      Numbers.EvalSnoc(p, c, 10);
      if at < |s| {
        PrefixValue(p, at);
        assert p[..at] == s[..at];
      } else {
        PrefixValue(p, 0);
        assert p[..0] == "";
        assert s[..at] == s;
      }
    }
  }

  lemma TimeReads(t: int)
    requires 0 <= t < Numbers.ULONG
    ensures StrToUL(Numbers.Numeral(t, 10)) == t && Without(Numbers.Numeral(t, 10), ' ') && Numbers.Numeral(t, 10) != ""
  {
    var s := Numbers.Numeral(t, 10);
    Numbers.NumeralEval(t, 10);
    ReadsPrefix(s, 0);
    assert s[..0] == "";
    DigitsNoSpace(s);
  }

  lemma DigitsNoSpace(s: string)
    requires Numbers.AllDigits(s, 10)
    ensures Without(s, ' ')
  {
  }

  /** The header followed by any text parses into the fields and that text. */
  lemma HeaderParses(r: Record, text: string)
    requires Plain(r)
    ensures ParseRecord(Header(r) + text) == Some(r.(text := text))
  {
    var t, e := Numbers.Numeral(r.when, 10), LogFlags.FlagToStr(r.event);
    TimeReads(r.when);
    LogFlags.FlagRoundTrip(r.event, e);
    FourWords(t, e, r.dest, r.from, text);
    assert Meaning(Fields(t, e, r.dest, r.from, text)) == r.(text := text);
  }

  lemma FourWords(t: string, e: string, dest: string, from: string, text: string)
    requires Without(t, ' ') && Without(e, ' ') && e != "" && Without(dest, ' ') && Without(from, ' ')
    ensures Split(Words(t, e, dest, from) + text) == Some(Fields(t, e, dest, from, text))
  {
    var s3 := from + (" " + text);
    var s2 := dest + (" " + s3);
    var s1 := e + (" " + s2);
    WordsThen(t, e, dest, from, text);
    SplitWords(t + (" " + s1), t, e, dest, from, text, s1, s2, s3);
  }

  lemma WordsThen(t: string, e: string, dest: string, from: string, text: string)
    ensures Words(t, e, dest, from) + text
            == t + (" " + (e + (" " + (dest + (" " + (from + (" " + text)))))))
  {
  }

  lemma SplitWords(s: string, t: string, e: string, dest: string, from: string, text: string,
                   s1: string, s2: string, s3: string)
    requires Without(t, ' ') && Without(e, ' ') && e != "" && Without(dest, ' ') && Without(from, ' ')
    requires s == t + (" " + s1) && s1 == e + (" " + s2) && s2 == dest + (" " + s3) && s3 == from + (" " + text)
    ensures Split(s) == Some(Fields(t, e, dest, from, text))
  {
    assert s[0..] == s;
    var a, b := TwoWords(s, 0, t, e, s1, s2);
    var c, d := TwoWords(s, b + 1, dest, from, s3, text);
    CutAt(s, a, b, c, d, t, e, dest, from);
  }

  lemma TwoWords(s: string, at: nat, v: string, w: string, more: string, rest: string) returns (a: nat, b: nat)
    requires Without(v, ' ') && Without(w, ' ')
    requires at <= |s| && s[at..] == v + (" " + more) && more == w + (" " + rest)
    ensures WordAt(s, at, v, a) && WordAt(s, a + 1, w, b) && s[b + 1..] == rest
  {
    a := WordIn(s, at, v, more);
    b := WordIn(s, a + 1, w, rest);
  }

  lemma CutAt(s: string, a: nat, b: nat, c: nat, d: nat, t: string, e: string, dest: string, from: string)
    requires e != "" && WordAt(s, 0, t, a) && WordAt(s, a + 1, e, b)
    requires WordAt(s, b + 1, dest, c) && WordAt(s, c + 1, from, d)
    ensures Split(s) == Some(Fields(t, e, dest, from, s[d + 1..]))
  {
    CutHead(s, a, b, t, e);
    CutTail(s, a, b, c, d, dest, from);
  }

  lemma CutHead(s: string, a: nat, b: nat, t: string, e: string)
    requires e != "" && WordAt(s, 0, t, a) && WordAt(s, a + 1, e, b)
    ensures Split(s) == SplitTail(s, a, b) && s[..a] == t && s[a + 1..b] == e
  {
    assert s[0..a] == s[..a];
  }

  lemma CutTail(s: string, a: nat, b: nat, c: nat, d: nat, dest: string, from: string)
    requires a < b < |s| && WordAt(s, b + 1, dest, c) && WordAt(s, c + 1, from, d)
    ensures SplitTail(s, a, b) == Some(Fields(s[..a], s[a + 1..b], dest, from, s[d + 1..]))
  {
  }

  lemma {:induction false} TrimLenConcat(h: string, t: string, n: nat)
    requires n <= |t|
    ensures TrimLen(h + t, |h| + n) == if TrimLen(t, n) > 0 then |h| + TrimLen(t, n) else TrimLen(h, |h|)
  {
    if n == 0 {
      TrimLenShared(h + t, h, |h|);
    } else {
      assert (h + t)[|h| + n - 1] == t[n - 1];
      TrimLenConcat(h, t, n - 1);
    }
  }

  lemma TrimConcat(h: string, t: string)
    ensures Trim(h + t) == if Trim(t) != "" then h + Trim(t) else Trim(h)
  {
    TrimLenConcat(h, t, |t|);
  }

  lemma HeaderSpaces(r: Record)
    requires Plain(r)
    ensures Split(Trim(Header(r))).None?
  {
    var t, e := Numbers.Numeral(r.when, 10), LogFlags.FlagToStr(r.event);
    TimeReads(r.when);
    LogFlags.FlagRoundTrip(r.event, e);
    WordsSpaces(t, e, r.dest, r.from);
  }

  lemma WordsSpaces(t: string, e: string, dest: string, from: string)
    requires Without(t, ' ') && Without(e, ' ') && Without(dest, ' ') && Without(from, ' ')
    ensures Split(Trim(Words(t, e, dest, from))).None?
  {
  }

  /** Round trip: a written record is recovered field for field, its text without its
      trailing blanks, exactly when something is left of the text; otherwise it is
      unreadable. */
  lemma RecordRoundTrip(r: Record)
    requires Plain(r)
    ensures ParseRecord(Trim(RecordLine(r))) ==
            if Trim(r.text) == "" then None else Some(r.(text := Trim(r.text)))
  {
    TrimConcat(Header(r), r.text);
    if Trim(r.text) == "" {
      HeaderSpaces(r);
    } else {
      HeaderParses(r, Trim(r.text));
    }
  }

  // ---- the recall window ----

  /** The nickname before any `!`. */
  function NickOf(s: string): string {
    if s == "" || s[0] == '!' then "" else [s[0]] + NickOf(s[1..])
  }

  predicate Passes(r: Record, nick: Option<string>) {
    nick.None?
    || !(r.event == LogFlags.IRC_LOG_NOTICE || r.event == LogFlags.IRC_LOG_MSG || r.event == LogFlags.IRC_LOG_ACTION)
    || Fold(NickOf(r.dest)) == Fold(nick.value)
  }

  predicate FromPerson(r: Record) {
    r.event == LogFlags.IRC_LOG_NOTICE || r.event == LogFlags.IRC_LOG_MSG || r.event == LogFlags.IRC_LOG_ACTION
  }

  /** A filter lets through what a nickname said, up to IRC case and whatever host it said it
      from, and everything that is not said by anyone; without one all passes. */
  lemma {:induction false} FilterMeans(r: Record, name: string, host: string, nick: string)
    requires r.dest == name + host && Without(name, '!') && (host == "" || host[0] == '!')
    ensures Passes(r, None)
    ensures Passes(r, Some(nick)) <==> (FromPerson(r) ==> Fold(name) == Fold(nick))
  {
    NickIs(name, host);
  }

  lemma {:induction false} NickIs(name: string, host: string)
    requires Without(name, '!') && (host == "" || host[0] == '!')
    ensures NickOf(name + host) == name
  {
    if name == "" {
      assert name + host == host;
    } else {
      assert (name + host)[0] == name[0] && (name + host)[1..] == name[1..] + host;
      NickIs(name[1..], host);
    }
  }

  /** What the parser makes of each line. */
  function Parsed(ls: seq<string>): (ps: seq<Option<Record>>)
    ensures |ps| == |ls|
  {
    if ls == [] then [] else [ParseRecord(Trim(ls[0]))] + Parsed(ls[1..])
  }

  lemma {:induction false} ParsedFrom(ls: seq<string>, start: nat)
    requires start <= |ls|
    ensures Parsed(ls[start..]) == Parsed(ls)[start..]
  {
    if start > 0 {
      ParsedFrom(ls[1..], start - 1);
      assert ls[1..][start - 1..] == ls[start..];
    } else {
      assert ls[0..] == ls;
    }
  }

  lemma {:induction false} ParsedAt(ls: seq<string>, i: nat)
    requires i < |ls|
    ensures Parsed(ls)[i] == ParseRecord(Trim(ls[i]))
  {
    if i > 0 {
      ParsedAt(ls[1..], i - 1);
    }
  }

  /** The record, unless there is none or it does not pass. */
  function Chosen(p: Option<Record>, nick: Option<string>): Option<Record> {
    if p.Some? && Passes(p.value, nick) then p else None
  }

  /** The first `lines` records that pass; lines that are skipped do not count. */
  function Take(ps: seq<Option<Record>>, lines: nat, nick: Option<string>): seq<Record>
    decreases |ps|
  {
    if ps == [] || lines == 0 then []
    else
      var one := Chosen(ps[0], nick);
      if one.Some? then [one.value] + Take(ps[1..], lines - 1, nick) else Take(ps[1..], lines, nick)
  }

  /** Each line in turn: it is sent if it is a record that passes and not enough have been
      sent before it. */
  lemma {:induction false} TakeSnoc(ps: seq<Option<Record>>, p: Option<Record>, lines: nat, nick: Option<string>)
    ensures var sent := Take(ps, lines, nick);
            && |sent| <= lines
            && Take(ps + [p], lines, nick)
               == if |sent| < lines && p.Some? && Passes(p.value, nick) then sent + [p.value] else sent
    decreases |ps|
  {
    if ps == [] {
      assert ps + [p] == [p] && [p][1..] == [];
    } else if lines > 0 {
      assert (ps + [p])[0] == ps[0] && (ps + [p])[1..] == ps[1..] + [p];
      TakeSnoc(ps[1..], p, if Chosen(ps[0], nick).Some? then lines - 1 else lines, nick);
    }
  }

  function Window(ps: seq<Option<Record>>, start: nat, lines: nat, nick: Option<string>): seq<Record> {
    if start < |ps| then Take(ps[start..], Min(lines, |ps|), nick) else []
  }

  /** `_irclog_recall`: the records sent to the client, in order. By the time the count
      is limited `start` has been counted down to 0, so it is limited to all the lines. */
  method RecallLines(log: LogFile, start: nat, lines: nat, nick: Option<string>) returns (sent: seq<Record>)
    requires log.Valid()
    modifies log`pos
    ensures log.Valid()
    ensures sent == Window(Parsed(log.Lines), start, lines, nick)
  {
    sent := [];
    if start < log.nlines {
      ghost var rest := SkipLines(log, start);
      var n := if lines < log.nlines then lines else log.nlines;
      ParsedFrom(log.Lines, start);
      assert rest[0..] == rest;
      sent := SendRecords(log, rest, Parsed(rest), n, nick);
    }
    log.pos := |log.file|;
  }

  /** The loop that passes over `start` lines from the beginning of the file. */
  method SkipLines(log: LogFile, start: nat) returns (ghost rest: seq<string>)
    requires AllOneLine(log.Lines) && log.file == Unlines(log.Lines) && start < |log.Lines|
    modifies log`pos
    ensures log.pos <= |log.file| && rest == log.Lines[start..]
    ensures AllOneLine(rest) && log.file[log.pos..] == Unlines(rest)
  {
    log.pos := 0;
    assert log.file[0..] == log.file;
    rest := log.Lines;
    var skip, more := start, true;
    while skip > 0 && more
      invariant 0 <= skip <= start && more && log.pos <= |log.file|
      invariant rest == log.Lines[start - skip..] && AllOneLine(rest)
      invariant log.file[log.pos..] == Unlines(rest)
      decreases skip
    {
      ghost var next := rest[1..];
      assert next == log.Lines[start - (skip - 1)..];
      var l := log.NextOf(rest);
      rest, more, skip := next, l.Some?, skip - 1;
    }
  }

  /** The loop that replays lines until enough have been sent. */
  method SendRecords(log: LogFile, ghost lines: seq<string>, ghost ps: seq<Option<Record>>,
                     n: nat, nick: Option<string>)
    returns (sent: seq<Record>)
    requires At(log.file, log.pos, lines, 0) && ps == Parsed(lines)
    modifies log`pos
    ensures log.pos <= |log.file|
    ensures sent == Take(ps, n, nick)
  {
    sent := [];
    ghost var at := 0;
    var left, more := n, true;
    TakeBegins(ps, n, nick);
    while left > 0 && more
      invariant log.pos <= |log.file|
      invariant if more then At(log.file, log.pos, lines, at) else at == |ps|
      invariant Sending(ps, n, nick, at, left, sent)
      decreases |ps| - at, more
    {
      var one;
      more, one := SendOne(log, lines, ps, at, nick);
      if more {
        TakeStep(ps, n, nick, at, left, sent, one);
        at := at + 1;
      }
      if one.Some? {
        sent, left := sent + [one.value], left - 1;
      }
    }
    TakeEnds(ps, n, nick, at, left, sent);
  }

  /** What was sent, with what the lines from `at` on still give, is what is due. */
  ghost predicate Sending(ps: seq<Option<Record>>, n: nat, nick: Option<string>,
                          at: nat, left: int, sent: seq<Record>)
  {
    at <= |ps| && left >= 0 && sent + Take(ps[at..], left, nick) == Take(ps, n, nick)
  }

  /** The file is at line `at` of these. */
  ghost predicate At(file: string, pos: nat, lines: seq<string>, at: nat) {
    pos <= |file| && at <= |lines| && AllOneLine(lines[at..]) && file[pos..] == Unlines(lines[at..])
  }

  /** The body of that loop: `one` is what goes to the client, if anything. */
  method SendOne(log: LogFile, ghost lines: seq<string>, ghost ps: seq<Option<Record>>,
                 ghost at: nat, nick: Option<string>)
    returns (more: bool, one: Option<Record>)
    requires At(log.file, log.pos, lines, at) && ps == Parsed(lines)
    modifies log`pos
    ensures log.pos <= |log.file| && at <= |ps|
    ensures !more ==> one == None && at == |ps|
    ensures more ==> at < |ps| && one == Chosen(ps[at], nick) && At(log.file, log.pos, lines, at + 1)
  {
    ghost var rest := lines[at..];
    var l := log.NextOf(rest);
    if l.None? {
      return false, None;
    }
    more := true;
    var r := ReadRecord(l.value);
    one := if r.Some? && Passes(r.value, nick) then r else None;
    ParsedAt(lines, at);
    assert rest[1..] == lines[at + 1..];
  }

  lemma TakeBegins(ps: seq<Option<Record>>, n: nat, nick: Option<string>)
    ensures Sending(ps, n, nick, 0, n, [])
  {
    assert ps[0..] == ps;
  }

  lemma TakeStep(ps: seq<Option<Record>>, n: nat, nick: Option<string>,
                 at: nat, left: nat, sent: seq<Record>, one: Option<Record>)
    requires Sending(ps, n, nick, at, left, sent) && left > 0
    requires at < |ps| && one == Chosen(ps[at], nick)
    ensures if one.Some? then Sending(ps, n, nick, at + 1, left - 1, sent + [one.value])
            else Sending(ps, n, nick, at + 1, left, sent)
  {
    assert ps[at..][1..] == ps[at + 1..];
    if one.Some? {
      Associative(sent, [one.value], Take(ps[at + 1..], left - 1, nick));
    }
  }

  lemma TakeEnds(ps: seq<Option<Record>>, n: nat, nick: Option<string>, at: nat, left: nat, sent: seq<Record>)
    requires Sending(ps, n, nick, at, left, sent) && (left == 0 || at == |ps|)
    ensures sent == Take(ps, n, nick)
  {
  }

  /** A C `long` read as `unsigned long`. */
  function Unsigned(x: int): (u: nat)
    requires Numbers.IsLong(x)
    ensures x >= 0 ==> u == x
    ensures u == Numbers.ULONG - 1 <==> x == -1
  {
    if x < 0 then x + Numbers.ULONG else x
  }

  function AutoStart(n: nat, recall: nat): (start: nat)
    ensures start <= n
  {
    if recall == Numbers.ULONG - 1 || recall > n then 0 else n - recall
  }

  /** `irclog_autorecall`, given the class's recall setting for this log. */
  method AutoRecall(log: LogFile, setting: int) returns (sent: seq<Record>)
    requires log.Valid() && Numbers.IsLong(setting)
    modifies log`pos
    ensures log.Valid()
    ensures sent == AutoWindow(Parsed(log.Lines), setting)
  {
    var recall := Unsigned(setting);
    if recall == 0 {
      return [];
    }
    sent := RecallLast(log, recall);
  }

  method RecallLast(log: LogFile, recall: nat) returns (sent: seq<Record>)
    requires log.Valid()
    modifies log`pos
    ensures log.Valid()
    ensures sent == LastWindow(Parsed(log.Lines), recall)
  {
    ghost var ps := Parsed(log.Lines);
    var start := RecallFrom(log.nlines, recall);
    sent := RecallLines(log, start, log.nlines - start, None);
    assert |ps| == log.nlines;
  }

  method RecallFrom(nlines: nat, recall: nat) returns (start: nat)
    ensures start == AutoStart(nlines, recall)
  {
    start := 0;
    if recall != Numbers.ULONG - 1 {
      start := if recall > nlines then 0 else nlines - recall;
    }
  }

  function AutoWindow(ps: seq<Option<Record>>, setting: int): seq<Record>
    requires Numbers.IsLong(setting)
  {
    if Unsigned(setting) == 0 then [] else LastWindow(ps, Unsigned(setting))
  }

  function LastWindow(ps: seq<Option<Record>>, recall: nat): seq<Record> {
    var start := AutoStart(|ps|, recall);
    Window(ps, start, |ps| - start, None)
  }

  /** `irclog_recall` */
  method ManualRecall(log: LogFile, start: int, lines: int, nick: Option<string>) returns (sent: seq<Record>)
    requires log.Valid() && Numbers.IsLong(start) && Numbers.IsLong(lines) && log.nlines <= Numbers.LONG_MAX
    modifies log`pos
    ensures log.Valid()
    ensures sent == ManualWindow(Parsed(log.Lines), start, lines, nick)
  {
    var s, l := start, lines;
    if l == -1 {
      s := 0;
      l := log.nlines;
    }
    if s == -1 {
      s := if Unsigned(l) > log.nlines then 0 else log.nlines - l;
    }
    sent := RecallLines(log, Unsigned(s), Unsigned(l), nick);
  }

  function ManualLines(n: nat, lines: int): int {
    if lines == -1 then n else lines
  }

  function ManualStart(n: nat, start: int, lines: int): int
    requires Numbers.IsLong(lines)
  {
    if lines == -1 then 0
    else if start != -1 then start
    else if Unsigned(lines) > n then 0 else n - lines
  }

  function ManualWindow(ps: seq<Option<Record>>, start: int, lines: int, nick: Option<string>): seq<Record>
    requires Numbers.IsLong(start) && Numbers.IsLong(lines) && |ps| <= Numbers.LONG_MAX
  {
    Window(ps, Unsigned(ManualStart(|ps|, start, lines)), Unsigned(ManualLines(|ps|, lines)), nick)
  }

  // ---- what the windows contain when every line is a record ----

  predicate AllRecords(ps: seq<Option<Record>>) {
    forall i :: 0 <= i < |ps| ==> ps[i].Some?
  }

  function Records(ps: seq<Option<Record>>): (rs: seq<Record>)
    requires AllRecords(ps)
    ensures |rs| == |ps|
  {
    seq(|ps|, i requires 0 <= i < |ps| => ps[i].value)
  }

  lemma {:induction false} TakeAll(ps: seq<Option<Record>>, lines: nat)
    requires AllRecords(ps)
    ensures Take(ps, lines, None) == Records(ps)[..Min(lines, |ps|)]
  {
    if ps != [] && lines > 0 {
      TakeAll(ps[1..], lines - 1);
      assert Records(ps) == [ps[0].value] + Records(ps[1..]);
    }
  }

  lemma WindowIs(ps: seq<Option<Record>>, start: nat, lines: nat)
    requires AllRecords(ps)
    ensures Window(ps, start, lines, None) ==
            if start < |ps| then Records(ps)[start..Min(start + lines, |ps|)] else []
  {
    if start < |ps| {
      TakeAll(ps[start..], Min(lines, |ps|));
      assert Records(ps[start..]) == Records(ps)[start..];
    }
  }

  /** The last n of these. */
  function Latest<T>(s: seq<T>, n: int): seq<T>
    requires 0 <= n <= |s|
  {
    s[|s| - n..]
  }

  /** How many of the lines held a setting asks for. */
  function Wanted(held: nat, setting: int): (n: int)
    ensures 0 <= n <= held
  {
    if setting < 0 then held else Min(setting, held)
  }

  /** A setting as the class has it; read as unsigned, a negative one but for -1 is just a
      number, above any that counts the lines of a log. */
  predicate Countable(lines: nat, setting: int) {
    Numbers.IsLong(setting) && (setting < -1 ==> lines <= Numbers.LONG_MAX)
  }

  /** With no filter, automatic recall replays exactly the last min(recall, nlines)
      records: all of them for -1 and any other negative setting, none for 0. */
  lemma AutoRecallWindow(ps: seq<Option<Record>>, setting: int)
    requires AllRecords(ps) && Countable(|ps|, setting)
    ensures AutoWindow(ps, setting) == Latest(Records(ps), Wanted(|ps|, setting))
  {
    if setting != 0 {
      LastWindowIs(ps, Unsigned(setting), Wanted(|ps|, setting));
    }
  }

  lemma LastWindowIs(ps: seq<Option<Record>>, recall: nat, n: nat)
    requires AllRecords(ps) && AutoStart(|ps|, recall) + n == |ps|
    ensures LastWindow(ps, recall) == Latest(Records(ps), n)
  {
    WindowIs(ps, |ps| - n, n);
    AllFrom(Records(ps), |ps| - n);
  }

  lemma AllFrom<T>(s: seq<T>, start: nat)
    requires start <= |s|
    ensures s[start..|s|] == s[start..] && s[0..] == s && s[|s|..] == []
  {
  }

  /** Manual recall replays lines start to min(start + lines, nlines); without a start,
      the last `lines`; and with -1 lines, everything. Any other negative number of lines is
      as good as all there are, and any other negative start is behind them all. */
  lemma ManualRecallWindow(ps: seq<Option<Record>>, start: int, lines: int)
    requires AllRecords(ps) && |ps| <= Numbers.LONG_MAX
    requires Numbers.IsLong(start) && Numbers.IsLong(lines)
    ensures ManualWindow(ps, start, lines, None) ==
            if lines == -1 then Records(ps)
            else if start == -1 then Latest(Records(ps), Wanted(|ps|, lines))
            else if 0 <= start < |ps| then Records(ps)[start..start + Wanted(|ps| - start, lines)]
            else []
  {
    var n := |ps|;
    WindowIs(ps, Unsigned(ManualStart(n, start, lines)), Unsigned(ManualLines(n, lines)));
    assert Records(ps)[0..n] == Records(ps);
    assert Records(ps)[n..] == [];
  }

  // ---- from writing to recall ----

  /** A record whose line is one line of the file and that the parser takes back. */
  predicate Readable(r: Record) {
    Plain(r) && OneLine(RecordLine(r)) && Trim(r.text) != ""
  }

  predicate AllReadable(rs: seq<Record>) {
    forall i :: 0 <= i < |rs| ==> Readable(rs[i])
  }

  function LinesOf(rs: seq<Record>): (ls: seq<string>)
    requires AllReadable(rs)
    ensures |ls| == |rs|
  {
    seq(|rs|, i requires 0 <= i < |rs| => RecordLine(rs[i]))
  }

  function Trimmed(rs: seq<Record>): (ts: seq<Record>)
    ensures |ts| == |rs|
  {
    seq(|rs|, i requires 0 <= i < |rs| => rs[i].(text := Trim(rs[i].text)))
  }

  predicate ReadAs(msgs: seq<string>, ts: seq<Record>)
    requires |msgs| == |ts|
  {
    forall i {:trigger ts[i]} :: 0 <= i < |msgs| ==> ParseRecord(Trim(msgs[i])) == Some(ts[i])
  }

  lemma AllReadBack(rs: seq<Record>)
    requires AllReadable(rs)
    ensures ReadAs(LinesOf(rs), Trimmed(rs))
  {
    forall i | 0 <= i < |rs| ensures ParseRecord(Trim(LinesOf(rs)[i])) == Some(Trimmed(rs)[i]) {
      assert Readable(rs[i]);
      RecordRoundTrip(rs[i]);
    }
  }

  function Held(k: nat, maxlines: nat): (n: nat)
    ensures n <= k
  {
    if maxlines == 0 then k else Min(maxlines, k)
  }

  /** Every line a rolled log still holds reads back as the record it was written for. */
  lemma HeldParse(msgs: seq<string>, ts: seq<Record>, maxlines: nat)
    requires |msgs| == |ts| && ReadAs(msgs, ts)
    ensures var held := Held(|msgs|, maxlines);
            |Written(msgs, maxlines)| == held && ReadAs(Written(msgs, maxlines), Latest(ts, held))
  {
    var from := |msgs| - Held(|msgs|, maxlines);
    LogIsSuffix(msgs, maxlines);
    if from == 0 {
      assert msgs[0..] == msgs && ts[0..] == ts;
    } else {
      AgedReads(msgs[from..], ts[from..]);
    }
  }

  lemma AgedReads(ls: seq<string>, ts: seq<Record>)
    requires ls != [] && |ls| == |ts| && ReadAs(ls, ts)
    ensures ReadAs(Aged(ls), ts)
  {
    AgedTrims(ls);
    forall i | 0 <= i < |ls| ensures Trim(Aged(ls)[i]) == Trim(ls[i]) {
      assert TrimAll(Aged(ls))[i] == TrimAll(ls)[i];
    }
  }

  lemma ParsedAll(ls: seq<string>, ts: seq<Record>)
    requires |ls| == |ts| && ReadAs(ls, ts)
    ensures AllRecords(Parsed(ls)) && Records(Parsed(ls)) == ts
  {
    forall i | 0 <= i < |ls| ensures Parsed(ls)[i] == Some(ts[i]) {
      ParsedAt(ls, i);
    }
    AllSome(Parsed(ls), ts);
  }

  lemma AllSome(ps: seq<Option<Record>>, ts: seq<Record>)
    requires |ps| == |ts| && forall i :: 0 <= i < |ps| ==> ps[i] == Some(ts[i])
    ensures AllRecords(ps) && Records(ps) == ts
  {
  }

  /** After writing any readable records to a log with any limit, recall with any setting
      replays exactly the last of them, at most as many as the log may hold and as were
      asked for. */
  lemma WrittenIsRecalled(rs: seq<Record>, maxlines: nat, setting: int)
    requires AllReadable(rs) && Countable(|rs|, setting)
    ensures AutoWindow(Parsed(Written(LinesOf(rs), maxlines)), setting)
            == Latest(Trimmed(rs), Wanted(Held(|rs|, maxlines), setting))
  {
    AllReadBack(rs);
    HeldParse(LinesOf(rs), Trimmed(rs), maxlines);
    HeldRecalled(Written(LinesOf(rs), maxlines), Trimmed(rs), Held(|rs|, maxlines), setting);
  }

  lemma HeldRecalled(ls: seq<string>, ts: seq<Record>, held: nat, setting: int)
    requires held <= |ts| && |ls| == held && ReadAs(ls, Latest(ts, held)) && Countable(held, setting)
    ensures AutoWindow(Parsed(ls), setting) == Latest(ts, Wanted(held, setting))
  {
    LastRecalled(ls, Latest(ts, held), setting);
    LatestTwice(ts, held, Wanted(held, setting));
  }

  lemma LastRecalled(ls: seq<string>, ts: seq<Record>, setting: int)
    requires |ls| == |ts| && ReadAs(ls, ts) && Countable(|ls|, setting)
    ensures AutoWindow(Parsed(ls), setting) == Latest(ts, Wanted(|ts|, setting))
  {
    ParsedAll(ls, ts);
    AutoRecallWindow(Parsed(ls), setting);
  }

  lemma LatestTwice<T>(s: seq<T>, m: nat, n: nat)
    requires n <= m <= |s|
    ensures Latest(Latest(s, m), n) == Latest(s, n)
  {
  }

  lemma WrittenNext(ls: seq<string>, i: nat, maxlines: nat)
    requires i < |ls|
    ensures Written(ls[..i + 1], maxlines) == Rolled(Written(ls[..i], maxlines), maxlines, ls[i])
  {
    assert ls[..i + 1][..i] == ls[..i];
  }

  /** `_logfile_writetext` for each record in turn. */
  method WriteAll(log: LogFile, rs: seq<Record>)
    requires log.Valid() && log.open && log.Lines == [] && AllReadable(rs)
    modifies log
    ensures log.Valid() && log.maxlines == old(log.maxlines)
    ensures log.Lines == Written(LinesOf(rs), log.maxlines)
  {
    ghost var ls := LinesOf(rs);
    for i := 0 to |rs|
      invariant log.Valid() && log.open && log.maxlines == old(log.maxlines)
      invariant log.Lines == Written(ls[..i], log.maxlines)
    {
      assert Readable(rs[i]);
      log.Write(RecordLine(rs[i]));
      WrittenNext(ls, i, log.maxlines);
    }
    assert ls[..|rs|] == ls;
  }

  /** Detached logging end to end, on the log file itself. */
  method WriteThenRecall(log: LogFile, rs: seq<Record>, setting: int) returns (sent: seq<Record>)
    requires log.Valid() && log.open && log.Lines == [] && AllReadable(rs)
    requires Countable(|rs|, setting)
    modifies log
    ensures log.Valid() && log.maxlines == old(log.maxlines)
    ensures log.file == Unlines(Written(LinesOf(rs), log.maxlines))
    ensures sent == Latest(Trimmed(rs), Wanted(Held(|rs|, log.maxlines), setting))
  {
    WriteAll(log, rs);
    sent := AutoRecall(log, setting);
    WrittenIsRecalled(rs, log.maxlines, setting);
  }
}
