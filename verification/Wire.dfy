/** The IRC message parser of src/irc_prot.c, with the single-space rule of section
    2.3.1 of RFC 2812. A `char *` into the message is an index into it. */
module Wire {
  import opened Basics
  import opened IrcString

  /** Who sent a message: the peer itself, a prefix that may name a server or a user,
      or a prefix that names a user. */
  datatype Source =
    | Peer
    | Either(orig: string, name: string)
    | User(orig: string, name: string, username: string, hostname: string)

  /** `starts[i]` is where `paramstarts[i]` points. */
  datatype Message = Message(src: Source, cmd: string, params: seq<string>, starts: seq<nat>)

  function SourceOf(p: string): Source {
    var n := IndexOf(p, '!', 0);
    if n == |p| then Either(p, p)
    else
      var h := IndexOf(p, '@', n + 1);
      if h == |p| then Either(p, p[..n]) else User(p, p[..n], p[n + 1..h], p[h + 1..])
  }

  /** Past the word at `at` and the one space after it. */
  function NextAt(s: string, at: nat): (n: nat)
    requires at <= |s|
    ensures n <= |s| && (at < |s| ==> at < n)
  {
    if IndexOf(s, ' ', at) < |s| then IndexOf(s, ' ', at) + 1 else |s|
  }

  function CountParams(s: string, at: nat): nat
    requires at <= |s|
    decreases |s| - at
  {
    if at == |s| then 0 else if s[at] == ':' then 1 else 1 + CountParams(s, NextAt(s, at))
  }

  function Params(s: string, at: nat): (p: seq<string>)
    requires at <= |s|
    ensures |p| == CountParams(s, at)
    decreases |s| - at
  {
    if at == |s| then [] else if s[at] == ':' then [s[at + 1..]]
    else [s[at..IndexOf(s, ' ', at)]] + Params(s, NextAt(s, at))
  }

  function Starts(s: string, at: nat): (p: seq<nat>)
    requires at <= |s|
    ensures |p| == CountParams(s, at)
    decreases |s| - at
  {
    if at == |s| then [] else if s[at] == ':' then [at + 1]
    else [at] + Starts(s, NextAt(s, at))
  }

  /** Whether the parameters end in one introduced by a colon. */
  predicate HasTrailing(s: string, at: nat)
    requires at <= |s|
    decreases |s| - at
  {
    at < |s| && (s[at] == ':' || HasTrailing(s, NextAt(s, at)))
  }

  predicate HasPrefix(s: string) {
    s != "" && s[0] == ':'
  }

  function CommandAt(s: string): (n: nat)
    ensures n <= |s|
  {
    if HasPrefix(s) then NextAt(s, 0) else 0
  }

  function Parse(s: string): Option<Message> {
    var c := CommandAt(s);
    if c == |s| then None
    else
      var p := NextAt(s, c);
      var src := if HasPrefix(s) then SourceOf(s[1..IndexOf(s, ' ', 0)]) else Peer;
      Some(Message(src, s[c..IndexOf(s, ' ', c)], Params(s, p), Starts(s, p)))
  }

  // ---- the code ----

  /** `while (*ptr && (*ptr != ' ')) ptr++` */
  method ToSpace(s: string, from: nat) returns (ptr: nat)
    requires from <= |s|
    ensures ptr == IndexOf(s, ' ', from)
  {
    ptr := from;
    while ptr < |s| && s[ptr] != ' '
      invariant from <= ptr <= |s| && IndexOf(s, ' ', from) == IndexOf(s, ' ', ptr)
    {
      ptr := ptr + 1;
    }
  }

  /** `_ircprot_parse_prefix` */
  method ParsePrefix(prefix: string) returns (source: Source)
    ensures source == SourceOf(prefix)
  {
    var ptr := StrChr(prefix, '!', 0);
    if ptr == |prefix| {
      return Either(prefix, prefix);
    }
    var name, str := prefix[..ptr], ptr + 1;
    ptr := StrChr(prefix, '@', str);
    if ptr == |prefix| {
      return Either(prefix, name);
    }
    return User(prefix, name, prefix[str..ptr], prefix[ptr + 1..]);
  }

  /** `_ircprot_skip_spaces` */
  method SkipSpaces(s: string, ptr: nat) returns (next: nat)
    requires ptr <= |s|
    ensures next == if ptr < |s| && s[ptr] == ' ' then ptr + 1 else ptr
  {
    next := ptr;
    if next < |s| && s[next] == ' ' {
      next := next + 1;
    }
  }

  /** `_ircprot_count_params` on the tail of `s` from `from`. */
  method CountFrom(s: string, from: nat) returns (count: nat)
    requires from <= |s|
    ensures count == CountParams(s, from)
  {
    count := 0;
    var ptr := from;
    while ptr < |s|
      invariant from <= ptr <= |s| && count + CountParams(s, ptr) == CountParams(s, from)
    {
      count := count + 1;
      if s[ptr] == ':' {
        break;
      }
      ptr := ToSpace(s, ptr);
      ptr := SkipSpaces(s, ptr);
    }
  }

  /** `_ircprot_get_params`: it fills exactly the slots that were counted. */
  method GetFrom(s: string, from: nat, params: array<string>, starts: array<nat>)
    requires from <= |s|
    requires params.Length == starts.Length == CountParams(s, from)
    modifies params, starts
    ensures params[..] == Params(s, from)
    ensures starts[..] == Starts(s, from)
  {
    var ptr, param, more := from, 0, true;
    ghost var ps, ss := Params(s, from), Starts(s, from);
    while more && ptr < |s|
      invariant from <= ptr <= |s|
      invariant if more then Filled(s, ptr, params[..], starts[..], param, ps, ss)
                else params[..] == ps && starts[..] == ss
      decreases more, |s| - ptr
    {
      ptr, more := FillSlot(s, ptr, params, starts, param, ps, ss);
      param := param + 1;
    }
    if more {
      AllFilled(s, params[..], starts[..], param, ps, ss);
    }
  }

  /** One turn of the loop; a parameter introduced by a colon is the last. */
  method FillSlot(s: string, start: nat, params: array<string>, starts: array<nat>, param: nat,
                  ghost ps: seq<string>, ghost ss: seq<nat>)
    returns (ptr: nat, more: bool)
    requires start < |s| && Filled(s, start, params[..], starts[..], param, ps, ss)
    modifies params, starts
    ensures start <= ptr <= |s|
    ensures if more then start < ptr && Filled(s, ptr, params[..], starts[..], param + 1, ps, ss)
            else params[..] == ps && starts[..] == ss
  {
    FillStep(s, start, params[..], starts[..], param, ps, ss);
    if s[start] == ':' {
      Put(params, starts, param, s[start + 1..], start + 1);
      return start, false;
    }
    ptr := ToSpace(s, start);
    Put(params, starts, param, s[start..ptr], start);
    ptr := SkipSpaces(s, ptr);
    more := true;
  }

  method Put(params: array<string>, starts: array<nat>, k: nat, p: string, st: nat)
    requires k < params.Length == starts.Length
    modifies params, starts
    ensures params[..] == old(params[..])[k := p] && starts[..] == old(starts[..])[k := st]
  {
    params[k] := p;
    starts[k] := st;
  }

  /** The first `param` slots are filled, and the rest of the text is for the others. */
  ghost predicate Filled(s: string, ptr: nat, params: seq<string>, starts: seq<nat>, param: nat,
                         ps: seq<string>, ss: seq<nat>)
    requires ptr <= |s|
  {
    && param <= |params| == |starts| == |ps| == |ss|
    && Params(s, ptr) == ps[param..] && Starts(s, ptr) == ss[param..]
    && params[..param] == ps[..param] && starts[..param] == ss[..param]
  }

  lemma FillStep(s: string, ptr: nat, params: seq<string>, starts: seq<nat>, param: nat,
                 ps: seq<string>, ss: seq<nat>)
    requires ptr < |s| && Filled(s, ptr, params, starts, param, ps, ss)
    ensures param < |ps|
    ensures s[ptr] == ':' ==> params[param := s[ptr + 1..]] == ps && starts[param := ptr + 1] == ss
    ensures s[ptr] != ':' ==>
              Filled(s, NextAt(s, ptr), params[param := s[ptr..IndexOf(s, ' ', ptr)]], starts[param := ptr],
                     param + 1, ps, ss)
  {
    FirstParam(s, ptr);
    ExtendFilled(params, ps, param);
    ExtendFilled(starts, ss, param);
  }

  lemma AllFilled(s: string, params: seq<string>, starts: seq<nat>, param: nat, ps: seq<string>, ss: seq<nat>)
    requires Filled(s, |s|, params, starts, param, ps, ss)
    ensures params == ps && starts == ss
  {
    assert params[..|ps|] == params && starts[..|ss|] == starts;
    assert ps[..|ps|] == ps && ss[..|ss|] == ss;
  }

  lemma ExtendFilled<T>(a: seq<T>, full: seq<T>, k: nat)
    requires k < |a| == |full| && a[..k] == full[..k]
    ensures a[k := full[k]][..k + 1] == full[..k + 1]
    ensures full[k..][1..] == full[k + 1..] && full[k..][0] == full[k]
    ensures k + 1 == |full| ==> a[k := full[k]] == full
  {
  }

  lemma FirstParam(s: string, at: nat)
    requires at < |s|
    ensures Params(s, at) != [] && Starts(s, at) != []
    ensures s[at] == ':' ==> Params(s, at) == [s[at + 1..]] && Starts(s, at) == [at + 1]
    ensures s[at] != ':' ==>
              && Params(s, at)[0] == s[at..IndexOf(s, ' ', at)] && Starts(s, at)[0] == at
              && Params(s, at)[1..] == Params(s, NextAt(s, at))
              && Starts(s, at)[1..] == Starts(s, NextAt(s, at))
  {
  }

  /** `ircprot_parsemsg` */
  method ParseMsg(message: string) returns (msg: Option<Message>)
    requires CString(message)
    ensures msg == Parse(message)
  {
    var ptr, src := 0, Peer;
    if message != "" && message[0] == ':' {
      ptr := ToSpace(message, 0);
      src := ParsePrefix(message[1..ptr]);
      ptr := SkipSpaces(message, ptr);
    }
    if ptr == |message| {
      return None;
    }
    var start := ptr;
    ptr := ToSpace(message, ptr);
    var cmd := message[start..ptr];
    ptr := SkipSpaces(message, ptr);
    var n := CountFrom(message, ptr);
    var params, starts := new string[n], new nat[n];
    GetFrom(message, ptr, params, starts);
    return Some(Message(src, cmd, params[..], starts[..]));
  }

  // ---- the parts of a prefix ----

  predicate UserForm(p: string, name: string, user: string, host: string) {
    p == name + ("!" + (user + ("@" + host))) && Without(name, '!') && Without(user, '@')
  }

  predicate EitherForm(p: string, name: string) {
    && Without(name, '!')
    && (p == name || (name + "!" <= p && Without(p[|name| + 1..], '@')))
  }

  /** A prefix is a user's exactly when it reads name!user@host, and then in one way. */
  lemma SourceIsUser(p: string, name: string, user: string, host: string)
    ensures SourceOf(p) == User(p, name, user, host) <==> UserForm(p, name, user, host)
  {
    if SourceOf(p).User? {
      UserHasForm(p);
    }
    if UserForm(p, name, user, host) {
      FormIsUser(p, name, user, host);
    }
  }

  lemma FormIsUser(p: string, name: string, user: string, host: string)
    requires UserForm(p, name, user, host)
    ensures SourceOf(p) == User(p, name, user, host)
  {
    var rest := user + ("@" + host);
    assert p[0..] == p;
    FirstIs(p, 0, name, '!', rest);
    FirstIs(p, |name| + 1, user, '@', host);
    assert p[..|name|] == p[0..|name|];
  }

  /** Any other prefix has the name before its `!`, and what follows is dropped. */
  lemma SourceIsEither(p: string, name: string)
    ensures SourceOf(p) == Either(p, name) <==> EitherForm(p, name)
  {
    if SourceOf(p).Either? {
      EitherHasForm(p);
    }
    if EitherForm(p, name) {
      if p == name {
        NoneFrom(p, '!', 0);
      } else {
        var rest := p[|name| + 1..];
        FirstIs(p, 0, name, '!', rest);
        NoneFrom(p, '@', |name| + 1);
      }
    }
  }

  lemma UserHasForm(p: string)
    requires SourceOf(p).User?
    ensures var src := SourceOf(p); UserForm(p, src.name, src.username, src.hostname)
  {
    var n := IndexOf(p, '!', 0);
    PieceBefore(p, '!', 0);
    PieceBefore(p, '@', n + 1);
    UserCut(p, n, IndexOf(p, '@', n + 1), SourceOf(p));
  }

  lemma EitherHasForm(p: string)
    requires SourceOf(p).Either?
    ensures EitherForm(p, SourceOf(p).name)
  {
    var n := IndexOf(p, '!', 0);
    PieceBefore(p, '!', 0);
    if n == |p| {
      assert p[0..n] == p;
    } else {
      PieceBefore(p, '@', n + 1);
      EitherCut(p, n);
    }
  }

  lemma EitherCut(p: string, n: nat)
    requires n < |p| && p[n] == '!' && Without(p[0..n], '!') && Without(p[n + 1..|p|], '@')
    ensures EitherForm(p, p[..n])
  {
    assert p[0..n] == p[..n];
    assert p[..n] + "!" == p[..n + 1];
    assert p[n + 1..|p|] == p[n + 1..];
  }

  lemma UserCut(p: string, n: nat, h: nat, src: Source)
    requires n < h < |p| && p[n] == '!' && Without(p[0..n], '!') && p[h] == '@' && Without(p[n + 1..h], '@')
    requires src == User(p, p[..n], p[n + 1..h], p[h + 1..])
    ensures UserForm(p, src.name, src.username, src.hostname)
  {
    assert p[0..n] == p[..n];
    assert p[h..] == "@" + p[h + 1..];
    assert p[n + 1..] == p[n + 1..h] + p[h..];
    assert p[n..] == "!" + p[n + 1..];
    assert p == p[..n] + p[n..];
  }

  // ---- slots and pointers ----

  /** Every `paramstarts[i]` points into the message, at or after the point where the
      parameters begin, and what it points to begins with `params[i]`. */
  lemma {:induction false} StartsPointAtParams(s: string, at: nat, i: nat)
    requires at <= |s| && i < CountParams(s, at)
    ensures var p, st := Params(s, at)[i], Starts(s, at)[i];
            at <= st && st + |p| <= |s| && s[st..st + |p|] == p
    decreases |s| - at
  {
    FirstParam(s, at);
    if s[at] != ':' && i > 0 {
      var n := NextAt(s, at);
      StartsPointAtParams(s, n, i - 1);
      assert Params(s, at)[1..][i - 1] == Params(s, at)[i] && Starts(s, at)[1..][i - 1] == Starts(s, at)[i];
    }
  }

  // ---- round trips ----

  function RenderParams(mids: seq<string>, trailing: string): string {
    if mids == [] then ":" + trailing else mids[0] + (" " + RenderParams(mids[1..], trailing))
  }

  function RenderPrefix(prefix: Option<string>, rest: string): string {
    if prefix.Some? then ":" + (prefix.value + (" " + rest)) else rest
  }

  /** `src.orig` */
  function OrigOf(src: Source): Option<string> {
    if src.Peer? then None else Some(src.orig)
  }

  function Render(prefix: Option<string>, cmd: string, mids: seq<string>, trailing: string): string {
    RenderPrefix(prefix, cmd + (" " + RenderParams(mids, trailing)))
  }

  predicate IsMiddle(p: string) {
    Without(p, ' ') && (p != "" ==> p[0] != ':')
  }

  predicate Middles(mids: seq<string>) {
    forall i :: 0 <= i < |mids| ==> IsMiddle(mids[i])
  }

  /** Where the parser reads on after a word. */
  lemma ReadsWord(s: string, at: nat, w: string, rest: string)
    requires at <= |s| && s[at..] == w + (" " + rest) && Without(w, ' ')
    ensures WordAt(s, at, w, at + |w|) && NextAt(s, at) == at + |w| + 1 && s[NextAt(s, at)..] == rest
    ensures s[at] == if w == "" then ' ' else w[0]
  {
    var _ := WordIn(s, at, w, rest);
    assert s[at] == s[at..][0];
  }

  lemma ParamAndRest(s: string, at: nat)
    requires at < |s| && s[at] != ':'
    ensures Params(s, at) == [s[at..IndexOf(s, ' ', at)]] + Params(s, NextAt(s, at))
  {
  }

  lemma TrailingIs(s: string, at: nat, trailing: string)
    requires at <= |s| && s[at..] == ":" + trailing
    ensures Params(s, at) == [trailing]
  {
    assert s[at..][0] == s[at] == ':' && s[at..][1..] == s[at + 1..] == trailing;
  }

  lemma {:induction false} ParamsOfRendered(s: string, at: nat, mids: seq<string>, trailing: string)
    requires at <= |s| && s[at..] == RenderParams(mids, trailing) && Middles(mids)
    ensures Params(s, at) == mids + [trailing]
    decreases |mids|
  {
    if mids == [] {
      TrailingIs(s, at, trailing);
      assert [] + [trailing] == [trailing];
    } else {
      var w, tail := mids[0], mids[1..];
      assert IsMiddle(w);
      ReadsWord(s, at, w, RenderParams(tail, trailing));
      ParamsOfRendered(s, NextAt(s, at), tail, trailing);
      ParamAndRest(s, at);
      assert mids + [trailing] == [w] + (tail + [trailing]);
    }
  }

  /** Parsing a rendered message gives back its parts; middle parameters may be empty. */
  lemma RoundTrip(prefix: Option<string>, cmd: string, mids: seq<string>, trailing: string)
    requires prefix.Some? ==> Without(prefix.value, ' ')
    requires cmd != "" && Without(cmd, ' ') && (prefix.None? ==> cmd[0] != ':')
    requires Middles(mids)
    ensures var r := Parse(Render(prefix, cmd, mids, trailing));
            && r.Some? && r.value.cmd == cmd && r.value.params == mids + [trailing]
            && r.value.src == if prefix.Some? then SourceOf(prefix.value) else Peer
  {
    var s, tail := Render(prefix, cmd, mids, trailing), RenderParams(mids, trailing);
    PrefixOfRendered(s, prefix, cmd, tail);
    ReadsWord(s, CommandAt(s), cmd, tail);
    ParamsOfRendered(s, NextAt(s, CommandAt(s)), mids, trailing);
  }

  lemma PrefixOfRendered(s: string, prefix: Option<string>, cmd: string, tail: string)
    requires prefix.Some? ==> Without(prefix.value, ' ')
    requires cmd != "" && (prefix.None? ==> cmd[0] != ':')
    requires s == RenderPrefix(prefix, cmd + (" " + tail))
    ensures HasPrefix(s) == prefix.Some? && s[CommandAt(s)..] == cmd + (" " + tail)
    ensures prefix.Some? ==> 1 <= IndexOf(s, ' ', 0) && s[1..IndexOf(s, ' ', 0)] == prefix.value
  {
    if prefix.Some? {
      assert s[1..] == prefix.value + (" " + (cmd + (" " + tail)));
      ReadsWord(s, 1, prefix.value, cmd + (" " + tail));
      assert IndexOf(s, ' ', 0) == IndexOf(s, ' ', 1);
    } else {
      assert s[0] == cmd[0] && s[0..] == s;
    }
  }

  lemma WordThenRest(s: string, at: nat)
    requires at <= |s| && IndexOf(s, ' ', at) < |s|
    ensures s[at..] == s[at..IndexOf(s, ' ', at)] + (" " + s[NextAt(s, at)..])
  {
  }

  lemma {:induction false} RenderParsedParams(s: string, at: nat)
    requires at <= |s| && HasTrailing(s, at)
    ensures CountParams(s, at) > 0
    ensures var p := Params(s, at); RenderParams(p[..|p| - 1], p[|p| - 1]) == s[at..]
    decreases |s| - at
  {
    var p := Params(s, at);
    if s[at] == ':' {
      assert p[..0] == [] && s[at..] == ":" + s[at + 1..];
    } else {
      var n := NextAt(s, at);
      RenderParsedParams(s, n);
      var q := Params(s, n);
      assert p[..|p| - 1] == [p[0]] + q[..|q| - 1] && p[|p| - 1] == q[|q| - 1];
      assert p[..|p| - 1][1..] == q[..|q| - 1];
      WordThenRest(s, at);
    }
  }

  /** And rendering a parsed message gives back the very text, whenever its last
      parameter was introduced by a colon: nothing is normalised away. */
  lemma RenderParsed(s: string)
    requires Parse(s).Some? && HasTrailing(s, NextAt(s, CommandAt(s)))
    ensures var m := Parse(s).value;
            && m.params != []
            && Render(OrigOf(m.src), m.cmd, m.params[..|m.params| - 1], m.params[|m.params| - 1]) == s
  {
    RenderParsedParams(s, NextAt(s, CommandAt(s)));
    WordThenRest(s, CommandAt(s));
    RenderParsedPrefix(s);
  }

  lemma RenderParsedPrefix(s: string)
    requires Parse(s).Some?
    ensures RenderPrefix(OrigOf(Parse(s).value.src), s[CommandAt(s)..]) == s
  {
    if HasPrefix(s) {
      PrefixCut(s, IndexOf(s, ' ', 0));
    } else {
      assert s[0..] == s;
    }
  }

  lemma PrefixCut(s: string, e: nat)
    requires 0 < e < |s| && s[0] == ':' && s[e] == ' '
    ensures ":" + (s[1..e] + (" " + s[e + 1..])) == s
  {
    assert s[e..] == " " + s[e + 1..];
    assert s[1..] == s[1..e] + s[e..];
    assert s == ":" + s[1..];
  }

  // ---- without a colon ----

  /** Parameters that need no colon, each after one space. */
  function RenderMiddles(mids: seq<string>): string {
    if mids == [] then "" else " " + (mids[0] + RenderMiddles(mids[1..]))
  }

  /** Words that are parameters of their own wherever they stand. */
  predicate Words(mids: seq<string>) {
    forall i :: 0 <= i < |mids| ==> mids[i] != "" && mids[i][0] != ':' && Without(mids[i], ' ')
  }

  /** A word, at the end or followed by others. */
  lemma ReadsLastWord(s: string, at: nat, w: string, mids: seq<string>)
    requires at <= |s| && s[at..] == w + RenderMiddles(mids) && Without(w, ' ')
    ensures s[at..IndexOf(s, ' ', at)] == w
    ensures NextAt(s, at) == (if mids == [] then |s| else at + |w| + 1)
    ensures mids != [] ==> s[NextAt(s, at)..] == mids[0] + RenderMiddles(mids[1..])
    ensures w != "" ==> at < |s| && s[at] == w[0]
  {
    if w != "" {
      assert s[at] == s[at..][0];
    }
    if mids == [] {
      assert w + "" == w;
      NoneFrom(s, ' ', at);
    } else {
      FirstIs(s, at, w, ' ', mids[0] + RenderMiddles(mids[1..]));
    }
  }

  lemma {:induction false} ParamsOfMiddles(s: string, at: nat, mids: seq<string>)
    requires Words(mids) && at <= |s|
    requires if mids == [] then at == |s| else s[at..] == mids[0] + RenderMiddles(mids[1..])
    ensures Params(s, at) == mids
    decreases |mids|
  {
    if mids != [] {
      var tail := mids[1..];
      ReadsLastWord(s, at, mids[0], tail);
      ParamsOfMiddles(s, NextAt(s, at), tail);
      ParamAndRest(s, at);
      assert mids == [mids[0]] + tail;
    }
  }

  /** A message whose parameters are all plain words is parsed into just these, as many as
      there are. */
  lemma RoundTripPlain(prefix: Option<string>, cmd: string, mids: seq<string>)
    requires prefix.Some? ==> Without(prefix.value, ' ')
    requires cmd != "" && Without(cmd, ' ') && (prefix.None? ==> cmd[0] != ':')
    requires Words(mids)
    ensures var r := Parse(RenderPrefix(prefix, cmd + RenderMiddles(mids)));
            && r.Some? && r.value.cmd == cmd && r.value.params == mids
            && r.value.src == if prefix.Some? then SourceOf(prefix.value) else Peer
  {
    var s := RenderPrefix(prefix, cmd + RenderMiddles(mids));
    PrefixBefore(s, prefix, cmd + RenderMiddles(mids));
    ReadsLastWord(s, CommandAt(s), cmd, mids);
    ParamsOfMiddles(s, NextAt(s, CommandAt(s)), mids);
  }

  lemma PrefixBefore(s: string, prefix: Option<string>, rest: string)
    requires prefix.Some? ==> Without(prefix.value, ' ')
    requires rest != "" && (prefix.None? ==> rest[0] != ':') && s == RenderPrefix(prefix, rest)
    ensures HasPrefix(s) == prefix.Some? && CommandAt(s) < |s| && s[CommandAt(s)..] == rest
    ensures prefix.Some? ==> 1 <= IndexOf(s, ' ', 0) && s[1..IndexOf(s, ' ', 0)] == prefix.value
  {
    if prefix.Some? {
      assert s[1..] == prefix.value + (" " + rest);
      ReadsWord(s, 1, prefix.value, rest);
      assert IndexOf(s, ' ', 0) == IndexOf(s, ' ', 1);
    } else {
      assert s[0] == rest[0] && s[0..] == s;
    }
  }

  /** Only an empty message, and a prefix with nothing after it, have no command. */
  lemma NoCommandIff(s: string)
    ensures Parse(s).None? <==> s == "" || (s[0] == ':' && Without(s[..|s| - 1], ' '))
  {
    if HasPrefix(s) {
      NoneBefore(s, ' ', 0);
      if IndexOf(s, ' ', 0) + 1 < |s| {
        assert s[..|s| - 1][IndexOf(s, ' ', 0)] == ' ';
      }
    }
  }
}
