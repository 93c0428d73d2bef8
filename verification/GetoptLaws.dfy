/** What a command line means: how each form of option is read, in terms of the option
    string and the table of long options alone. */
module GetoptLaws {
  import opened Basics
  import opened Getopt

  // ---- the option string ----

  /** What its first place in the option string says about a character. */
  datatype Kind = Unknown | Flag | Required | Optional

  /** `c` is of this kind: it is `:`, or nowhere in the option string, or what follows its
      first place there is no colon, one, or two. */
  ghost predicate IsKind(optstring: string, c: char, k: Kind) {
    match k
    case Unknown => c == ':' || c !in optstring
    case Flag => exists p, q :: FirstPlace(optstring, c, p, q) && (q == "" || q[0] != ':')
    case Required => exists p, q :: FirstPlace(optstring, c, p, q) && ":" <= q && (|q| == 1 || q[1] != ':')
    case Optional => exists p, q :: FirstPlace(optstring, c, p, q) && "::" <= q
  }

  predicate FirstPlace(optstring: string, c: char, p: string, q: string) {
    optstring == p + [c] + q && Without(p, c) && c != ':'
  }

  lemma PlaceIs(optstring: string, c: char, p: string, q: string)
    requires FirstPlace(optstring, c, p, q)
    ensures IndexOf(optstring, c, 0) == |p| < |optstring| && optstring[|p| + 1..] == q
  {
    assert optstring[0..] == p + ([c] + q);
    FirstIs(optstring, 0, p, c, q);
  }

  lemma CharsBehind(s: string, at: nat, q: string)
    requires at < |s| && s[at + 1..] == q
    ensures CharAt(s, at + 1) == CharAt(q, 0) && CharAt(s, at + 2) == CharAt(q, 1)
  {
  }

  /** Where the code looks, and what it finds there, for each kind. */
  lemma KindTells(optstring: string, c: char, k: Kind) returns (at: nat)
    requires IsKind(optstring, c, k)
    ensures at == IndexOf(optstring, c, 0)
    ensures k.Unknown? <==> at == |optstring| || c == ':'
    ensures k.Flag? ==> CharAt(optstring, at + 1) != ':'
    ensures k.Required? ==> CharAt(optstring, at + 1) == ':' && CharAt(optstring, at + 2) != ':'
    ensures k.Optional? ==> CharAt(optstring, at + 1) == ':' && CharAt(optstring, at + 2) == ':'
  {
    at := IndexOf(optstring, c, 0);
    NotIndexed(optstring, c, 0);
    assert optstring[0..] == optstring;
    if !k.Unknown? {
      var p, q :| FirstPlace(optstring, c, p, q)
                  && match k
                     case Flag => q == "" || q[0] != ':'
                     case Required => ":" <= q && (|q| == 1 || q[1] != ':')
                     case _ => "::" <= q;
      PlaceIs(optstring, c, p, q);
      CharsBehind(optstring, |p|, q);
    }
  }

  /** Every character is of exactly one kind. */
  lemma OneKind(optstring: string, c: char) returns (k: Kind)
    ensures forall j :: IsKind(optstring, c, j) <==> j == k
  {
    var at := IndexOf(optstring, c, 0);
    NotIndexed(optstring, c, 0);
    assert optstring[0..] == optstring;
    if at == |optstring| || c == ':' {
      k := Unknown;
    } else {
      var p, q := optstring[..at], optstring[at + 1..];
      PieceBefore(optstring, c, 0);
      assert optstring[0..at] == p;
      assert optstring == p + [c] + q;
      assert FirstPlace(optstring, c, p, q);
      k := if q == "" || q[0] != ':' then Flag else if |q| == 1 || q[1] != ':' then Required else Optional;
      forall p', q' | FirstPlace(optstring, c, p', q') ensures q' == q {
        PlaceIs(optstring, c, p', q');
      }
    }
  }

  // ---- one character ----

  /** No long option begins with what stands here, up to any `=`. */
  predicate NamesNothing(los: seq<LongOpt>, nc: string) {
    forall k :: 0 <= k < |los| ==> !(nc[..IndexOf(nc, '=', 0)] <= los[k].name)
  }

  /** Whether the rest `nc` of element e is read as option characters: there are no long
      options, or one dash does not introduce them, or none is meant and the character is a
      known one. */
  predicate ReadsShort(cfg: Config, e: string, nc: string)
    requires |e| >= 2 && nc != ""
  {
    cfg.longopts.None?
    || (e[1] != '-' && (!cfg.longOnly || (NamesNothing(cfg.longopts.value, nc) && nc[0] in cfg.optstring)))
  }

  function NoArgument(optstring: string): Found {
    Found(if ":" <= optstring then ':' as int else '?' as int, None, -1)
  }

  lemma LooksUpNothing(los: seq<LongOpt>, name: string)
    requires forall k :: 0 <= k < |los| ==> !(name <= los[k].name)
    ensures Lookup(los, name) == NoMatch
  {
    PrefixFirst(los, name, 0);
    ExactFirst(los, name, 0);
  }

  lemma {:induction false} PrefixFirst(los: seq<LongOpt>, name: string, at: nat)
    requires at <= |los|
    ensures var i := Prefix(los, name, at);
            && (i < |los| ==> name <= los[i].name)
            && forall k :: at <= k < i ==> !(name <= los[k].name)
    decreases |los| - at
  {
    if at < |los| {
      PrefixFirst(los, name, at + 1);
    }
  }

  lemma {:induction false} ExactFirst(los: seq<LongOpt>, name: string, at: nat)
    requires at <= |los|
    ensures var i := Exact(los, name, at);
            && (i < |los| ==> los[i].name == name)
            && forall k :: at <= k < i ==> los[k].name != name
    decreases |los| - at
  {
    if at < |los| {
      ExactFirst(los, name, at + 1);
    }
  }

  lemma GoesShort(cfg: Config, nc: string, rest: seq<string>)
    requires Midway(nc, rest) && ReadsShort(cfg, rest[0], nc)
    ensures OptionStep(cfg, nc, rest) == ShortStep(cfg, nc, rest)
  {
    if cfg.longopts.Some? && cfg.longOnly {
      LooksUpNothing(cfg.longopts.value, nc[..IndexOf(nc, '=', 0)]);
    }
  }

  /** What one option character does, by its kind. */
  lemma CharacterStep(cfg: Config, nc: string, rest: seq<string>, k: Kind) returns (s: Step)
    requires Midway(nc, rest) && ReadsShort(cfg, rest[0], nc) && IsKind(cfg.optstring, nc[0], k)
    ensures s == OptionStep(cfg, nc, rest)
    ensures k.Unknown? ==> s == Step(nc[1..], if |nc| == 1 then 1 else 0, UNKNOWN)
    ensures k.Flag? ==> s == Step(nc[1..], if |nc| == 1 then 1 else 0, Found(nc[0] as int, None, -1))
    ensures (k.Required? || k.Optional?) && |nc| > 1 ==> s == Step("", 1, Found(nc[0] as int, Some(nc[1..]), -1))
    ensures k.Optional? && |nc| == 1 ==> s == Step("", 1, Found(nc[0] as int, None, -1))
    ensures k.Required? && |nc| == 1 && |rest| > 1 ==> s == Step("", 2, Found(nc[0] as int, Some(rest[1]), -1))
    ensures k.Required? && |nc| == 1 && |rest| == 1 ==> s == Step("", 1, NoArgument(cfg.optstring))
  {
    s := OptionStep(cfg, nc, rest);
    GoesShort(cfg, nc, rest);
    var _ := KindTells(cfg.optstring, nc[0], k);
  }

  // ---- a whole element of option characters ----

  function Report(optstring: string, c: char): Found {
    if c == ':' || c !in optstring then UNKNOWN else Found(c as int, None, -1)
  }

  function Reports(optstring: string, cs: string): (fs: seq<Found>)
    ensures |fs| == |cs|
  {
    seq(|cs|, i requires 0 <= i < |cs| => Report(optstring, cs[i]))
  }

  /** The characters of e in [from, to) are options without an argument, known or not. */
  ghost predicate Flags(cfg: Config, e: string, from: nat, to: nat)
    requires |e| >= 2
  {
    from <= to <= |e|
    && forall i :: from <= i < to ==>
         ReadsShort(cfg, e, e[i..]) && (IsKind(cfg.optstring, e[i], Unknown) || IsKind(cfg.optstring, e[i], Flag))
  }

  lemma FlagReported(optstring: string, c: char)
    requires IsKind(optstring, c, Flag)
    ensures Report(optstring, c) == Found(c as int, None, -1)
  {
    var p, q :| FirstPlace(optstring, c, p, q) && (q == "" || q[0] != ':');
    PlaceIs(optstring, c, p, q);
  }

  /** What is left to read once the characters up to `to` are. */
  function Onwards(cfg: Config, e: string, to: nat, rest: seq<string>): Scan
    requires IsOption(e) && 0 < to <= |e|
  {
    if to == |e| then Then([e], [], [], ScanOf(cfg, "", rest)) else ScanOf(cfg, e[to..], [e] + rest)
  }

  lemma OneFlag(cfg: Config, e: string, from: nat, rest: seq<string>)
    requires IsOption(e) && 0 < from < |e| && Flags(cfg, e, from, from + 1)
    ensures ScanOf(cfg, e[from..], [e] + rest)
            == Then([], [], [Report(cfg.optstring, e[from])], Onwards(cfg, e, from + 1, rest))
  {
    var s := FlagStep(cfg, e, from, rest);
    var all := [e] + rest;
    ReadsOn(cfg, e[from..], all, s);
    assert all[1..] == rest && all[..1] == [e] && all[0..] == all && all[..0] == [];
    if from + 1 == |e| {
      ThenThen([], [], [s.found], [e], [], [], ScanOf(cfg, "", rest));
      assert [s.found] + [] == [s.found] && [] + [e] == [e];
    }
  }

  lemma FlagStep(cfg: Config, e: string, from: nat, rest: seq<string>) returns (s: Step)
    requires IsOption(e) && 0 < from < |e| && Flags(cfg, e, from, from + 1)
    ensures Midway(e[from..], [e] + rest) && s == OptionStep(cfg, e[from..], [e] + rest)
    ensures s == Step(e[from + 1..], if from + 1 == |e| then 1 else 0, Report(cfg.optstring, e[from]))
  {
    var nc, all, c := e[from..], [e] + rest, e[from];
    assert ReadsShort(cfg, e, e[from..]);
    assert nc[0] == c && nc[1..] == e[from + 1..];
    if IsKind(cfg.optstring, c, Unknown) {
      s := CharacterStep(cfg, nc, all, Unknown);
    } else {
      s := CharacterStep(cfg, nc, all, Flag);
      FlagReported(cfg.optstring, c);
    }
  }

  lemma ReadsOn(cfg: Config, nc: string, all: seq<string>, s: Step)
    requires nc != "" && Midway(nc, all) && s == OptionStep(cfg, nc, all)
    ensures s.adv <= |all| && (s.nc == "" || Midway(s.nc, all[s.adv..]))
    ensures ScanOf(cfg, nc, all) == Then(all[..s.adv], [], [s.found], ScanOf(cfg, s.nc, all[s.adv..]))
  {
  }

  /** Characters without an argument are reported one after the other. */
  lemma {:induction false} FlagsMean(cfg: Config, e: string, from: nat, to: nat, rest: seq<string>)
    requires IsOption(e) && 0 < from <= to && from < |e| && Flags(cfg, e, from, to)
    ensures ScanOf(cfg, e[from..], [e] + rest)
            == Then([], [], Reports(cfg.optstring, e[from..to]), Onwards(cfg, e, to, rest))
    decreases |e| - from
  {
    if from == to {
      ThenNothing(ScanOf(cfg, e[from..], [e] + rest));
      assert Reports(cfg.optstring, e[from..to]) == [];
    } else {
      OneFlag(cfg, e, from, rest);
      ReportsFirst(cfg.optstring, e, from, to);
      var one, more := [Report(cfg.optstring, e[from])], Reports(cfg.optstring, e[from + 1..to]);
      if from + 1 < |e| {
        FlagsMean(cfg, e, from + 1, to, rest);
        ReportsOn(ScanOf(cfg, e[from..], [e] + rest), Onwards(cfg, e, from + 1, rest), Onwards(cfg, e, to, rest),
                  one, more);
      } else {
        assert one + [] == one;
      }
    }
  }

  lemma ReportsOn(x: Scan, y: Scan, z: Scan, one: seq<Found>, more: seq<Found>)
    requires x == Then([], [], one, y) && y == Then([], [], more, z)
    ensures x == Then([], [], one + more, z)
  {
    ThenThen([], [], one, [], [], more, z);
  }

  lemma ReportsFirst(optstring: string, e: string, from: nat, to: nat)
    requires from < to <= |e|
    ensures Reports(optstring, e[from..to]) == [Report(optstring, e[from])] + Reports(optstring, e[from + 1..to])
    ensures from + 1 == to ==> Reports(optstring, e[from + 1..to]) == []
  {
  }

  /** An element whose option characters begin after its first dash. */
  predicate ShortElement(cfg: Config, e: string) {
    IsOption(e) && e != "--" && (cfg.longopts.None? || e[1] != '-')
  }

  /** Behind options without an argument, the one at position n of e is of kind k. */
  ghost predicate OptionAt(cfg: Config, e: string, n: nat, k: Kind) {
    && ShortElement(cfg, e) && 1 <= n < |e| && Flags(cfg, e, 1, n)
    && ReadsShort(cfg, e, e[n..]) && IsKind(cfg.optstring, e[n], k)
  }

  /** "-xyz": each character is reported, and the element is an option. */
  lemma BundleMeans(cfg: Config, e: string, rest: seq<string>)
    requires ShortElement(cfg, e) && Flags(cfg, e, 1, |e|)
    ensures ScanOf(cfg, "", [e] + rest) == Then([e], [], Reports(cfg.optstring, e[1..]), ScanOf(cfg, "", rest))
  {
    FlagsMean(cfg, e, 1, |e|, rest);
    assert e[1..|e|] == e[1..];
    var fs := Reports(cfg.optstring, e[1..]);
    ThenThen([], [], fs, [e], [], [], ScanOf(cfg, "", rest));
    assert fs + [] == fs && [] + [e] == [e];
  }

  lemma OptionMeans(cfg: Config, e: string, n: nat, k: Kind, rest: seq<string>) returns (s: Step)
    requires OptionAt(cfg, e, n, k)
    ensures s == OptionStep(cfg, e[n..], [e] + rest) && s.adv <= 1 + |rest|
    ensures s.nc == "" && s.adv > 0 ==>
              ScanOf(cfg, "", [e] + rest)
              == Then(([e] + rest)[..s.adv], [], Reports(cfg.optstring, e[1..n]) + [s.found],
                      ScanOf(cfg, "", ([e] + rest)[s.adv..]))
  {
    var all, fs := [e] + rest, Reports(cfg.optstring, e[1..n]);
    assert Midway(e[n..], all);
    FlagsMean(cfg, e, 1, n, rest);
    s := OptionStep(cfg, e[n..], all);
    if s.nc == "" && s.adv > 0 {
      ThenThen([], [], fs, all[..s.adv], [], [s.found], ScanOf(cfg, "", all[s.adv..]));
    }
  }

  /** "-xca": the rest of the element is the argument of c. */
  lemma AttachedMeans(cfg: Config, e: string, n: nat, k: Kind, rest: seq<string>)
    requires OptionAt(cfg, e, n, k) && (k.Required? || k.Optional?) && n + 1 < |e|
    ensures ScanOf(cfg, "", [e] + rest)
            == Then([e], [], Reports(cfg.optstring, e[1..n]) + [Found(e[n] as int, Some(e[n + 1..]), -1)],
                    ScanOf(cfg, "", rest))
  {
    var s := OptionMeans(cfg, e, n, k, rest);
    var _ := CharacterStep(cfg, e[n..], [e] + rest, k);
    assert ([e] + rest)[1..] == rest && ([e] + rest)[..1] == [e] && e[n..][1..] == e[n + 1..];
  }

  /** "-xc a": the next element, whatever it is, is the argument c requires. */
  lemma FollowingMeans(cfg: Config, e: string, a: string, rest: seq<string>)
    requires e != "" && OptionAt(cfg, e, |e| - 1, Required)
    ensures ScanOf(cfg, "", [e] + ([a] + rest))
            == Then([e, a], [], Reports(cfg.optstring, e[1..|e| - 1]) + [Found(e[|e| - 1] as int, Some(a), -1)],
                    ScanOf(cfg, "", rest))
  {
    var all := [e] + ([a] + rest);
    var s := OptionMeans(cfg, e, |e| - 1, Required, [a] + rest);
    var _ := CharacterStep(cfg, e[|e| - 1..], all, Required);
    assert all[2..] == rest && all[..2] == [e, a];
  }

  /** "-xc" at the end of the command line: the argument c requires is missing. */
  lemma MissingMeans(cfg: Config, e: string)
    requires e != "" && OptionAt(cfg, e, |e| - 1, Required)
    ensures ScanOf(cfg, "", [e])
            == Scan([e], [], Reports(cfg.optstring, e[1..|e| - 1]) + [NoArgument(cfg.optstring)])
  {
    assert [e] + [] == [e];
    var s := OptionMeans(cfg, e, |e| - 1, Required, []);
    var _ := CharacterStep(cfg, e[|e| - 1..], [e] + [], Required);
  }

  /** "-xc" for an optional argument: there is none, whatever follows. */
  lemma OptionalMeans(cfg: Config, e: string, rest: seq<string>)
    requires e != "" && OptionAt(cfg, e, |e| - 1, Optional)
    ensures ScanOf(cfg, "", [e] + rest)
            == Then([e], [], Reports(cfg.optstring, e[1..|e| - 1]) + [Found(e[|e| - 1] as int, None, -1)],
                    ScanOf(cfg, "", rest))
  {
    var s := OptionMeans(cfg, e, |e| - 1, Optional, rest);
    var _ := CharacterStep(cfg, e[|e| - 1..], [e] + rest, Optional);
    assert ([e] + rest)[1..] == rest && ([e] + rest)[..1] == [e];
  }

  // ---- long options ----

  /** What a name means in a table: the first entry of just that name, or the only one it
      abbreviates; of several, none. */
  predicate Names(los: seq<LongOpt>, name: string, m: Match) {
    match m
    case At(i) => i < |los| && (FirstNamed(los, name, i) || OnlyBegun(los, name, i))
    case Ambiguous => (forall k :: 0 <= k < |los| ==> los[k].name != name)
                      && exists i, j :: 0 <= i < j < |los| && name <= los[i].name && name <= los[j].name
    case NoMatch => forall k :: 0 <= k < |los| ==> !(name <= los[k].name)
  }

  predicate FirstNamed(los: seq<LongOpt>, name: string, i: nat)
    requires i < |los|
  {
    los[i].name == name && forall k :: 0 <= k < i ==> los[k].name != name
  }

  predicate OnlyBegun(los: seq<LongOpt>, name: string, i: nat)
    requires i < |los|
  {
    forall k :: 0 <= k < |los| ==> (name <= los[k].name <==> k == i)
  }

  lemma LookupNames(los: seq<LongOpt>, name: string)
    ensures Names(los, name, Lookup(los, name))
  {
    var e, p := Exact(los, name, 0), Prefix(los, name, 0);
    ExactFirst(los, name, 0);
    PrefixFirst(los, name, 0);
    if e < |los| {
      assert FirstNamed(los, name, e);
    } else if p < |los| {
      PrefixFirst(los, name, p + 1);
      if Prefix(los, name, p + 1) == |los| {
        assert OnlyBegun(los, name, p);
      }
    }
  }

  lemma NamesOnce(los: seq<LongOpt>, name: string, m: Match, m': Match)
    requires Names(los, name, m) && Names(los, name, m')
    ensures m == m'
  {
    BegunSomewhere(los, name, m);
    BegunSomewhere(los, name, m');
  }

  lemma BegunSomewhere(los: seq<LongOpt>, name: string, m: Match)
    requires Names(los, name, m)
    ensures m.At? ==> name <= los[m.index].name
    ensures m.Ambiguous? ==> forall i :: 0 <= i < |los| ==> !OnlyBegun(los, name, i)
  {
    if m.Ambiguous? {
      var i, j :| 0 <= i < j < |los| && name <= los[i].name && name <= los[j].name;
    }
  }

  /** Every name means exactly one of these in every table. */
  lemma OneMeaning(los: seq<LongOpt>, name: string) returns (m: Match)
    ensures m == Lookup(los, name)
    ensures forall m' :: Names(los, name, m') <==> m' == m
  {
    m := Lookup(los, name);
    LookupNames(los, name);
    forall m' | Names(los, name, m') ensures m' == m {
      NamesOnce(los, name, m, m');
    }
  }

  /** An element that begins a long option by two dashes, or by one if that is allowed, then
      a name, then nothing or `=` and a value. */
  predicate LongElement(cfg: Config, e: string, d: string, name: string, tail: string) {
    && cfg.longopts.Some? && IsOption(e) && e != "--" && e == d + (name + tail)
    && (d == "--" || (d == "-" && cfg.longOnly && e[1] != '-'))
    && Without(name, '=') && (tail == "" || tail[0] == '=')
  }

  lemma LongParts(cfg: Config, e: string, d: string, name: string, tail: string, rest: seq<string>) returns (nc: string)
    requires LongElement(cfg, e, d, name, tail)
    ensures nc == name + tail == Start(cfg, e) && Midway(nc, [e] + rest)
    ensures IndexOf(nc, '=', 0) == |name| && nc[..|name|] == name && nc[|name|..] == tail
    ensures ScanOf(cfg, "", [e] + rest) == ScanOf(cfg, nc, [e] + rest)
  {
    nc := name + tail;
    assert e[|d|..] == nc;
    if tail == "" {
      assert nc[0..] == name;
      NoneFrom(nc, '=', 0);
    } else {
      assert nc[0..] == name + (['='] + tail[1..]);
      FirstIs(nc, 0, name, '=', tail[1..]);
    }
  }

  /** What a long option does, by what its name means. */
  lemma LongOptionStep(cfg: Config, e: string, d: string, name: string, tail: string, rest: seq<string>, m: Match)
    returns (s: Step)
    requires LongElement(cfg, e, d, name, tail) && Names(cfg.longopts.value, name, m)
    requires m.NoMatch? && cfg.longOnly ==> d == "--" || e[1] !in cfg.optstring
    ensures s.adv <= 1 + |rest|
    ensures ScanOf(cfg, "", [e] + rest)
            == Then(([e] + rest)[..s.adv], [], [s.found], ScanOf(cfg, "", ([e] + rest)[s.adv..]))
    ensures !m.At? ==> s == Step("", 1, UNKNOWN)
    ensures m.At? ==>
              var p := cfg.longopts.value[m.index];
              var ret := if p.flag then 0 else p.val;
              && (tail != "" ==>
                    s == Step("", 1, if p.hasArg == 0 then UNKNOWN else Found(ret, Some(tail[1..]), m.index)))
              && (tail == "" && p.hasArg != 1 ==> s == Step("", 1, Found(ret, None, m.index)))
              && (tail == "" && p.hasArg == 1 && rest != [] ==> s == Step("", 2, Found(ret, Some(rest[0]), m.index)))
              && (tail == "" && p.hasArg == 1 && rest == [] ==> s == Step("", 1, NoArgument(cfg.optstring)))
  {
    var nc := LongParts(cfg, e, d, name, tail, rest);
    var m' := OneMeaning(cfg.longopts.value, name);
    s := OptionStep(cfg, nc, [e] + rest);
    if tail != "" {
      assert nc[|name| + 1..] == tail[1..];
    }
    if d == "-" {
      assert nc[0] == e[1];
    }
  }

  function Reported(p: LongOpt): int {
    if p.flag then 0 else p.val
  }

  /** "--name=value": the value belongs to the option, and is an error if it takes none. */
  lemma ValueMeans(cfg: Config, e: string, d: string, name: string, value: string, i: nat, rest: seq<string>)
    requires LongElement(cfg, e, d, name, "=" + value) && Names(cfg.longopts.value, name, At(i))
    ensures var p := cfg.longopts.value[i];
            ScanOf(cfg, "", [e] + rest)
            == Then([e], [], [if p.hasArg == 0 then UNKNOWN else Found(Reported(p), Some(value), i)],
                    ScanOf(cfg, "", rest))
  {
    var s := LongOptionStep(cfg, e, d, name, "=" + value, rest, At(i));
    assert ("=" + value)[1..] == value;
    assert ([e] + rest)[1..] == rest && ([e] + rest)[..1] == [e];
  }

  /** "--name value": the next element, whatever it is, is the argument the option requires. */
  lemma NextMeans(cfg: Config, e: string, d: string, name: string, i: nat, a: string, rest: seq<string>)
    requires LongElement(cfg, e, d, name, "") && Names(cfg.longopts.value, name, At(i))
    requires cfg.longopts.value[i].hasArg == 1
    ensures ScanOf(cfg, "", [e] + ([a] + rest))
            == Then([e, a], [], [Found(Reported(cfg.longopts.value[i]), Some(a), i)], ScanOf(cfg, "", rest))
  {
    var all := [e] + ([a] + rest);
    var s := LongOptionStep(cfg, e, d, name, "", [a] + rest, At(i));
    assert all[2..] == rest && all[..2] == [e, a];
  }

  /** "--name" at the end of the command line: the argument it requires is missing. */
  lemma LongMissingMeans(cfg: Config, e: string, d: string, name: string, i: nat)
    requires LongElement(cfg, e, d, name, "") && Names(cfg.longopts.value, name, At(i))
    requires cfg.longopts.value[i].hasArg == 1
    ensures ScanOf(cfg, "", [e]) == Scan([e], [], [NoArgument(cfg.optstring)])
  {
    assert [e] + [] == [e];
    var s := LongOptionStep(cfg, e, d, name, "", [], At(i));
  }

  /** "--name" for an option that requires no argument takes none. */
  lemma AloneMeans(cfg: Config, e: string, d: string, name: string, i: nat, rest: seq<string>)
    requires LongElement(cfg, e, d, name, "") && Names(cfg.longopts.value, name, At(i))
    requires cfg.longopts.value[i].hasArg != 1
    ensures ScanOf(cfg, "", [e] + rest)
            == Then([e], [], [Found(Reported(cfg.longopts.value[i]), None, i)], ScanOf(cfg, "", rest))
  {
    var s := LongOptionStep(cfg, e, d, name, "", rest, At(i));
    assert ([e] + rest)[1..] == rest && ([e] + rest)[..1] == [e];
  }

  /** A name that abbreviates several options, or none and is not to be read as option
      characters, is unknown, with its value if there is one. */
  lemma UnknownMeans(cfg: Config, e: string, d: string, name: string, tail: string, m: Match, rest: seq<string>)
    requires LongElement(cfg, e, d, name, tail) && Names(cfg.longopts.value, name, m) && !m.At?
    requires m.NoMatch? && cfg.longOnly ==> d == "--" || e[1] !in cfg.optstring
    ensures ScanOf(cfg, "", [e] + rest) == Then([e], [], [UNKNOWN], ScanOf(cfg, "", rest))
  {
    var s := LongOptionStep(cfg, e, d, name, tail, rest, m);
    assert ([e] + rest)[1..] == rest && ([e] + rest)[..1] == [e];
  }

  // ---- everything else ----

  /** An element without a dash, or a dash alone, is no option; after `--` nothing is. */
  lemma OthersMean(cfg: Config, e: string, rest: seq<string>)
    ensures !("-" <= e) || e == "-" ==> ScanOf(cfg, "", [e] + rest) == Then([], [e], [], ScanOf(cfg, "", rest))
    ensures e == "--" ==> ScanOf(cfg, "", [e] + rest) == Scan([e], rest, [])
    ensures ScanOf(cfg, "", []) == Scan([], [], [])
  {
    assert ([e] + rest)[1..] == rest && ([e] + rest)[0] == e;
  }
}
