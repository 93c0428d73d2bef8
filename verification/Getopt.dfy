/** Option scanning with permutation, getopt/getopt.c (`exchange`, `my_bcopy` and
    `_getopt_internal` in PERMUTE mode). */
module Getopt {
  import opened Basics

  /** `struct option`; `flag` says whether a variable is set instead of the value returned. */
  datatype LongOpt = LongOpt(name: string, hasArg: nat, flag: bool, val: int)

  datatype Config = Config(optstring: string, longopts: Option<seq<LongOpt>>, longOnly: bool)

  /** What one call reports: its return value, `optarg` if it set it, and the index of
      the long option, or -1. */
  datatype Found = Found(ret: int, arg: Option<string>, index: int)

  /** One option: the rest of its element still to be read, how many elements it used up
      and what is reported. */
  datatype Step = Step(nc: string, adv: nat, found: Found)

  const UNKNOWN := Found('?' as int, None, -1)

  // ---- one option ----

  function Exact(los: seq<LongOpt>, name: string, at: nat): (i: nat)
    requires at <= |los|
    ensures at <= i <= |los|
    decreases |los| - at
  {
    if at == |los| || los[at].name == name then at else Exact(los, name, at + 1)
  }

  function Prefix(los: seq<LongOpt>, name: string, at: nat): (i: nat)
    requires at <= |los|
    ensures at <= i <= |los|
    decreases |los| - at
  {
    if at == |los| || name <= los[at].name then at else Prefix(los, name, at + 1)
  }

  datatype Match = NoMatch | Ambiguous | At(index: nat)

  /** An exact name wins; otherwise the one name it abbreviates. */
  function Lookup(los: seq<LongOpt>, name: string): (m: Match)
    ensures m.At? ==> m.index < |los|
  {
    var e, p := Exact(los, name, 0), Prefix(los, name, 0);
    if e < |los| then At(e)
    else if p == |los| then NoMatch
    else if Prefix(los, name, p + 1) < |los| then Ambiguous
    else At(p)
  }

  function Missing(optstring: string): Found {
    Found(if optstring != "" && optstring[0] == ':' then ':' as int else '?' as int, None, -1)
  }

  /** The option element being read and what follows it. */
  predicate Midway(nc: string, rest: seq<string>) {
    rest != [] && |rest[0]| >= 2 && rest[0][0] == '-' && 0 < |nc| < |rest[0]|
  }

  /** The long-option part; None when it falls through to the short options. */
  function LongStep(cfg: Config, nc: string, rest: seq<string>): (s: Option<Step>)
    requires Midway(nc, rest) && cfg.longopts.Some?
    ensures s.Some? ==> s.value.nc == "" && 1 <= s.value.adv <= |rest|
  {
    var eq := IndexOf(nc, '=', 0);
    match Lookup(cfg.longopts.value, nc[..eq])
    case Ambiguous => Some(Step("", 1, UNKNOWN))
    case At(i) =>
      var p := cfg.longopts.value[i];
      var ret := if p.flag then 0 else p.val;
      if eq < |nc| then
        Some(Step("", 1, if p.hasArg != 0 then Found(ret, Some(nc[eq + 1..]), i) else UNKNOWN))
      else if p.hasArg == 1 then
        if |rest| > 1 then Some(Step("", 2, Found(ret, Some(rest[1]), i)))
        else Some(Step("", 1, Missing(cfg.optstring)))
      else Some(Step("", 1, Found(ret, None, i)))
    case NoMatch =>
      if !cfg.longOnly || rest[0][1] == '-' || nc[0] !in cfg.optstring then Some(Step("", 1, UNKNOWN)) else None
  }

  function ShortStep(cfg: Config, nc: string, rest: seq<string>): (s: Step)
    requires Midway(nc, rest)
    ensures s.adv <= |rest| && if s.adv == 0 then s.nc == nc[1..] != "" else s.nc == ""
  {
    var c, more := nc[0], nc[1..];
    var at := IndexOf(cfg.optstring, c, 0);
    var adv := if more == "" then 1 else 0;
    if at == |cfg.optstring| || c == ':' then Step(more, adv, UNKNOWN)
    else if CharAt(cfg.optstring, at + 1) != ':' then Step(more, adv, Found(c as int, None, -1))
    else if more != "" then Step("", 1, Found(c as int, Some(more), -1))
    else if CharAt(cfg.optstring, at + 2) == ':' then Step("", 1, Found(c as int, None, -1))
    else if |rest| == 1 then Step("", 1, Missing(cfg.optstring))
    else Step("", 2, Found(c as int, Some(rest[1]), -1))
  }

  function OptionStep(cfg: Config, nc: string, rest: seq<string>): (s: Step)
    requires Midway(nc, rest)
    ensures s.adv <= |rest| && if s.adv == 0 then s.nc == nc[1..] != "" else s.nc == ""
  {
    if cfg.longopts.Some? && (rest[0][1] == '-' || cfg.longOnly) then
      var l := LongStep(cfg, nc, rest);
      if l.Some? then l.value else ShortStep(cfg, nc, rest)
    else ShortStep(cfg, nc, rest)
  }

  // ---- the whole command line ----

  predicate IsOption(e: string) {
    |e| >= 2 && e[0] == '-'
  }

  /** Where reading an option element starts. */
  function Start(cfg: Config, e: string): (nc: string)
    requires IsOption(e) && e != "--"
    ensures 0 < |nc| < |e|
  {
    if cfg.longopts.Some? && e[1] == '-' then e[2..] else e[1..]
  }

  /** Options with their arguments and `--`, the other elements, and what is reported. */
  datatype Scan = Scan(opts: seq<string>, nonopts: seq<string>, found: seq<Found>)

  function Then(opts: seq<string>, nonopts: seq<string>, found: seq<Found>, s: Scan): Scan {
    Scan(opts + s.opts, nonopts + s.nonopts, found + s.found)
  }

  /** Reading the command line from left to right without moving anything; `nc` is the
      unread rest of an element being read, or empty. */
  function ScanOf(cfg: Config, nc: string, rest: seq<string>): Scan
    requires nc == "" || Midway(nc, rest)
    decreases |rest|, if nc == "" && rest != [] then |rest[0]| else |nc|
  {
    if nc != "" then
      var s := OptionStep(cfg, nc, rest);
      Then(rest[..s.adv], [], [s.found], ScanOf(cfg, s.nc, rest[s.adv..]))
    else if rest == [] then Scan([], [], [])
    else if rest[0] == "--" then Scan([rest[0]], rest[1..], [])
    else if !IsOption(rest[0]) then Then([], [rest[0]], [], ScanOf(cfg, "", rest[1..]))
    else ScanOf(cfg, Start(cfg, rest[0]), rest)
  }

  lemma ThenThen(o: seq<string>, n: seq<string>, f: seq<Found>,
                 o': seq<string>, n': seq<string>, f': seq<Found>, s: Scan)
    ensures Then(o, n, f, Then(o', n', f', s)) == Then(o + o', n + n', f + f', s)
  {
  }

  lemma PassNonoption(cfg: Config, rest: seq<string>, o: seq<string>, n: seq<string>, f: seq<Found>)
    requires rest != [] && !IsOption(rest[0])
    ensures Then(o, n, f, ScanOf(cfg, "", rest)) == Then(o, n + [rest[0]], f, ScanOf(cfg, "", rest[1..]))
  {
    ThenThen(o, n, f, [], [rest[0]], [], ScanOf(cfg, "", rest[1..]));
    assert o + [] == o && f + [] == f;
  }

  lemma ThenNothing(s: Scan)
    ensures Then([], [], [], s) == s
  {
  }

  lemma PassOption(cfg: Config, nc: string, rest: seq<string>, o: seq<string>, n: seq<string>, f: seq<Found>)
    returns (s: Step)
    requires nc != "" && Midway(nc, rest)
    ensures s == OptionStep(cfg, nc, rest) && s.adv <= |rest| && (s.nc == "" || Midway(s.nc, rest[s.adv..]))
    ensures Then(o, n, f, ScanOf(cfg, nc, rest))
            == Then(o + rest[..s.adv], n, f + [s.found], ScanOf(cfg, s.nc, rest[s.adv..]))
  {
    s := OptionStep(cfg, nc, rest);
    ThenThen(o, n, f, rest[..s.adv], [], [s.found], ScanOf(cfg, s.nc, rest[s.adv..]));
    assert n + [] == n;
  }

  /** What was met in `s` up to `o`: options in [1, f) and [l, o), the others in [f, l), and
      the unread rest completes the scan. */
  ghost predicate Met(cfg: Config, whole: Scan, s: seq<string>, f: nat, l: nat, o: nat, nc: string,
                      opts: seq<string>, nonopts: seq<string>, found: seq<Found>)
  {
    && 1 <= f <= l <= o <= |s| && opts == s[1..f] + s[l..o] && nonopts == s[f..l]
    && (nc == "" || Midway(nc, s[o..]))
    && whole == Then(opts, nonopts, found, ScanOf(cfg, nc, s[o..]))
  }

  lemma ReadOption(cfg: Config, whole: Scan, s: seq<string>, f: nat, l: nat, o: nat, nc: string,
                   opts: seq<string>, nonopts: seq<string>, found: seq<Found>) returns (p: Step)
    requires nc != "" && Met(cfg, whole, s, f, l, o, nc, opts, nonopts, found)
    ensures Midway(nc, s[o..]) && p == OptionStep(cfg, nc, s[o..]) && o + p.adv <= |s|
    ensures Met(cfg, whole, s, f, l, o + p.adv, p.nc, opts + s[o..o + p.adv], nonopts, found + [p.found])
  {
    p := PassOption(cfg, nc, s[o..], opts, nonopts, found);
    Extends(s, f, l, o, o + p.adv);
  }

  lemma Extends<T>(s: seq<T>, f: nat, l: nat, o: nat, e: nat)
    requires 1 <= f <= l <= o <= e <= |s|
    ensures s[o..][e - o..] == s[e..] && s[o..][..e - o] == s[o..e]
    ensures (s[1..f] + s[l..o]) + s[o..e] == s[1..f] + s[l..e]
  {
    assert s[l..e] == s[l..o] + s[o..e];
  }

  /** `--` has been read from `s`, whose options are in [1, f), and joins them. */
  lemma ReadDashes(cfg: Config, s: seq<string>, f: nat, o: nat, found: seq<Found>) returns (r: seq<string>)
    requires 1 <= f <= o < |s| && s[o] == "--"
    ensures r == Swapped(s, f, o, o + 1) && r[0] == s[0]
    ensures Then(s[1..f], s[f..o], found, ScanOf(cfg, "", s[o..])) == Scan(r[1..f + 1], r[f + 1..], found)
  {
    r := SwappedParts(s, f, o, o + 1);
    assert s[o..] == ["--"] + s[o + 1..] && s[o..o + 1] == ["--"];
    assert found + [] == found;
  }

  /** Nothing is lost or reordered within its kind: the two parts are an interleaving. */
  predicate Interleaves<T(==)>(a: seq<T>, b: seq<T>, c: seq<T>) {
    |c| == |a| + |b|
    && (c == [] || (a != [] && c[0] == a[0] && Interleaves(a[1..], b, c[1..]))
               || (b != [] && c[0] == b[0] && Interleaves(a, b[1..], c[1..])))
  }

  lemma {:induction false} InterleavesFront<T>(p: seq<T>, a: seq<T>, b: seq<T>, c: seq<T>)
    requires Interleaves(a, b, c)
    ensures Interleaves(p + a, b, p + c)
    decreases |p|
  {
    if p == [] {
      assert p + a == a && p + c == c;
    } else {
      InterleavesFront(p[1..], a, b, c);
      assert (p + a)[1..] == p[1..] + a && (p + c)[1..] == p[1..] + c;
    }
  }

  lemma {:induction false} InterleavesRight<T>(a: seq<T>, b: seq<T>, c: seq<T>)
    ensures b == c ==> Interleaves([], b, c)
    decreases |c|
  {
    if c != [] && b == c {
      InterleavesRight(a, b[1..], c[1..]);
    }
  }

  /** The scan is a stable partition of the command line. */
  lemma {:induction false} ScanIsPartition(cfg: Config, nc: string, rest: seq<string>)
    requires nc == "" || Midway(nc, rest)
    ensures var s := ScanOf(cfg, nc, rest); Interleaves(s.opts, s.nonopts, rest)
    decreases |rest|, if nc == "" && rest != [] then |rest[0]| else |nc|
  {
    if nc != "" {
      var s := OptionStep(cfg, nc, rest);
      ScanIsPartition(cfg, s.nc, rest[s.adv..]);
      var t := ScanOf(cfg, s.nc, rest[s.adv..]);
      InterleavesFront(rest[..s.adv], t.opts, t.nonopts, rest[s.adv..]);
      assert rest[..s.adv] + rest[s.adv..] == rest;
      assert [] + t.nonopts == t.nonopts;
    } else if rest != [] {
      if rest[0] == "--" {
        InterleavesRight([], rest[1..], rest[1..]);
        assert [rest[0]][1..] == [];
      } else if !IsOption(rest[0]) {
        ScanIsPartition(cfg, "", rest[1..]);
        var t := ScanOf(cfg, "", rest[1..]);
        assert ([rest[0]] + t.nonopts)[1..] == t.nonopts;
        assert [] + t.opts == t.opts;
      } else {
        ScanIsPartition(cfg, Start(cfg, rest[0]), rest);
      }
    }
  }

  // ---- the code ----

  /** The search loop over the long options. */
  method FindLong(los: seq<LongOpt>, name: string) returns (m: Match)
    ensures m == Lookup(los, name)
  {
    var pfound, ambig := |los|, false;
    var i := 0;
    while i < |los|
      invariant 0 <= i <= |los| && Exact(los, name, 0) == Exact(los, name, i)
      invariant if pfound == |los| then !ambig && Prefix(los, name, 0) == Prefix(los, name, i)
                else pfound < i && Prefix(los, name, 0) == pfound
                     && if ambig then Prefix(los, name, pfound + 1) < |los|
                        else Prefix(los, name, pfound + 1) == Prefix(los, name, i)
    {
      if name <= los[i].name {
        if |name| == |los[i].name| {
          assert name == los[i].name;
          return At(i);
        } else if pfound == |los| {
          pfound := i;
        } else {
          ambig := true;
        }
      }
      i := i + 1;
    }
    m := if pfound == |los| then NoMatch else if ambig then Ambiguous else At(pfound);
  }

  /** `my_index` */
  method MyIndex(s: string, c: char) returns (i: nat)
    ensures i == IndexOf(s, c, 0)
  {
    i := 0;
    while i < |s| && s[i] != c
      invariant i <= |s| && IndexOf(s, c, i) == IndexOf(s, c, 0)
    {
      i := i + 1;
    }
  }

  lemma NotIndexed(s: string, c: char, at: nat)
    requires at <= |s|
    ensures IndexOf(s, c, at) == |s| <==> c !in s[at..]
    decreases |s| - at
  {
    if at < |s| {
      NotIndexed(s, c, at + 1);
      assert s[at..] == [s[at]] + s[at + 1..];
    }
  }

  function Splice<T>(s: seq<T>, at: nat, block: seq<T>): (r: seq<T>)
    requires at + |block| <= |s|
    ensures |r| == |s|
  {
    s[..at] + block + s[at + |block|..]
  }

  lemma SpliceWhole<T>(s: seq<T>, block: seq<T>)
    requires |s| == |block|
    ensures Splice(s, 0, block) == block
  {
  }

  /** `my_bcopy`, element by element from the front; the blocks may overlap when the
      target comes first. */
  method Copy(from: array<string>, i: nat, e: nat, to: array<string>, j: nat)
    requires i <= e <= from.Length && j + (e - i) <= to.Length && (from == to ==> j <= i)
    modifies to
    ensures to[..] == Splice(old(to[..]), j, old(from[..])[i..e])
  {
    ghost var was, block := to[..], from[..][i..e];
    var k := 0;
    while k < e - i
      invariant 0 <= k <= e - i
      invariant forall x {:trigger to[x]} :: j <= x < j + k ==> to[x] == block[x - j]
      invariant forall x {:trigger to[x]} :: 0 <= x < to.Length && !(j <= x < j + k) ==> to[x] == was[x]
      invariant forall x {:trigger from[x]} :: i + k <= x < e ==> from[x] == block[x - i]
    {
      to[j + k] := from[i + k];
      k := k + 1;
    }
    IsSplice(to[..], was, j, block);
  }

  lemma IsSplice<T>(r: seq<T>, s: seq<T>, at: nat, block: seq<T>)
    requires |r| == |s| && at + |block| <= |s|
    requires forall x {:trigger r[x]} :: 0 <= x < |s| ==> r[x] == if at <= x < at + |block| then block[x - at] else s[x]
    ensures r == Splice(s, at, block)
  {
  }

  /** The blocks [f, l) and [l, o) in each other's place. */
  function Swapped<T>(s: seq<T>, f: nat, l: nat, o: nat): (r: seq<T>)
    requires f <= l <= o <= |s|
    ensures |r| == |s|
  {
    s[..f] + s[l..o] + s[f..l] + s[o..]
  }

  lemma SplicesSwap<T>(s: seq<T>, f: nat, l: nat, o: nat, mid: seq<T>, block: seq<T>)
    requires f <= l <= o <= |s| && mid == Splice(s, f, s[l..o]) && block == s[f..l]
    ensures Splice(mid, f + (o - l), block) == Swapped(s, f, l, o)
  {
  }

  lemma SwappedParts<T>(s: seq<T>, f: nat, l: nat, o: nat) returns (r: seq<T>)
    requires 1 <= f <= l <= o <= |s|
    ensures r == Swapped(s, f, l, o) && r[0] == s[0]
    ensures r[1..f + (o - l)] == s[1..f] + s[l..o]
    ensures r[f + (o - l)..o] == s[f..l] && r[o..] == s[o..]
    ensures r[f + (o - l)..] == s[f..l] + s[o..]
  {
    r := Swapped(s, f, l, o);
  }

  /** The three copies of `exchange`. */
  method SwapBlocks(a: array<string>, f: nat, l: nat, o: nat)
    requires f <= l <= o <= a.Length
    modifies a
    ensures a[..] == Swapped(old(a[..]), f, l, o)
  {
    ghost var s := a[..];
    var temp := CopyOut(a, f, l);
    assert a[..] == s;
    Copy(a, l, o, a, f);
    PutBack(a, temp, f, l, o, s);
  }

  /** The last of the three. */
  method PutBack(a: array<string>, temp: array<string>, f: nat, l: nat, o: nat, ghost s: seq<string>)
    requires f <= l <= o <= a.Length == |s| && a != temp && temp.Length == l - f
    requires temp[..][0..l - f] == s[f..l] && a[..] == Splice(s, f, s[l..o])
    modifies a
    ensures a[..] == Swapped(s, f, l, o)
  {
    SplicesSwap(s, f, l, o, a[..], temp[..][0..l - f]);
    Copy(temp, 0, l - f, a, f + (o - l));
  }

  method CopyOut(a: array<string>, f: nat, l: nat) returns (temp: array<string>)
    requires f <= l <= a.Length
    ensures fresh(temp) && temp.Length == l - f && temp[..][0..l - f] == a[..][f..l]
  {
    temp := new string[l - f](_ => "");
    ghost var t := temp[..];
    Copy(a, f, l, temp, 0);
    SpliceWhole(t, a[..][f..l]);
    assert temp[..][0..l - f] == temp[..];
  }

  class Scanner {
    const cfg: Config
    const argv: array<string>
    var optind: nat
    var firstNonopt: nat
    var lastNonopt: nat
    var nextchar: string
    ghost const Args: seq<string>
    ghost const Whole: Scan
    ghost var Opts: seq<string>
    ghost var Nonopts: seq<string>
    ghost var Reported: seq<Found>

    ghost predicate InRange()
      reads this
    {
      argv.Length == |Args| > 0 && 1 <= firstNonopt <= lastNonopt <= optind <= argv.Length
    }

    /** The elements already passed are the options and non-options met so far, and the
        unread ones are untouched and complete the scan. */
    ghost predicate Valid()
      reads this, argv
    {
      && InRange()
      && argv[0] == Args[0]
      && Met(cfg, Whole, argv[..], firstNonopt, lastNonopt, optind, nextchar, Opts, Nonopts, Reported)
    }

    /** At the end: program name, options, then the rest, which `optind` points at. */
    ghost predicate Done()
      reads this, argv
    {
      && Args != []
      && argv[..] == [Args[0]] + Whole.opts + Whole.nonopts
      && optind == 1 + |Whole.opts|
      && Reported == Whole.found
    }

    /** The state after the first call has set it up. */
    constructor (cfg: Config, argv: array<string>)
      requires argv.Length > 0
      ensures Valid() && this.cfg == cfg && this.argv == argv && Reported == []
      ensures Args == argv[..] && Whole == ScanOf(cfg, "", argv[1..])
    {
      this.cfg, this.argv := cfg, argv;
      optind, firstNonopt, lastNonopt, nextchar := 1, 1, 1, "";
      Args, Opts, Nonopts, Reported := argv[..], [], [], [];
      Whole := ScanOf(cfg, "", argv[1..]);
      ThenNothing(ScanOf(cfg, "", argv[1..]));
    }

    /** `exchange`: the two neighbouring blocks swap places. */
    method Exchange()
      requires 0 <= firstNonopt <= lastNonopt <= optind <= argv.Length
      modifies this`firstNonopt, this`lastNonopt, argv
      ensures firstNonopt == old(firstNonopt) + (optind - old(lastNonopt)) && lastNonopt == optind
      ensures argv[..] == Swapped(old(argv[..]), old(firstNonopt), old(lastNonopt), optind)
    {
      SwapBlocks(argv, firstNonopt, lastNonopt, optind);
      firstNonopt := firstNonopt + (optind - lastNonopt);
      lastNonopt := optind;
    }

    // ---- between options ----

    /** Valid with all options in front of all non-options. */
    ghost predicate Settled()
      reads this, argv
    {
      && argv.Length == |Args| > 0 && 1 <= firstNonopt <= optind <= argv.Length
      && argv[0] == Args[0] && nextchar == ""
      && Opts == argv[1..firstNonopt] && Nonopts == argv[firstNonopt..optind]
      && Whole == Then(Opts, Nonopts, Reported, ScanOf(cfg, "", argv[optind..]))
    }

    /** Options found since the last non-options are moved in front of them. */
    method Gather()
      requires Valid() && nextchar == ""
      modifies this`firstNonopt, this`lastNonopt, argv
      ensures Settled()
    {
      if firstNonopt != lastNonopt && lastNonopt != optind {
        ghost var r := SwappedParts(argv[..], firstNonopt, lastNonopt, optind);
        Exchange();
        assert argv[..] == r;
      } else if lastNonopt != optind {
        firstNonopt := optind;
      }
    }

    /** Non-options are passed over. */
    method SkipNonoptions()
      requires Settled()
      modifies this`optind, this`lastNonopt, this`Nonopts
      ensures Settled() && lastNonopt == optind
      ensures optind < argv.Length ==> IsOption(argv[optind])
    {
      while optind < argv.Length && !IsOption(argv[optind])
        invariant Settled()
        decreases argv.Length - optind
      {
        SkipOne();
      }
      lastNonopt := optind;
    }

    method SkipOne()
      requires Settled() && optind < argv.Length && !IsOption(argv[optind])
      modifies this`optind, this`Nonopts
      ensures Settled() && optind == old(optind) + 1
    {
      ghost var rest, e := argv[optind..], argv[optind];
      PassNonoption(cfg, rest, Opts, Nonopts, Reported);
      assert rest[1..] == argv[optind + 1..];
      Nonopts := Nonopts + [e];
      optind := optind + 1;
    }

    /** `--`: it joins the options and everything after it is a non-option. */
    method EndOfOptions()
      requires Settled() && lastNonopt == optind < argv.Length && argv[optind] == "--"
      modifies this`optind, this`firstNonopt, this`lastNonopt, argv
      ensures Scanned()
    {
      ghost var r := ReadDashes(cfg, argv[..], firstNonopt, optind, Reported);
      optind := optind + 1;
      MoveDashes();
      lastNonopt := argv.Length;
      optind := argv.Length;
    }

    /** The `--` just read goes in front of the non-options. */
    method MoveDashes()
      requires firstNonopt <= lastNonopt == optind - 1 < argv.Length
      modifies this`firstNonopt, this`lastNonopt, argv
      ensures firstNonopt == old(firstNonopt) + 1
      ensures argv[..] == Swapped(old(argv[..]), old(firstNonopt), optind - 1, optind)
    {
      if firstNonopt != lastNonopt && lastNonopt != optind {
        Exchange();
      } else if firstNonopt == lastNonopt {
        firstNonopt := optind;
      }
    }

    /** Everything has been read and put in its place. */
    ghost predicate Scanned()
      reads this, argv
    {
      && argv.Length == |Args| > 0 && 1 <= firstNonopt <= lastNonopt == optind == argv.Length
      && argv[0] == Args[0]
      && argv[1..firstNonopt] == Whole.opts && argv[firstNonopt..] == Whole.nonopts
      && Reported == Whole.found
    }

    /** The part of a call that looks for the next option; true at the end of all. */
    method Advance() returns (eof: bool)
      requires Valid() && nextchar == ""
      modifies this`optind, this`firstNonopt, this`lastNonopt, this`nextchar, this`Nonopts, argv
      ensures if eof then Done() else Valid() && nextchar != ""
    {
      Gather();
      SkipNonoptions();
      if optind != argv.Length && argv[optind] == "--" {
        EndOfOptions();
      }
      if optind == argv.Length {
        PointAtNonoptions();
        return true;
      }
      nextchar := Start(cfg, argv[optind]);
      return false;
    }

    method PointAtNonoptions()
      requires Scanned() || (Settled() && lastNonopt == optind == argv.Length)
      modifies this`optind
      ensures Done()
    {
      AllRead();
      if firstNonopt != lastNonopt {
        optind := firstNonopt;
      }
    }

    lemma AllRead()
      requires Scanned() || (Settled() && lastNonopt == optind == argv.Length)
      ensures Scanned()
      ensures argv[..] == [Args[0]] + Whole.opts + Whole.nonopts
      ensures firstNonopt == 1 + |Whole.opts|
    {
    }

    // ---- one option ----

    /** The long-option part of a call; None when it falls through. */
    method TakeLong() returns (r: Option<Found>)
      requires optind < argv.Length && Midway(nextchar, argv[optind..]) && cfg.longopts.Some?
      modifies this`optind, this`nextchar
      ensures var l := LongStep(cfg, old(nextchar), argv[old(optind)..]);
              if l.None? then r.None? && nextchar == old(nextchar) && optind == old(optind)
              else r == Some(l.value.found) && nextchar == l.value.nc && optind == old(optind) + l.value.adv
    {
      var element := argv[optind];
      var s := MyIndex(nextchar, '=');
      var m := FindLong(cfg.longopts.value, nextchar[..s]);
      if m.Ambiguous? {
        nextchar, optind := "", optind + 1;
        return Some(UNKNOWN);
      }
      if m.At? {
        var p := cfg.longopts.value[m.index];
        var optarg := None;
        optind := optind + 1;
        if s < |nextchar| {
          if p.hasArg == 0 {
            nextchar := "";
            return Some(UNKNOWN);
          }
          optarg := Some(nextchar[s + 1..]);
        } else if p.hasArg == 1 {
          if optind == argv.Length {
            nextchar := "";
            return Some(Missing(cfg.optstring));
          }
          optarg := Some(argv[optind]);
          optind := optind + 1;
        }
        nextchar := "";
        return Some(Found(if p.flag then 0 else p.val, optarg, m.index));
      }
      var at := MyIndex(cfg.optstring, nextchar[0]);
      NotIndexed(cfg.optstring, nextchar[0], 0);
      if !cfg.longOnly || element[1] == '-' || at == |cfg.optstring| {
        nextchar, optind := "", optind + 1;
        return Some(UNKNOWN);
      }
      return None;
    }

    /** The part of a call that handles a single option character. */
    method TakeShort() returns (r: Found)
      requires optind < argv.Length && Midway(nextchar, argv[optind..])
      modifies this`optind, this`nextchar
      ensures var s := ShortStep(cfg, old(nextchar), argv[old(optind)..]);
              r == s.found && nextchar == s.nc && optind == old(optind) + s.adv
    {
      var c := nextchar[0];
      nextchar := nextchar[1..];
      var temp := MyIndex(cfg.optstring, c);
      if nextchar == "" {
        optind := optind + 1;
      }
      if temp == |cfg.optstring| || c == ':' {
        return UNKNOWN;
      }
      var optarg := None;
      if CharAt(cfg.optstring, temp + 1) == ':' {
        if nextchar != "" {
          optarg := Some(nextchar);
          optind := optind + 1;
        } else if CharAt(cfg.optstring, temp + 2) != ':' {
          if optind == argv.Length {
            return Missing(cfg.optstring);
          }
          optarg := Some(argv[optind]);
          optind := optind + 1;
        }
        nextchar := "";
      }
      return Found(c as int, optarg, -1);
    }

    method TakeEither(ghost rest: seq<string>, ghost p: Step) returns (r: Found)
      requires optind < argv.Length && rest == argv[..][optind..] && Midway(nextchar, rest)
      requires p == OptionStep(cfg, nextchar, rest)
      modifies this`optind, this`nextchar
      ensures r == p.found && nextchar == p.nc && optind == old(optind) + p.adv
    {
      assert rest == argv[optind..];
      var long := None;
      if cfg.longopts.Some? && (argv[optind][1] == '-' || cfg.longOnly) {
        long := TakeLong();
      }
      if long.Some? {
        r := long.value;
      } else {
        r := TakeShort();
      }
    }

    method TakeOption() returns (r: Found)
      requires Valid() && nextchar != ""
      modifies this`optind, this`nextchar, this`Opts, this`Reported
      ensures Valid() && Reported == old(Reported) + [r]
    {
      ghost var s, f, l, o, nonopts := argv[..], firstNonopt, lastNonopt, optind, Nonopts;
      ghost var p := ReadOption(cfg, Whole, s, f, l, o, nextchar, Opts, nonopts, Reported);
      r := TakeEither(s[o..], p);
      Record(s, f, l, o, p, nonopts);
    }

    ghost method Record(s: seq<string>, f: nat, l: nat, o: nat, p: Step, nonopts: seq<string>)
      requires InRange() && argv[0] == Args[0] && s == argv[..] && o <= optind
      requires f == firstNonopt && l == lastNonopt && o + p.adv == optind && p.nc == nextchar && nonopts == Nonopts
      requires Met(cfg, Whole, s, f, l, o + p.adv, p.nc, Opts + s[o..o + p.adv], nonopts, Reported + [p.found])
      modifies this`Opts, this`Reported
      ensures Valid() && Reported == old(Reported) + [p.found]
    {
      ghost var opts, found := Opts + s[o..o + p.adv], Reported + [p.found];
      Opts, Reported := opts, found;
      IsValid(s, f, l, o + p.adv, p.nc, opts, nonopts, found);
    }

    /** The state, given by its parts. */
    lemma IsValid(s: seq<string>, f: nat, l: nat, o: nat, nc: string,
                  opts: seq<string>, nonopts: seq<string>, found: seq<Found>)
      requires InRange() && argv[0] == Args[0] && s == argv[..]
      requires f == firstNonopt && l == lastNonopt && o == optind && nc == nextchar
      requires opts == Opts && nonopts == Nonopts && found == Reported
      requires Met(cfg, Whole, s, f, l, o, nc, opts, nonopts, found)
      ensures Valid()
    {
    }

    /** `_getopt_internal`: None is EOF. */
    method Next() returns (r: Option<Found>)
      requires Valid()
      modifies this, argv
      ensures if r.None? then Done() && Reported == old(Reported)
              else Valid() && Reported == old(Reported) + [r.value]
    {
      if nextchar == "" {
        var eof := Advance();
        if eof {
          return None;
        }
      }
      var f := TakeOption();
      return Some(f);
    }
  }

  /** The loop of a program that calls until EOF. */
  method CallAll(scan: Scanner) returns (found: seq<Found>)
    requires scan.Valid() && scan.Reported == []
    modifies scan, scan.argv
    ensures scan.Done() && found == scan.Whole.found
  {
    found := [];
    var more := true;
    while more
      invariant if more then scan.Valid() && found == scan.Reported else scan.Done() && found == scan.Whole.found
      decreases more, |scan.Whole.found| - |found|
    {
      var r := scan.Next();
      more := r.Some?;
      if more {
        found := found + [r.value];
        assert |found| <= |scan.Whole.found|;
      }
    }
  }

  /** Calling until EOF: whatever is permuted on the way, the calls report what reading
      the original command line would, `argv` ends up as its stable partition and
      `optind` at the first non-option. */
  method ParseAll(cfg: Config, argv: array<string>) returns (found: seq<Found>, optind: nat)
    requires argv.Length > 0
    modifies argv
    ensures var s := ScanOf(cfg, "", old(argv[1..]));
            && found == s.found
            && argv[..] == [old(argv[0])] + s.opts + s.nonopts
            && optind == 1 + |s.opts|
            && Interleaves(s.opts, s.nonopts, old(argv[1..]))
  {
    ScanIsPartition(cfg, "", argv[1..]);
    var scan := new Scanner(cfg, argv);
    found := CallAll(scan);
    optind := scan.optind;
  }
}
