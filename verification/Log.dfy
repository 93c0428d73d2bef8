/** The rolling log file of src/irc_log.c (`_log_read`, `_logfile_write`). */
module Log {
  import opened Basics
  import opened Seqs

  const BUFF := 512

  predicate IsBlank(c: char) {
    c == ' ' || c == '\t' || c == '\r' || c == '\n'
  }

  /** How much of the first n characters is left without trailing blanks. */
  function TrimLen(s: string, n: nat): (r: nat)
    requires n <= |s|
    ensures r <= n && (r > 0 ==> !IsBlank(s[r - 1]))
  {
    if n > 0 && IsBlank(s[n - 1]) then TrimLen(s, n - 1) else n
  }

  /** The text without its trailing blanks. */
  function Trim(s: string): string {
    s[..TrimLen(s, |s|)]
  }

  function TrimAll(ls: seq<string>): (r: seq<string>)
    ensures |r| == |ls|
  {
    seq(|ls|, i requires 0 <= i < |ls| => Trim(ls[i]))
  }

  lemma {:induction false} TrimLenShared(s: string, t: string, n: nat)
    requires n <= |s| && n <= |t| && forall i :: 0 <= i < n ==> s[i] == t[i]
    ensures TrimLen(s, n) == TrimLen(t, n)
  {
    if n > 0 {
      TrimLenShared(s, t, n - 1);
    }
  }

  lemma TrimTwice(s: string)
    ensures Trim(Trim(s)) == Trim(s)
  {
  }

  lemma TrimNewline(s: string)
    ensures Trim(s + "\n") == Trim(s)
  {
    TrimLenShared(s + "\n", s, |s|);
  }

  lemma BlankGoes(s: string, t: string, c: char)
    requires s == t + [c] && IsBlank(c)
    ensures Trim(s) == Trim(t)
  {
    TrimLenShared(s, t, |t|);
  }

  /** Exactly the blanks at the end go: spaces, tabs, carriage returns and newlines. */
  lemma {:induction false} TrimIs(s: string, blanks: string)
    requires forall i :: 0 <= i < |blanks| ==> blanks[i] in " \t\r\n"
    requires s == "" || s[|s| - 1] !in " \t\r\n"
    ensures Trim(s + blanks) == s
    decreases |blanks|
  {
    var n := |blanks|;
    if n == 0 {
      assert s + blanks == s;
    } else {
      TrimIs(s, blanks[..n - 1]);
      BlankGoes(s + blanks, s + blanks[..n - 1], blanks[n - 1]);
    }
  }

  predicate OneLine(s: string) {
    Without(s, '\n')
  }

  predicate AllOneLine(ls: seq<string>) {
    forall i :: 0 <= i < |ls| ==> OneLine(ls[i])
  }

  /** The file that holds these lines. */
  function Unlines(ls: seq<string>): string {
    if ls == [] then "" else ls[0] + "\n" + Unlines(ls[1..])
  }

  lemma {:induction false} UnlinesConcat(a: seq<string>, b: seq<string>)
    ensures Unlines(a + b) == Unlines(a) + Unlines(b)
  {
    if a == [] {
      assert a + b == b;
    } else {
      UnlinesConcat(a[1..], b);
      assert (a + b)[0] == a[0] && (a + b)[1..] == a[1..] + b;
      Associative(a[0] + "\n", Unlines(a[1..]), Unlines(b));
    }
  }

  lemma UnlinesSnoc(a: seq<string>, l: string)
    ensures Unlines(a + [l]) == Unlines(a) + (l + "\n")
  {
    UnlinesConcat(a, [l]);
    assert [l][1..] == [];
    assert Unlines([l]) == l + "\n";
  }

  // ---- reading a line from 511-byte pieces ----

  /** What `fgets` with a buffer of this size delivers from `at`. */
  function ChunkEnd(s: string, at: nat): (e: nat)
    requires at < |s|
    ensures at < e <= |s|
  {
    var nl := IndexOf(s, '\n', at);
    if nl < |s| && nl + 1 <= at + BUFF - 1 then nl + 1
    else if at + BUFF - 1 <= |s| then at + BUFF - 1
    else |s|
  }

  /** A piece read inside a line stays inside it or ends with its newline. */
  lemma ChunkInLine(s: string, from: nat, e: nat, was: nat, text: string) returns (pos: nat)
    requires from <= was < |s| && was <= e && e == IndexOf(s, '\n', from) && text == s[from..was]
    ensures pos == ChunkEnd(s, was) && was < pos <= |s| && text + s[was..pos] == s[from..pos]
    ensures if s[pos - 1] == '\n' then pos == e + 1 else pos <= e
  {
    IndexFrom(s, '\n', from, was);
    NoneBefore(s, '\n', was);
    pos := ChunkEnd(s, was);
  }

  lemma LastOf(s: string, from: nat, pos: nat, text: string)
    requires from < pos <= |s| && text == s[from..pos]
    ensures text != "" && text[|text| - 1] == s[pos - 1]
  {
  }

  /** The loop of `_log_read` that takes the blanks off a line. */
  method DropBlanks(text: string) returns (line: string)
    ensures line == Trim(text)
  {
    var n := |text|;
    while n > 0 && IsBlank(text[n - 1])
      invariant 0 <= n <= |text| && TrimLen(text, n) == TrimLen(text, |text|)
    {
      n := n - 1;
    }
    return text[..n];
  }

  class LogFile {
    var open: bool
    var file: string
    var pos: nat
    var nlines: nat
    var maxlines: nat
    ghost var Lines: seq<string>

    ghost predicate Valid()
      reads this
    {
      && pos <= |file|
      && AllOneLine(Lines) && file == Unlines(Lines) && nlines == |Lines|
      && (maxlines != 0 ==> nlines <= maxlines)
    }

    constructor (maxlines: nat)
      ensures Valid() && open && Lines == [] && this.maxlines == maxlines
    {
      open, file, pos, nlines, Lines := true, "", 0, 0, [];
      this.maxlines := maxlines;
    }

    /** fgets */
    method Fgets() returns (buff: Option<string>)
      requires pos <= |file|
      modifies this`pos
      ensures old(pos) == |file| ==> buff.None? && pos == old(pos)
      ensures old(pos) < |file| ==> pos == ChunkEnd(file, old(pos)) && buff == Some(file[old(pos)..pos])
    {
      if pos == |file| {
        return None;
      }
      var i := pos;
      while i < |file| && i - pos < BUFF - 1 && file[i] != '\n'
        invariant pos <= i <= |file| && i - pos <= BUFF - 1 && i <= IndexOf(file, '\n', pos)
      {
        i := i + 1;
      }
      IndexFrom(file, '\n', pos, i);
      if i < |file| && i - pos < BUFF - 1 {
        i := i + 1;
      }
      buff := Some(file[pos..i]);
      pos := i;
    }

    /** `_log_read`: lines of any length come back whole and trimmed; text without a
        final newline is not a line. */
    method LogRead() returns (line: Option<string>)
      requires pos <= |file|
      modifies this`pos
      ensures pos <= |file|
      ensures var e := IndexOf(file, '\n', old(pos));
              if e < |file| then line == Some(Trim(file[old(pos)..e + 1])) && pos == e + 1
              else line.None? && pos == |file|
    {
      var text := "";
      ghost var from, e := pos, IndexOf(file, '\n', pos);
      while true
        invariant from <= pos <= |file| && text == file[from..pos]
        invariant pos <= e
        decreases |file| - pos
      {
        var buff := Piece(from, e, text);
        if buff.None? {
          return None;
        }
        text := text + buff.value;
        if text[|text| - 1] == '\n' {
          text := DropBlanks(text);
          return Some(text);
        }
      }
    }

    /** A piece of the line that goes from `from` to `e`. */
    method Piece(ghost from: nat, ghost e: nat, ghost text: string) returns (buff: Option<string>)
      requires from <= pos <= |file| && pos <= e == IndexOf(file, '\n', from) && text == file[from..pos]
      modifies this`pos
      ensures buff.None? ==> pos == old(pos) == |file|
      ensures buff.Some? ==>
                && old(pos) < pos <= |file| && text + buff.value == file[from..pos] != ""
                && (if (text + buff.value)[pos - from - 1] == '\n' then pos == e + 1 else pos <= e)
    {
      if pos < |file| {
        ghost var next := ChunkInLine(file, from, e, pos, text);
        LastOf(file, from, next, text + file[pos..next]);
      }
      buff := Fgets();
    }

    /** `_logfile_write`: when the log is full the oldest lines are dropped and the rest
        copied over before the new line is added. */
    method Write(msg: string)
      requires Valid() && OneLine(msg)
      modifies this
      ensures Valid() && maxlines == old(maxlines) && open == old(open)
      ensures Lines == if open then Rolled(old(Lines), maxlines, msg) else old(Lines)
    {
      if open && maxlines != 0 && nlines >= maxlines {
        Roll();
      }
      if open {
        UnlinesSnoc(Lines, msg);
        file := file + (msg + "\n");
        pos := |file|;
        nlines := nlines + 1;
        Lines := Lines + [msg];
      }
    }

    method Roll()
      requires Valid() && maxlines != 0 && nlines >= maxlines
      modifies this
      ensures Valid() && maxlines == old(maxlines) && open == old(open)
      ensures Lines == TrimAll(old(Lines)[old(nlines) - (maxlines - 1)..]) && nlines == maxlines - 1
    {
      pos := 0;
      assert file[0..] == file;
      ghost var keep := EatLines();
      var fout := CopyRest(keep);
      file, pos := fout, |fout|;
      Lines := TrimAll(keep);
      TrimmedOneLine(keep);
    }

    /** The first loop of a roll, with the file read from the start. */
    method EatLines() returns (ghost keep: seq<string>)
      requires pos <= |file| && file[pos..] == Unlines(Lines) && AllOneLine(Lines)
      requires nlines == |Lines| && maxlines != 0 && nlines >= maxlines
      modifies this`pos, this`nlines
      ensures keep == Lines[old(nlines) - (maxlines - 1)..] && nlines == maxlines - 1 == |keep|
      ensures pos <= |file| && file[pos..] == Unlines(keep) && AllOneLine(keep)
    {
      keep := Lines;
      var more := true;
      while more && nlines >= maxlines
        invariant more && pos <= |file| && file[pos..] == Unlines(keep) && AllOneLine(keep)
        invariant nlines == |keep| <= |Lines| && nlines >= maxlines - 1
        invariant keep == Lines[|Lines| - nlines..]
      {
        ghost var rest := keep[1..];
        assert rest == Lines[|Lines| - (nlines - 1)..];
        var l := NextOf(keep);
        more := l.Some?;
        keep, nlines := rest, nlines - 1;
      }
    }

    /** The second loop: what is left goes to the new file, trimmed. */
    method CopyRest(ghost keep: seq<string>) returns (fout: string)
      requires pos <= |file| && file[pos..] == Unlines(keep) && AllOneLine(keep)
      modifies this`pos
      ensures fout == Unlines(TrimAll(keep))
    {
      fout := "";
      ghost var done, rest: seq<string> := [], keep;
      var l := NextOf(rest);
      while l.Some?
        invariant pos <= |file| && AllOneLine(rest)
        invariant l.Some? <==> rest != []
        invariant l.Some? ==> l.value == Trim(rest[0]) && file[pos..] == Unlines(rest[1..])
        invariant done + rest == keep && fout == Unlines(TrimAll(done))
        decreases |rest|
      {
        UnlinesSnoc(TrimAll(done), l.value);
        assert TrimAll(done + [rest[0]]) == TrimAll(done) + [l.value];
        assert rest == [rest[0]] + rest[1..];
        Associative(done, [rest[0]], rest[1..]);
        fout := fout + (l.value + "\n");
        done, rest := done + [rest[0]], rest[1..];
        l := NextOf(rest);
      }
      assert done == keep;
    }

    method NextOf(ghost rest: seq<string>) returns (l: Option<string>)
      requires pos <= |file| && file[pos..] == Unlines(rest) && AllOneLine(rest)
      modifies this`pos
      ensures pos <= |file|
      ensures l.Some? <==> rest != []
      ensures l.Some? ==> l.value == Trim(rest[0]) && file[pos..] == Unlines(rest[1..])
    {
      if pos < |file| {
        NextLine(file, pos, rest);
      }
      l := LogRead();
    }
  }

  /** The lines after one write of `msg` to an open log. */
  function Rolled(ls: seq<string>, maxlines: nat, msg: string): seq<string> {
    if maxlines != 0 && |ls| >= maxlines then TrimAll(ls[|ls| - (maxlines - 1)..]) + [msg]
    else ls + [msg]
  }

  lemma TrimmedOneLine(ls: seq<string>)
    requires AllOneLine(ls)
    ensures AllOneLine(TrimAll(ls))
  {
  }

  /** Reading at the start of a line gives that line and moves to the next. */
  lemma NextLine(file: string, pos: nat, rest: seq<string>)
    requires pos <= |file| && file[pos..] == Unlines(rest) && AllOneLine(rest) && rest != []
    ensures var e := IndexOf(file, '\n', pos);
            && e < |file| && Trim(file[pos..e + 1]) == Trim(rest[0])
            && file[e + 1..] == Unlines(rest[1..])
  {
    var l := rest[0];
    var tail := file[pos..];
    assert tail == l + "\n" + Unlines(rest[1..]);
    assert tail[..|l|] == l && tail[|l|] == '\n' && tail[|l| + 1..] == Unlines(rest[1..]);
    assert forall x {:trigger file[x]} :: pos <= x < pos + |l| ==> file[x] == l[x - pos];
    assert file[pos + |l|] == '\n';
    IndexIs(file, '\n', pos, pos + |l|);
    assert file[pos..pos + |l| + 1] == l + "\n";
    TrimNewline(l);
  }

  // ---- the bounded suffix ----

  /** The lines of a log opened with this limit after writing all of `msgs`. */
  function Written(msgs: seq<string>, maxlines: nat): seq<string> {
    if msgs == [] then [] else Rolled(Written(msgs[..|msgs| - 1], maxlines), maxlines, msgs[|msgs| - 1])
  }

  /** These lines once another was written after each but the last had to be copied: all
      but the newest without their trailing blanks. */
  function Aged(ls: seq<string>): (r: seq<string>)
    requires ls != []
    ensures |r| == |ls|
  {
    TrimAll(ls[..|ls| - 1]) + [ls[|ls| - 1]]
  }

  /** The last lines: all while they fit or no limit is set; otherwise as many as the
      limit. */
  function Suffix(msgs: seq<string>, maxlines: nat): seq<string> {
    if maxlines == 0 || |msgs| <= maxlines then msgs else Aged(msgs[|msgs| - maxlines..])
  }

  /** A rolling log is exactly the bounded suffix of everything written to it. */
  lemma {:induction false} LogIsSuffix(msgs: seq<string>, maxlines: nat)
    ensures Written(msgs, maxlines) == Suffix(msgs, maxlines)
  {
    if msgs != [] {
      var before, last := msgs[..|msgs| - 1], msgs[|msgs| - 1];
      LogIsSuffix(before, maxlines);
      SuffixStep(before, maxlines, last, msgs);
    }
  }

  lemma SuffixStep(before: seq<string>, maxlines: nat, msg: string, all: seq<string>)
    requires all == before + [msg]
    ensures Rolled(Suffix(before, maxlines), maxlines, msg) == Suffix(all, maxlines)
  {
    var k := |before|;
    if maxlines != 0 && k >= maxlines {
      var tail := before[k - maxlines..];
      if k == maxlines {
        assert tail == before;
        RolledAgain(tail, tail, msg);
      } else {
        AgedTrims(tail);
        RolledAgain(tail, Aged(tail), msg);
      }
      assert all[k + 1 - maxlines..] == tail[1..] + [msg];
    }
  }

  lemma AgedTrims(ls: seq<string>)
    requires ls != []
    ensures TrimAll(Aged(ls)) == TrimAll(ls)
  {
    forall i | 0 <= i < |ls| ensures Trim(Aged(ls)[i]) == Trim(ls[i]) {
      TrimTwice(ls[i]);
    }
  }

  /** What a full log turns into depends on its lines up to trailing blanks. */
  lemma RolledAgain(ls: seq<string>, held: seq<string>, msg: string)
    requires ls != [] && |held| == |ls| && TrimAll(held) == TrimAll(ls)
    ensures Rolled(held, |ls|, msg) == Aged(ls[1..] + [msg])
  {
    assert held[|held| - (|ls| - 1)..] == held[1..];
    assert TrimAll(held[1..]) == TrimAll(held)[1..];
    assert TrimAll(ls[1..]) == TrimAll(ls)[1..];
    assert (ls[1..] + [msg])[..|ls| - 1] == ls[1..];
  }
}
