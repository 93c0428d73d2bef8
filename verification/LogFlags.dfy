/** Event names and flags, the table of src/irc_log.c. */
module LogFlags {
  import opened IrcString

  const IRC_LOG_NONE := 0
  const IRC_LOG_MSG := 0x0001
  const IRC_LOG_NOTICE := 0x0002
  const IRC_LOG_ACTION := 0x0004
  const FLAGS := 14

  /** `flag_table[i].name` */
  function Name(i: nat): string
    requires i < FLAGS
  {
    match i
    case 0 => "message"
    case 1 => "notice"
    case 2 => "action"
    case 3 => "ctcp"
    case 4 => "join"
    case 5 => "part"
    case 6 => "kick"
    case 7 => "quit"
    case 8 => "nick"
    case 9 => "mode"
    case 10 => "topic"
    case 11 => "client"
    case 12 => "server"
    case _ => "error"
  }

  /** `flag_table[i].value` */
  function Value(i: nat): int
    requires i < FLAGS
  {
    match i
    case 0 => IRC_LOG_MSG
    case 1 => IRC_LOG_NOTICE
    case 2 => IRC_LOG_ACTION
    case 3 => 0x0008
    case 4 => 0x0010
    case 5 => 0x0020
    case 6 => 0x0040
    case 7 => 0x0080
    case 8 => 0x0100
    case 9 => 0x0200
    case 10 => 0x0400
    case 11 => 0x0800
    case 12 => 0x1000
    case _ => 0x2000
  }

  predicate Named(s: string, i: nat)
    requires i < FLAGS
  {
    Lower(s) == Lower(Name(i))
  }

  predicate Known(flag: int) {
    exists i :: 0 <= i < FLAGS && Value(i) == flag
  }

  function StrToFlagFrom(s: string, i: nat): int
    requires i <= FLAGS
    decreases FLAGS - i, s
  {
    if i == FLAGS then IRC_LOG_NONE else if Named(s, i) then Value(i) else StrToFlagFrom(s, i + 1)
  }

  function StrToFlag(s: string): int {
    StrToFlagFrom(s, 0)
  }

  function FlagToStrFrom(flag: int, i: nat): string
    requires i <= FLAGS
    decreases FLAGS - i, flag
  {
    if i == FLAGS then "" else if Value(i) == flag then Name(i) else FlagToStrFrom(flag, i + 1)
  }

  function FlagToStr(flag: int): string {
    FlagToStrFrom(flag, 0)
  }

  /** `irclog_strtoflag` */
  method IrclogStrToFlag(str: string) returns (flag: int)
    ensures flag == StrToFlag(str)
  {
    var i := 0;
    while i < FLAGS
      invariant 0 <= i <= FLAGS && StrToFlag(str) == StrToFlagFrom(str, i)
    {
      if Lower(str) == Lower(Name(i)) {
        return Value(i);
      }
      i := i + 1;
    }
    return IRC_LOG_NONE;
  }

  /** `irclog_flagtostr` */
  method IrclogFlagToStr(flag: int) returns (str: string)
    ensures str == FlagToStr(flag)
  {
    var i := 0;
    while i < FLAGS
      invariant 0 <= i <= FLAGS && FlagToStr(flag) == FlagToStrFrom(flag, i)
    {
      if Value(i) == flag {
        return Name(i);
      }
      i := i + 1;
    }
    return "";
  }

  /** The first two letters already tell the names apart. */
  lemma NamesDiffer(i: nat, j: nat)
    requires i < FLAGS && j < FLAGS && i != j
    ensures Lower(Name(i)) != Lower(Name(j))
  {
    assert Lower(Name(i))[0] == Name(i)[0] && Lower(Name(j))[0] == Name(j)[0];
    assert Lower(Name(i))[1] == Name(i)[1] && Lower(Name(j))[1] == Name(j)[1];
  }

  lemma {:induction false} FirstNamed(s: string, i: nat, at: nat)
    requires at <= i < FLAGS && Named(s, i)
    ensures StrToFlagFrom(s, at) == Value(i)
    decreases i - at
  {
    if at < i {
      NamesDiffer(at, i);
      FirstNamed(s, i, at + 1);
    }
  }

  lemma {:induction false} FirstValued(i: nat, at: nat)
    requires at <= i < FLAGS
    ensures FlagToStrFrom(Value(i), at) == Name(i)
    decreases i - at
  {
    if at < i {
      FirstValued(i, at + 1);
    }
  }

  lemma {:induction false} NoneNamed(s: string, at: nat)
    requires at <= FLAGS && forall i :: at <= i < FLAGS ==> !Named(s, i)
    ensures StrToFlagFrom(s, at) == IRC_LOG_NONE
    decreases FLAGS - at
  {
    if at < FLAGS {
      NoneNamed(s, at + 1);
    }
  }

  lemma ValuePositive(i: nat)
    requires i < FLAGS
    ensures Value(i) != IRC_LOG_NONE
  {
  }

  lemma NameHasNoSpace(i: nat)
    requires i < FLAGS
    ensures Name(i) != "" && forall k :: 0 <= k < |Name(i)| ==> Name(i)[k] != ' ' && Name(i)[k] != '\n'
  {
  }

  function Bit(i: nat): int {
    if i == 0 then 1 else 2 * Bit(i - 1)
  }

  /** Each event is one bit of its own in a mask of events, in the order of the table. */
  lemma {:induction false} ValueIsBit(i: nat)
    requires i < FLAGS
    ensures Value(i) == Bit(i)
  {
    if i > 0 {
      ValueIsBit(i - 1);
    }
  }

  /** A known flag has a one-word name, and that name, in any case, reads back as it. */
  lemma FlagRoundTrip(flag: int, s: string)
    requires Known(flag) && Lower(s) == Lower(FlagToStr(flag))
    ensures StrToFlag(s) == flag
    ensures FlagToStr(flag) != ""
    ensures forall k :: 0 <= k < |FlagToStr(flag)| ==> FlagToStr(flag)[k] != ' ' && FlagToStr(flag)[k] != '\n'
  {
    var i :| 0 <= i < FLAGS && Value(i) == flag;
    FirstValued(i, 0);
    FirstNamed(s, i, 0);
    NameHasNoSpace(i);
  }

  /** A text reads as no flag exactly when it is no flag's name in any case. */
  lemma UnknownName(s: string)
    ensures StrToFlag(s) == IRC_LOG_NONE <==> forall i :: 0 <= i < FLAGS ==> !Named(s, i)
  {
    if i :| 0 <= i < FLAGS && Named(s, i) {
      FirstNamed(s, i, 0);
      ValuePositive(i);
    } else {
      NoneNamed(s, 0);
    }
  }
}
