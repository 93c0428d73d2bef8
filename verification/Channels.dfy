/** The channels of a session through detach, attach and what the server says about them
    (src/irc_net.c, src/irc_client.c, src/irc_server.c). */
module Channels {
  import opened Basics
  import opened IrcString
  import opened Seqs

  datatype Chan = Chan(name: string, key: Option<string>, inactive: bool, unjoined: bool)

  /** A JOIN or PART sent to the server. */
  datatype Command = Join(name: string, key: Option<string>) | Part(name: string)

  // ---- what the operations do to a list ----

  predicate Same(a: string, b: string) {
    Fold(a) == Fold(b)
  }

  /** Index of the first channel of that name at or after `at`, or the end. */
  function Find(cs: seq<Chan>, name: string, at: nat): (i: nat)
    requires at <= |cs|
    ensures at <= i <= |cs| && (i < |cs| ==> Same(cs[i].name, name))
    decreases |cs| - at
  {
    if at == |cs| || Same(cs[at].name, name) then at else Find(cs, name, at + 1)
  }

  predicate Has(cs: seq<Chan>, name: string) {
    Find(cs, name, 0) < |cs|
  }

  predicate Distinct(cs: seq<Chan>) {
    forall i, j :: 0 <= i < j < |cs| ==> Fold(cs[i].name) != Fold(cs[j].name)
  }

  function Added(cs: seq<Chan>, name: string): seq<Chan> {
    if Has(cs, name) then cs else cs + [Chan(name, None, false, false)]
  }

  function Deleted(cs: seq<Chan>, name: string): seq<Chan> {
    var i := Find(cs, name, 0);
    if i < |cs| then cs[..i] + cs[i + 1..] else cs
  }

  /** What is said about channels: by the server, or the class's list at log in. */
  datatype Event =
    | GotJoin(name: string)
    | GotPart(name: string)
    | GotKick(name: string)
    | CannotJoin(name: string)
    | NoSuchChannel(name: string)
    | Initial(name: string, key: Option<string>)

  /** The list after an event; `active` says whether a client is attached. */
  function After(cs: seq<Chan>, e: Event, active: bool): seq<Chan> {
    var i := Find(cs, e.name, 0);
    match e
    case GotJoin(name) =>
      if i == |cs| then Added(cs, name)
      else if cs[i].inactive then cs[i := cs[i].(inactive := false)]
      else cs[i := cs[i].(unjoined := false)]
    case GotPart(name) =>
      if i < |cs| && !cs[i].unjoined then Deleted(cs, name) else cs
    case GotKick(name) =>
      if active then Deleted(cs, name) else if i < |cs| then cs[i := cs[i].(inactive := true)] else cs
    case CannotJoin(name) =>
      if active then Deleted(cs, name) else if i < |cs| then cs[i := cs[i].(inactive := true)] else cs
    case NoSuchChannel(name) =>
      if active then Deleted(cs, name) else if i < |cs| then cs[i := cs[i].(unjoined := true)] else cs
    case Initial(name, key) =>
      var more := Added(cs, name);
      var j := Find(more, name, 0);
      if j == |more| then more
      else more[j := more[j].(inactive := true, key := if key.Some? then key else more[j].key)]
  }

  predicate OnIt(c: Chan) {
    !c.inactive && !c.unjoined
  }

  function Mark(c: Chan): Chan {
    if OnIt(c) then c.(unjoined := true) else c
  }

  function Marked(cs: seq<Chan>): (r: seq<Chan>)
    ensures |r| == |cs|
  {
    seq(|cs|, i requires 0 <= i < |cs| => Mark(cs[i]))
  }

  function NotOn(cs: seq<Chan>): seq<Chan> {
    if cs == [] then [] else (if OnIt(cs[0]) then [] else [cs[0]]) + NotOn(cs[1..])
  }

  /** The channel list after a detach that leaves the channels. */
  function Left(cs: seq<Chan>, rejoin: bool): seq<Chan> {
    if rejoin then Marked(cs) else NotOn(cs)
  }

  function Parts(cs: seq<Chan>): seq<Command> {
    if cs == [] then [] else (if OnIt(cs[0]) then [Part(cs[0].name)] else []) + Parts(cs[1..])
  }

  /** The JOINs for the channels whose flag `unjoined` is as given. */
  function Joins(cs: seq<Chan>, unjoined: bool): seq<Command> {
    if cs == [] then []
    else (if cs[0].unjoined == unjoined then [Join(cs[0].name, cs[0].key)] else []) + Joins(cs[1..], unjoined)
  }

  // ---- finding by name ----

  lemma {:induction false} FindIs(cs: seq<Chan>, i: nat, name: string, at: nat)
    requires Distinct(cs) && at <= i < |cs| && Same(cs[i].name, name)
    ensures Find(cs, name, at) == i
    decreases i - at
  {
    if at < i {
      FindIs(cs, i, name, at + 1);
    }
  }

  lemma {:induction false} FindNone(cs: seq<Chan>, name: string, at: nat)
    requires at <= |cs|
    ensures Find(cs, name, at) == |cs| <==> forall i :: at <= i < |cs| ==> !Same(cs[i].name, name)
    decreases |cs| - at
  {
    if at < |cs| {
      FindNone(cs, name, at + 1);
    }
  }

  // ---- lists in parts ----

  lemma {:induction false} PartsConcat(a: seq<Chan>, b: seq<Chan>)
    ensures Parts(a + b) == Parts(a) + Parts(b)
  {
    if a == [] {
      assert a + b == b;
    } else {
      PartsConcat(a[1..], b);
      assert (a + b)[0] == a[0] && (a + b)[1..] == a[1..] + b;
      Associative(if OnIt(a[0]) then [Part(a[0].name)] else [], Parts(a[1..]), Parts(b));
    }
  }

  lemma {:induction false} JoinsConcat(a: seq<Chan>, b: seq<Chan>, unjoined: bool)
    ensures Joins(a + b, unjoined) == Joins(a, unjoined) + Joins(b, unjoined)
  {
    if a == [] {
      assert a + b == b;
    } else {
      JoinsConcat(a[1..], b, unjoined);
      assert (a + b)[0] == a[0] && (a + b)[1..] == a[1..] + b;
      var head := if a[0].unjoined == unjoined then [Join(a[0].name, a[0].key)] else [];
      Associative(head, Joins(a[1..], unjoined), Joins(b, unjoined));
    }
  }

  // ---- the code ----

  class ChannelList {
    var chans: seq<Chan>

    constructor ()
      ensures chans == []
    {
      chans := [];
    }

    /** `ircnet_fetchchannel`; the length of the list when there is none. */
    method Fetch(name: string) returns (i: nat)
      ensures i == Find(chans, name, 0)
    {
      i := 0;
      while i < |chans|
        invariant i <= |chans| && Find(chans, name, i) == Find(chans, name, 0)
      {
        if Fold(chans[i].name) == Fold(name) {
          return;
        }
        i := i + 1;
      }
    }

    /** `ircnet_addchannel`: a new channel is one the session is on, so that a detach leaves
        it and a new server gets a JOIN for it, without a key. */
    method Add(name: string)
      modifies this
      ensures chans == Added(old(chans), name)
      ensures !old(Has(chans, name)) ==>
                && Parts(chans) == Parts(old(chans)) + [Part(name)]
                && Joins(chans, false) == Joins(old(chans), false) + [Join(name, None)]
    {
      var i := Fetch(name);
      if i < |chans| {
        return;
      }
      PartsConcat(chans, [Chan(name, None, false, false)]);
      JoinsConcat(chans, [Chan(name, None, false, false)], false);
      chans := chans + [Chan(name, None, false, false)];
    }

    /** `ircnet_delchannel` */
    method Delete(name: string) returns (found: bool)
      modifies this
      ensures chans == Deleted(old(chans), name) && found == Has(old(chans), name)
    {
      var i := 0;
      while i < |chans|
        invariant i <= |chans| && chans == old(chans)
        invariant Find(chans, name, i) == Find(chans, name, 0)
      {
        if Fold(chans[i].name) == Fold(name) {
          chans := chans[..i] + chans[i + 1..];
          return true;
        }
        i := i + 1;
      }
      return false;
    }

    /** The handlers of JOIN, PART, KICK, 471 and 403, and the initial channels; a channel
        that we were removed from while detached is asked for again. */
    method Handle(e: Event, active: bool) returns (rejoin: bool)
      modifies this
      ensures chans == After(old(chans), e, active)
      ensures rejoin == (!active && (e.GotKick? || e.CannotJoin?) && Has(old(chans), e.name))
    {
      rejoin := false;
      match e
      case GotJoin(name) =>
        var c := Fetch(name);
        if c < |chans| && chans[c].inactive {
          chans := chans[c := chans[c].(inactive := false)];
        } else if c < |chans| && chans[c].unjoined {
          chans := chans[c := chans[c].(unjoined := false)];
        } else if c == |chans| {
          Add(name);
        }
      case GotPart(name) =>
        var c := Fetch(name);
        if c < |chans| && !chans[c].unjoined {
          var _ := Delete(name);
        }
      case GotKick(name) =>
        rejoin := Removed(name, active);
      case CannotJoin(name) =>
        rejoin := Removed(name, active);
      case NoSuchChannel(name) =>
        var c := Fetch(name);
        if c < |chans| {
          if active {
            var _ := Delete(name);
          } else {
            chans := chans[c := chans[c].(unjoined := true)];
          }
        }
      case Initial(name, key) =>
        Add(name);
        var c := Fetch(name);
        if c < |chans| {
          chans := chans[c := chans[c].(inactive := true)];
          if key.Some? {
            chans := chans[c := chans[c].(key := key)];
          }
        }
    }

    method Removed(name: string, active: bool) returns (rejoin: bool)
      modifies this
      ensures chans == After(old(chans), GotKick(name), active)
      ensures rejoin == (!active && Has(old(chans), name))
    {
      rejoin := false;
      if active {
        var _ := Delete(name);
      } else {
        var c := Fetch(name);
        if c < |chans| {
          chans := chans[c := chans[c].(inactive := true)];
          rejoin := true;
        }
      }
    }

    /** The loop of `_ircclient_detach` that leaves the channels. */
    method Leave(rejoin: bool) returns (sent: seq<Command>)
      requires Distinct(chans)
      modifies this
      ensures chans == Left(old(chans), rejoin) && sent == Parts(old(chans))
    {
      sent := [];
      var i := 0;
      ghost var done, rest := [], chans;
      while i < |chans|
        invariant Distinct(chans)
        invariant i <= |chans| && chans[..i] == done && chans[i..] == rest
        invariant Left(old(chans), rejoin) == done + Left(rest, rejoin)
        invariant Parts(old(chans)) == sent + Parts(rest)
        decreases |rest|
      {
        var t := chans[i];
        LeftStep(done, rest, rejoin);
        PartsStep(sent, rest);
        rest := rest[1..];
        if !t.inactive && !t.unjoined {
          sent := sent + [Part(t.name)];
          if rejoin {
            PutAt(chans, i, Mark(t));
            chans := chans[i := t.(unjoined := true)];
            done, i := done + [Mark(t)], i + 1;
          } else {
            FindIs(chans, i, t.name, 0);
            CutOut(chans, i);
            var _ := Delete(t.name);
          }
        } else {
          PutAt(chans, i, t);
          done, i := done + [t], i + 1;
        }
      }
    }

    /** The loop that rejoins on attach, and the one that restores the list on 004. */
    method Rejoin(unjoined: bool) returns (sent: seq<Command>)
      ensures sent == Joins(chans, unjoined)
    {
      sent := [];
      var i := 0;
      while i < |chans|
        invariant i <= |chans| && Joins(chans, unjoined) == sent + Joins(chans[i..], unjoined)
      {
        JoinsStep(sent, chans[i..], unjoined);
        assert chans[i..][1..] == chans[i + 1..];
        var c := chans[i];
        if c.unjoined == unjoined {
          sent := sent + [Join(c.name, c.key)];
        }
        i := i + 1;
      }
    }
  }

  lemma PutAt(cs: seq<Chan>, i: nat, c: Chan)
    requires Distinct(cs) && i < |cs| && c.name == cs[i].name
    ensures var r := cs[i := c]; Distinct(r) && r[..i + 1] == cs[..i] + [c] && r[i + 1..] == cs[i..][1..]
    ensures cs[i := cs[i]] == cs
  {
  }

  lemma CutOut(cs: seq<Chan>, i: nat)
    requires Distinct(cs) && i < |cs|
    ensures var r := cs[..i] + cs[i + 1..]; Distinct(r) && r[..i] == cs[..i] && r[i..] == cs[i..][1..]
  {
  }

  lemma LeftStep(done: seq<Chan>, rest: seq<Chan>, rejoin: bool)
    requires rest != []
    ensures var t := rest[0];
            done + Left(rest, rejoin)
            == (if rejoin then done + [Mark(t)] else if OnIt(t) then done else done + [t]) + Left(rest[1..], rejoin)
  {
    var t := rest[0];
    var head := if rejoin then [Mark(t)] else if OnIt(t) then [] else [t];
    if rejoin {
      assert Marked(rest) == head + Marked(rest[1..]);
    }
    Associative(done, head, Left(rest[1..], rejoin));
    assert done + [] == done;
  }

  lemma {:induction false} PartsStep(sent: seq<Command>, rest: seq<Chan>)
    requires rest != []
    ensures sent + Parts(rest) == (if OnIt(rest[0]) then sent + [Part(rest[0].name)] else sent) + Parts(rest[1..])
  {
    Associative(sent, if OnIt(rest[0]) then [Part(rest[0].name)] else [], Parts(rest[1..]));
    assert sent + [] == sent;
  }

  lemma {:induction false} JoinsStep(sent: seq<Command>, rest: seq<Chan>, unjoined: bool)
    requires rest != []
    ensures sent + Joins(rest, unjoined)
            == (if rest[0].unjoined == unjoined then sent + [Join(rest[0].name, rest[0].key)] else sent)
               + Joins(rest[1..], unjoined)
  {
    var head := if rest[0].unjoined == unjoined then [Join(rest[0].name, rest[0].key)] else [];
    Associative(sent, head, Joins(rest[1..], unjoined));
    assert sent + [] == sent;
  }
}
