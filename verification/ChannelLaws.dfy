/** What each event means for the channels a session leaves at its next detach and asks for
    at its next attach, and that it means nothing for any other channel. */
module ChannelLaws {
  import opened Basics
  import opened Channels
  import opened Seqs

  // ---- lists in parts ----

  /** The channels of other names. */
  function Others(cs: seq<Chan>, name: string): seq<Chan> {
    if cs == [] then [] else (if Same(cs[0].name, name) then [] else [cs[0]]) + Others(cs[1..], name)
  }

  lemma {:induction false} OthersConcat(a: seq<Chan>, b: seq<Chan>, name: string)
    ensures Others(a + b, name) == Others(a, name) + Others(b, name)
  {
    if a == [] {
      assert a + b == b;
    } else {
      OthersConcat(a[1..], b, name);
      assert (a + b)[0] == a[0] && (a + b)[1..] == a[1..] + b;
      Associative(if Same(a[0].name, name) then [] else [a[0]], Others(a[1..], name), Others(b, name));
    }
  }

  lemma Around(cs: seq<Chan>, i: nat, c: Chan)
    requires i < |cs|
    ensures cs == cs[..i] + ([cs[i]] + cs[i + 1..]) && cs[i := c] == cs[..i] + ([c] + cs[i + 1..])
  {
  }

  lemma OthersAround(cs: seq<Chan>, i: nat, c: Chan, name: string)
    requires i < |cs| && Same(cs[i].name, name) && Same(c.name, name)
    ensures Others(cs[i := c], name) == Others(cs, name) == Others(cs[..i] + cs[i + 1..], name)
  {
    Around(cs, i, c);
    OthersConcat(cs[..i], [cs[i]] + cs[i + 1..], name);
    OthersConcat(cs[..i], [c] + cs[i + 1..], name);
    OthersConcat(cs[..i], cs[i + 1..], name);
  }

  lemma PartsAround(cs: seq<Chan>, i: nat, c: Chan)
    requires i < |cs|
    ensures Parts(cs[i := c]) == Parts(cs[..i]) + Parts([c]) + Parts(cs[i + 1..])
  {
    Around(cs, i, c);
    PartsConcat(cs[..i], [c] + cs[i + 1..]);
    PartsConcat([c], cs[i + 1..]);
  }

  lemma JoinsAround(cs: seq<Chan>, i: nat, c: Chan, unjoined: bool)
    requires i < |cs|
    ensures Joins(cs[i := c], unjoined)
            == Joins(cs[..i], unjoined) + Joins([c], unjoined) + Joins(cs[i + 1..], unjoined)
  {
    Around(cs, i, c);
    JoinsConcat(cs[..i], [c] + cs[i + 1..], unjoined);
    JoinsConcat([c], cs[i + 1..], unjoined);
  }

  // ---- every event is about one channel ----

  /** An event leaves every channel of another name exactly as it is, and in its order. */
  lemma OthersUntouched(cs: seq<Chan>, e: Event, active: bool)
    ensures Others(After(cs, e, active), e.name) == Others(cs, e.name)
  {
    var i := Find(cs, e.name, 0);
    var added := Chan(e.name, None, false, false);
    OthersConcat(cs, [added], e.name);
    if i < |cs| {
      OthersAround(cs, i, cs[i].(inactive := true), e.name);
      OthersAround(cs, i, cs[i].(inactive := false), e.name);
      OthersAround(cs, i, cs[i].(unjoined := true), e.name);
      OthersAround(cs, i, cs[i].(unjoined := false), e.name);
      if e.Initial? {
        OthersAround(cs, i, After(cs, e, active)[i], e.name);
      }
    } else if e.Initial? {
      var more := cs + [added];
      var j := Find(more, e.name, 0);
      if j < |more| {
        OthersAround(more, j, After(cs, e, active)[j], e.name);
      }
    }
  }

  // ---- what it means for that channel ----

  lemma NothingToPart(c: Chan)
    requires c.inactive || c.unjoined
    ensures Parts([c]) == []
  {
  }

  lemma OneToJoin(c: Chan)
    ensures Joins([c], c.unjoined) == [Join(c.name, c.key)]
  {
    assert [Join(c.name, c.key)] + Joins([c][1..], c.unjoined) == [Join(c.name, c.key)];
  }

  /** With a marked channel at place i the others are parted and joined as before. */
  lemma MarkedInPlace(cs: seq<Chan>, i: nat, c: Chan)
    requires i < |cs| && (c.inactive || c.unjoined)
    ensures Parts(cs[i := c]) == Parts(cs[..i]) + Parts(cs[i + 1..])
    ensures Joins(cs[i := c], c.unjoined)
            == Joins(cs[..i], c.unjoined) + [Join(c.name, c.key)] + Joins(cs[i + 1..], c.unjoined)
  {
    PartsAround(cs, i, c);
    JoinsAround(cs, i, c, c.unjoined);
    NothingToPart(c);
    OneToJoin(c);
  }

  /** An ordinary JOIN: the new channel is one of those to leave at a detach, to come back to
      at the attach, and to restore on a new server, and has no key. */
  lemma JoinAdds(cs: seq<Chan>, name: string, active: bool)
    requires !Has(cs, name)
    ensures var r := After(cs, GotJoin(name), active);
            && Parts(r) == Parts(cs) + [Part(name)] && Joins(r, true) == Joins(cs, true)
            && Joins(r, false) == Joins(cs, false) + [Join(name, None)]
            && Joins(Left(r, true), true) == Joins(Left(cs, true), true) + [Join(name, None)]
  {
    var added := Chan(name, None, false, false);
    PartsConcat(cs, [added]);
    JoinsConcat(cs, [added], true);
    JoinsConcat(cs, [added], false);
    assert Marked(cs + [added]) == Marked(cs) + [Mark(added)];
    JoinsConcat(Marked(cs), [Mark(added)], true);
    assert Parts([added]) == [Part(name)] + Parts([added][1..]);
  }

  /** Removed from a channel, or kept out of it, while detached: the channel is not left again
      at a detach, and its next JOIN brings everything back. */
  lemma {:induction false} RemovedComesBack(cs: seq<Chan>, e: Event, i: nat, active: bool)
    requires (e.GotKick? || e.CannotJoin?) && i == Find(cs, e.name, 0) < |cs|
    ensures var r := After(cs, e, false);
            && Parts(r) == Parts(cs[..i]) + Parts(cs[i + 1..])
            && (!cs[i].inactive ==> After(r, GotJoin(e.name), active) == cs)
            && (cs[i].inactive ==> r == cs)
  {
    var c := cs[i].(inactive := true);
    MarkedInPlace(cs, i, c);
    assert After(cs, e, false) == cs[i := c];
    if cs[i].inactive {
      assert cs[i := cs[i]] == cs;
    } else {
      JoinRestores(cs, i, c, e.name, active);
    }
  }

  /** The JOIN for a channel of which one of the flags was set clears it again. */
  lemma {:induction false} JoinRestores(cs: seq<Chan>, i: nat, c: Chan, name: string, active: bool)
    requires i == Find(cs, name, 0) < |cs|
    requires (!cs[i].inactive && c == cs[i].(inactive := true))
             || (!cs[i].inactive && !cs[i].unjoined && c == cs[i].(unjoined := true))
    ensures After(cs[i := c], GotJoin(name), active) == cs
  {
    FoundAgain(cs, i, c, name, 0);
    assert cs[i := c][i := cs[i]] == cs;
  }

  /** The same channel is found after a change that keeps its name. */
  lemma {:induction false} FoundAgain(cs: seq<Chan>, i: nat, c: Chan, name: string, at: nat)
    requires at <= i < |cs| && i == Find(cs, name, at) && c.name == cs[i].name
    ensures Find(cs[i := c], name, at) == i
    decreases i - at
  {
    if at < i {
      FoundAgain(cs, i, c, name, at + 1);
    }
  }

  /** Kept out of a channel for good while detached: it is not left again but asked for at the
      next attach, and its JOIN brings it back if the session was on it. */
  lemma {:induction false} GoneIsAskedFor(cs: seq<Chan>, name: string, i: nat, active: bool)
    requires i == Find(cs, name, 0) < |cs|
    ensures var r := After(cs, NoSuchChannel(name), false);
            && Parts(r) == Parts(cs[..i]) + Parts(cs[i + 1..])
            && Joins(r, true) == Joins(cs[..i], true) + [Join(cs[i].name, cs[i].key)] + Joins(cs[i + 1..], true)
            && (!cs[i].inactive && !cs[i].unjoined ==> After(r, GotJoin(name), active) == cs)
  {
    var c := cs[i].(unjoined := true);
    assert After(cs, NoSuchChannel(name), false) == cs[i := c];
    MarkedInPlace(cs, i, c);
    if !cs[i].inactive && !cs[i].unjoined {
      JoinRestores(cs, i, c, name, active);
    }
  }

  /** With a client attached, or by a PART the session did not send, a channel of the list is
      taken out of it, and one that is not in it changes nothing; the PART that answers the
      session's own leaves the list as it is. */
  lemma {:induction false} TakenOut(cs: seq<Chan>, e: Event, active: bool, i: nat)
    requires e.GotPart? || (active && (e.GotKick? || e.CannotJoin? || e.NoSuchChannel?))
    requires i == Find(cs, e.name, 0)
    ensures After(cs, e, active)
            == if i == |cs| || (e.GotPart? && cs[i].unjoined) then cs else cs[..i] + cs[i + 1..]
  {
    match e
    case GotPart(_) =>
    case GotKick(_) =>
    case CannotJoin(_) =>
    case NoSuchChannel(_) =>
  }

  /** An initial channel that is new is not one to leave yet but one to join, with its key,
      when the server is there, and is like any other once it has been. */
  lemma InitialIsJoined(cs: seq<Chan>, name: string, key: Option<string>, active: bool)
    requires !Has(cs, name)
    ensures var r := After(cs, Initial(name, key), active);
            var s := After(r, GotJoin(name), active);
            && Parts(r) == Parts(cs) && Joins(r, false) == Joins(cs, false) + [Join(name, key)]
            && Parts(s) == Parts(cs) + [Part(name)] && Joins(s, false) == Joins(r, false)
  {
    var added, there := Chan(name, key, true, false), Chan(name, key, false, false);
    NewIsLast(cs, Chan(name, None, false, false), 0);
    NewIsLast(cs, added, 0);
    assert After(cs, Initial(name, key), active) == cs + [added];
    assert After(cs + [added], GotJoin(name), active) == cs + [there];
    PartsConcat(cs, [added]);
    PartsConcat(cs, [there]);
    JoinsConcat(cs, [added], false);
    JoinsConcat(cs, [there], false);
    assert Parts([added]) == [] && Parts([there]) == [Part(name)] + Parts([there][1..]);
  }

  lemma {:induction false} InitialChanges(cs: seq<Chan>, name: string, key: Option<string>, active: bool, i: nat)
    returns (c: Chan)
    requires i == Find(cs, name, 0) < |cs|
    ensures c == cs[i].(inactive := true, key := if key.Some? then key else cs[i].key)
    ensures After(cs, Initial(name, key), active) == cs[i := c]
  {
    c := cs[i].(inactive := true, key := if key.Some? then key else cs[i].key);
  }

  /** An initial channel that is in the list already is not left again and is joined with the
      new key if there is one, otherwise with its own. */
  lemma {:induction false} InitialIsKnown(cs: seq<Chan>, name: string, key: Option<string>, active: bool, i: nat)
    requires i == Find(cs, name, 0) < |cs|
    ensures var r, u := After(cs, Initial(name, key), active), cs[i].unjoined;
            && Parts(r) == Parts(cs[..i]) + Parts(cs[i + 1..])
            && Joins(r, u) == Joins(cs[..i], u)
                              + [Join(cs[i].name, if key.Some? then key else cs[i].key)] + Joins(cs[i + 1..], u)
  {
    var c := InitialChanges(cs, name, key, active, i);
    MarkedInPlace(cs, i, c);
  }

  lemma {:induction false} NewIsLast(cs: seq<Chan>, c: Chan, at: nat)
    requires at <= |cs| && Find(cs, c.name, at) == |cs|
    ensures Find(cs + [c], c.name, at) == |cs|
    decreases |cs| - at
  {
    if at < |cs| {
      NewIsLast(cs, c, at + 1);
    }
  }

  // ---- what a detach leaves behind ----

  lemma {:induction false} NotOnExactly(cs: seq<Chan>, c: Chan)
    ensures multiset(NotOn(cs))[c] == if c.inactive || c.unjoined then multiset(cs)[c] else 0
  {
    if cs != [] {
      NotOnExactly(cs[1..], c);
      assert cs == [cs[0]] + cs[1..];
    }
  }

  lemma {:induction false} NothingToLeave(cs: seq<Chan>)
    requires forall i :: 0 <= i < |cs| ==> cs[i].inactive || cs[i].unjoined
    ensures Parts(cs) == []
  {
    if cs != [] {
      NothingToLeave(cs[1..]);
    }
  }

  /** A detach leaves each channel once: after it there is nothing to leave. Without rejoining,
      exactly the channels the session was on are forgotten. */
  lemma LeavesOnce(cs: seq<Chan>, rejoin: bool)
    ensures Parts(Left(cs, rejoin)) == []
    ensures forall c :: multiset(Left(cs, false))[c] == if c.inactive || c.unjoined then multiset(cs)[c] else 0
  {
    forall c ensures multiset(Left(cs, false))[c] == if c.inactive || c.unjoined then multiset(cs)[c] else 0 {
      NotOnExactly(cs, c);
    }
    var r := Left(cs, rejoin);
    forall i | 0 <= i < |r| ensures r[i].inactive || r[i].unjoined {
      NotOnExactly(cs, r[i]);
      assert r[i] in r;
    }
    NothingToLeave(r);
  }
}
