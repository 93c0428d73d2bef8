/** What the channel operations promise together. */
module ChannelTrip {
  import opened Basics
  import opened IrcString
  import opened Channels

  // ---- names stay distinct ----

  datatype Act = On(e: Event, active: bool) | Leave(rejoin: bool)

  function Step(cs: seq<Chan>, a: Act): seq<Chan> {
    match a
    case On(e, active) => After(cs, e, active)
    case Leave(rejoin) => Left(cs, rejoin)
  }

  function Run(acts: seq<Act>): seq<Chan> {
    if acts == [] then [] else Step(Run(acts[..|acts| - 1]), acts[|acts| - 1])
  }

  /** The same names in the same order, perhaps with some left out. */
  predicate NamesWithin(a: seq<Chan>, b: seq<Chan>) {
    a == [] || (b != [] && ((a[0].name == b[0].name && NamesWithin(a[1..], b[1..])) || NamesWithin(a, b[1..])))
  }

  lemma {:induction false} WithinFinds(a: seq<Chan>, b: seq<Chan>, i: nat) returns (j: nat)
    requires NamesWithin(a, b) && i < |a|
    ensures i <= j < |b| && a[i].name == b[j].name
    decreases |b|
  {
    if a[0].name == b[0].name && NamesWithin(a[1..], b[1..]) {
      if i == 0 {
        return 0;
      }
      j := WithinFinds(a[1..], b[1..], i - 1);
      j := j + 1;
    } else {
      j := WithinFinds(a, b[1..], i);
      j := j + 1;
    }
  }

  lemma {:induction false} WithinDistinct(a: seq<Chan>, b: seq<Chan>)
    requires NamesWithin(a, b) && Distinct(b)
    ensures Distinct(a)
    decreases |b|
  {
    if a != [] {
      TailDistinct(b);
      if a[0].name == b[0].name && NamesWithin(a[1..], b[1..]) {
        WithinDistinct(a[1..], b[1..]);
        forall j | 1 <= j < |a| ensures Fold(a[0].name) != Fold(a[j].name) {
          var k := WithinFinds(a[1..], b[1..], j - 1);
          assert b[k + 1].name == a[j].name;
        }
        HeadDistinct(a);
      } else {
        WithinDistinct(a, b[1..]);
      }
    }
  }

  lemma TailDistinct(b: seq<Chan>)
    requires Distinct(b) && b != []
    ensures Distinct(b[1..])
  {
  }

  lemma HeadDistinct(a: seq<Chan>)
    requires a != [] && Distinct(a[1..]) && forall j :: 1 <= j < |a| ==> Fold(a[0].name) != Fold(a[j].name)
    ensures Distinct(a)
  {
  }

  lemma {:induction false} NotOnWithin(cs: seq<Chan>)
    ensures NamesWithin(NotOn(cs), cs)
  {
    if cs != [] {
      NotOnWithin(cs[1..]);
      assert [] + NotOn(cs[1..]) == NotOn(cs[1..]);
      assert ([cs[0]] + NotOn(cs[1..]))[1..] == NotOn(cs[1..]);
    }
  }

  lemma AddedDistinct(cs: seq<Chan>, name: string)
    requires Distinct(cs)
    ensures Distinct(Added(cs, name))
  {
    FindNone(cs, name, 0);
  }

  lemma DeletedDistinct(cs: seq<Chan>, name: string)
    requires Distinct(cs)
    ensures Distinct(Deleted(cs, name))
  {
  }

  lemma UpdatedDistinct(cs: seq<Chan>, i: nat, c: Chan)
    requires Distinct(cs) && i < |cs| && c.name == cs[i].name
    ensures Distinct(cs[i := c])
  {
  }

  /** An event adds the channel, deletes it, or changes one in place. */
  lemma AfterIs(cs: seq<Chan>, e: Event, active: bool) returns (all: seq<Chan>, i: nat, c: Chan)
    ensures all == if e.GotJoin? || e.Initial? then Added(cs, e.name) else cs
    ensures i <= |all| && (i < |all| ==> c.name == all[i].name)
    ensures After(cs, e, active) == if i < |all| then all[i := c] else if e.GotJoin? || e.Initial? then all
                                    else if After(cs, e, active) == cs then cs else Deleted(cs, e.name)
    ensures i < |all| && i < |cs| ==> Same(cs[i].name, e.name)
  {
    all := if e.GotJoin? || e.Initial? then Added(cs, e.name) else cs;
    i := Find(all, e.name, 0);
    var after := After(cs, e, active);
    c := if i < |all| then all[i] else Chan("", None, false, false);
    if i < |all| && |after| == |all| {
      c := after[i];
    } else {
      i := |all|;
    }
  }

  lemma StepDistinct(cs: seq<Chan>, a: Act)
    requires Distinct(cs)
    ensures Distinct(Step(cs, a))
  {
    match a
    case Leave(rejoin) =>
      if !rejoin {
        NotOnWithin(cs);
        WithinDistinct(NotOn(cs), cs);
      }
    case On(e, active) =>
      var all, i, c := AfterIs(cs, e, active);
      AddedDistinct(cs, e.name);
      DeletedDistinct(cs, e.name);
      if i < |all| {
        UpdatedDistinct(all, i, c);
      }
  }

  /** Whatever happens, no two channels of a session have the same name up to IRC case. */
  lemma {:induction false} RunDistinct(acts: seq<Act>)
    ensures Distinct(Run(acts))
  {
    if acts != [] {
      RunDistinct(acts[..|acts| - 1]);
      StepDistinct(Run(acts[..|acts| - 1]), acts[|acts| - 1]);
    }
  }

  // ---- which events lose a channel ----

  /** Exactly this makes the session forget a channel: the server says we left one that
      we had not left ourselves, or, with a client attached, that we were removed from it
      or cannot be on it. */
  predicate Loses(c: Chan, e: Event, active: bool) {
    Same(c.name, e.name)
    && ((e.GotPart? && !c.unjoined) || (active && (e.GotKick? || e.CannotJoin? || e.NoSuchChannel?)))
  }

  lemma LosesCases(cs: seq<Chan>, e: Event, active: bool) returns (j: nat)
    ensures j == Find(cs, e.name, 0)
    ensures var after := After(cs, e, active);
            if j < |cs| && Loses(cs[j], e, active) then after == cs[..j] + cs[j + 1..]
            else |after| >= |cs| && forall k :: 0 <= k < |cs| ==> after[k].name == cs[k].name
  {
    j := Find(cs, e.name, 0);
  }

  lemma WithoutHas(cs: seq<Chan>, j: nat, i: nat)
    requires Distinct(cs) && j < |cs| && i < |cs|
    ensures Has(cs[..j] + cs[j + 1..], cs[i].name) <==> i != j
  {
    var less := cs[..j] + cs[j + 1..];
    FindNone(less, cs[i].name, 0);
    if i < j {
      assert less[i] == cs[i];
    } else if i > j {
      assert less[i - 1] == cs[i];
    } else {
      forall k | 0 <= k < |less| ensures !Same(less[k].name, cs[i].name) {
        assert less[k] == cs[if k < j then k else k + 1];
      }
    }
  }

  lemma LosesExactly(cs: seq<Chan>, e: Event, active: bool, i: nat)
    requires Distinct(cs) && i < |cs|
    ensures Has(After(cs, e, active), cs[i].name) <==> !Loses(cs[i], e, active)
  {
    var j := LosesCases(cs, e, active);
    var after := After(cs, e, active);
    FindNone(cs, e.name, 0);
    if Same(cs[i].name, e.name) {
      FindIs(cs, i, e.name, 0);
    }
    if j < |cs| && Loses(cs[j], e, active) {
      WithoutHas(cs, j, i);
    } else {
      FindNone(after, cs[i].name, 0);
      assert after[i].name == cs[i].name;
    }
  }

  // ---- the round trip ----

  /** What the server answers to the PARTs and JOINs it was sent. */
  datatype Echo = Parted(name: string) | Joined(name: string)

  function EventOf(e: Echo): Event {
    if e.Parted? then GotPart(e.name) else GotJoin(e.name)
  }

  function Echoed(cs: seq<Chan>, es: seq<Echo>, active: bool): seq<Chan> {
    if es == [] then cs
    else After(Echoed(cs, es[..|es| - 1], active), EventOf(es[|es| - 1]), active)
  }

  predicate Asked(ms: seq<Chan>, e: Echo) {
    var i := Find(ms, e.name, 0);
    i < |ms| && ms[i].unjoined
  }

  predicate AllAsked(ms: seq<Chan>, es: seq<Echo>) {
    forall k :: 0 <= k < |es| ==> Asked(ms, es[k])
  }

  /** After a channel's JOIN nothing more comes about it. */
  predicate JoinLast(es: seq<Echo>) {
    forall k, l :: 0 <= k < l < |es| && es[k].Joined? ==> Fold(es[l].name) != Fold(es[k].name)
  }

  predicate Rejoined(es: seq<Echo>, name: string) {
    exists k :: 0 <= k < |es| && es[k].Joined? && Same(es[k].name, name)
  }

  predicate AllRejoined(ms: seq<Chan>, es: seq<Echo>) {
    forall i :: 0 <= i < |ms| && ms[i].unjoined ==> Rejoined(es, ms[i].name)
  }

  /** A channel once its JOIN has come. */
  function Back(m: Chan): Chan {
    if m.inactive then m.(inactive := false) else m.(unjoined := false)
  }

  /** Between the detach and the last JOIN a channel is as it was marked until its own
      JOIN comes, whatever the order of the channels. */
  predicate OnTheWay(cs: seq<Chan>, ms: seq<Chan>, es: seq<Echo>) {
    |cs| == |ms| && forall i :: 0 <= i < |ms| ==> cs[i] == if Rejoined(es, ms[i].name) then Back(ms[i]) else ms[i]
  }

  lemma {:induction false} EchoesOnTheWay(ms: seq<Chan>, es: seq<Echo>, active: bool)
    requires Distinct(ms) && AllAsked(ms, es) && JoinLast(es)
    ensures OnTheWay(Echoed(ms, es, active), ms, es)
  {
    if es != [] {
      var before := es[..|es| - 1];
      EchoesOnTheWay(ms, before, active);
      OneEcho(Echoed(ms, before, active), ms, before, es[|es| - 1], active);
      assert before + [es[|es| - 1]] == es;
    }
  }

  lemma OneEcho(cs: seq<Chan>, ms: seq<Chan>, es: seq<Echo>, e: Echo, active: bool)
    requires Distinct(ms) && OnTheWay(cs, ms, es) && Asked(ms, e) && JoinLast(es + [e])
    ensures OnTheWay(After(cs, EventOf(e), active), ms, es + [e])
  {
    var i := Find(ms, e.name, 0);
    NotYet(es, e, ms[i].name);
    SameNames(cs, ms, es);
    FindIs(cs, i, e.name, 0);
    assert cs[i] == ms[i];
    forall j | 0 <= j < |ms|
      ensures Rejoined(es + [e], ms[j].name) <==> Rejoined(es, ms[j].name) || (e.Joined? && j == i)
    {
      RejoinedSnoc(es, e, ms[j].name);
      if j != i {
        assert Fold(ms[j].name) != Fold(ms[i].name);
      }
    }
  }

  lemma NotYet(es: seq<Echo>, e: Echo, name: string)
    requires JoinLast(es + [e]) && Same(name, e.name)
    ensures !Rejoined(es, name)
  {
    forall k | 0 <= k < |es| && es[k].Joined? ensures !Same(es[k].name, name) {
      assert (es + [e])[k] == es[k] && (es + [e])[|es|] == e;
    }
  }

  lemma RejoinedSnoc(es: seq<Echo>, e: Echo, name: string)
    ensures Rejoined(es + [e], name) <==> Rejoined(es, name) || (e.Joined? && Same(e.name, name))
  {
    var all := es + [e];
    assert all[|es|] == e;
    if Rejoined(es, name) {
      var k :| 0 <= k < |es| && es[k].Joined? && Same(es[k].name, name);
      assert all[k] == es[k];
    }
  }

  lemma SameNames(cs: seq<Chan>, ms: seq<Chan>, es: seq<Echo>)
    requires Distinct(ms) && OnTheWay(cs, ms, es)
    ensures Distinct(cs)
  {
  }

  /** A channel after the whole trip. */
  function Returned(c: Chan): Chan {
    if !c.unjoined then c else Back(c)
  }

  /** The echoes of a detach and the following attach: every channel that was left or
      that the attach asks for is echoed as parted any number of times, then as joined. */
  predicate Answers(cs: seq<Chan>, es: seq<Echo>) {
    AllAsked(Marked(cs), es) && JoinLast(es) && AllRejoined(Marked(cs), es)
  }

  /** Detaching with leave and rejoin, then all the answers, in any order: every channel
      that was not left already is as before, in its old place; one that was left already
      loses one flag. */
  lemma TripReturns(cs: seq<Chan>, es: seq<Echo>, active: bool)
    requires Distinct(cs) && Answers(cs, es)
    ensures var end := Echoed(Left(cs, true), es, active);
            |end| == |cs| && forall i :: 0 <= i < |cs| ==> end[i] == Returned(cs[i])
  {
    MarkedDistinct(cs);
    EchoesOnTheWay(Marked(cs), es, active);
    EndOfTrip(Echoed(Marked(cs), es, active), cs, es);
  }

  lemma MarkedDistinct(cs: seq<Chan>)
    requires Distinct(cs)
    ensures Distinct(Marked(cs))
  {
  }

  lemma EndOfTrip(end: seq<Chan>, cs: seq<Chan>, es: seq<Echo>)
    requires Distinct(Marked(cs)) && Answers(cs, es) && OnTheWay(end, Marked(cs), es)
    ensures |end| == |cs| && forall i :: 0 <= i < |cs| ==> end[i] == Returned(cs[i])
  {
    forall i | 0 <= i < |cs| ensures end[i] == Returned(cs[i]) {
      RejoinedIff(Marked(cs), es, i);
      MarkedBack(cs, i);
    }
  }

  lemma MarkedBack(cs: seq<Chan>, i: nat)
    requires i < |cs|
    ensures var m := Marked(cs)[i]; (if m.unjoined then Back(m) else m) == Returned(cs[i])
  {
  }

  lemma RejoinedIff(ms: seq<Chan>, es: seq<Echo>, i: nat)
    requires Distinct(ms) && AllAsked(ms, es) && AllRejoined(ms, es) && i < |ms|
    ensures Rejoined(es, ms[i].name) <==> ms[i].unjoined
  {
  }

  /** The list is restored exactly - names, keys, order and flags - if and only if no
      channel had been left before the detach. */
  lemma RoundTripIff(cs: seq<Chan>, es: seq<Echo>, active: bool)
    requires Distinct(cs) && Answers(cs, es)
    ensures Echoed(Left(cs, true), es, active) == cs <==> forall i :: 0 <= i < |cs| ==> !cs[i].unjoined
  {
    TripReturns(cs, es, active);
    var end := Echoed(Left(cs, true), es, active);
    if i :| 0 <= i < |cs| && cs[i].unjoined {
      assert end[i] == Back(cs[i]) != cs[i];
    }
  }

  /** The channels the session is on, in order. */
  function Current(cs: seq<Chan>): seq<Chan> {
    if cs == [] then [] else (if cs[0].inactive || cs[0].unjoined then [] else [cs[0]]) + Current(cs[1..])
  }

  /** The PARTs and JOINs that go out are for the same channels, in list order, and the JOINs
      have their keys, when none had been left before. */
  lemma {:induction false} SentMatch(cs: seq<Chan>)
    requires forall i :: 0 <= i < |cs| ==> !cs[i].unjoined
    ensures |Joins(Marked(cs), true)| == |Parts(cs)| == |Current(cs)|
    ensures forall k {:trigger Current(cs)[k]} :: 0 <= k < |Current(cs)| ==>
              var c := Current(cs)[k]; Parts(cs)[k] == Part(c.name) && Joins(Marked(cs), true)[k] == Join(c.name, c.key)
  {
    if cs != [] {
      SentMatch(cs[1..]);
      assert Marked(cs) == [Mark(cs[0])] + Marked(cs[1..]);
    }
  }
}
