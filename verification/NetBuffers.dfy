/** The per-socket queues of src/net.c: `struct sockbuff` chains with a head and a
    tail pointer, appended to, jumped by urgent lines, and consumed from the front. */
module NetBuffers {
  import opened Seqs

  datatype Mode = Raw | Pack

  /** The value held by one node; the C field `len` is `|data|`. */
  datatype Buf<T> = Buf(data: seq<T>, linelen: nat, mode: Mode)

  function Append<T>(q: seq<Buf<T>>, mode: Mode, data: seq<T>): seq<Buf<T>> {
    if mode == Raw && q != [] && q[|q| - 1].mode == Raw then
      var l := q[|q| - 1];
      q[..|q| - 1] + [Buf(l.data + data, l.linelen + |data|, Raw)]
    else
      q + [Buf(data, |data|, mode)]
  }

  /** An ordinary line of which a first part has already been written. */
  predicate HeadIncomplete<T>(q: seq<Buf<T>>) {
    q != [] && q[0].mode == Pack && q[0].linelen > |q[0].data|
  }

  /** Urgent nodes carry `linelen` 0, so they never count as incomplete themselves. */
  function PushUrgent<T>(q: seq<Buf<T>>, data: seq<T>): seq<Buf<T>> {
    var b := Buf(data, 0, Pack);
    if HeadIncomplete(q) then [q[0], b] + q[1..] else [b] + q
  }

  function DropFront<T>(q: seq<Buf<T>>, n: nat): seq<Buf<T>>
    requires q != [] && n <= |q[0].data|
  {
    if n == |q[0].data| then q[1..] else [q[0].(data := q[0].data[n..])] + q[1..]
  }

  /** All the bytes of a queue in the order they leave it. */
  function Flatten<T>(q: seq<Buf<T>>): seq<T> {
    if q == [] then [] else q[0].data + Flatten(q[1..])
  }

  /** Where an urgent payload lands in the flattened queue. */
  function UrgentPosition<T>(q: seq<Buf<T>>): nat {
    if HeadIncomplete(q) then |q[0].data| else 0
  }

  lemma {:induction false} FlattenConcat<T>(a: seq<Buf<T>>, b: seq<Buf<T>>)
    ensures Flatten(a + b) == Flatten(a) + Flatten(b)
  {
    if a == [] {
      assert a + b == b;
    } else {
      FlattenConcat(a[1..], b);
      assert (a + b)[1..] == a[1..] + b && (a + b)[0] == a[0];
      var x, y, z := a[0].data, Flatten(a[1..]), Flatten(b);
      assert Flatten(a + b) == x + (y + z);
      Associative(x, y, z);
    }
  }

  lemma FlattenOne<T>(b: Buf<T>)
    ensures Flatten([b]) == b.data
  {
  }

  /** Appending, in either mode and merged or not, puts the payload at the very end. */
  lemma AppendFlatten<T>(q: seq<Buf<T>>, mode: Mode, data: seq<T>)
    ensures Flatten(Append(q, mode, data)) == Flatten(q) + data
  {
    var r := Append(q, mode, data);
    if mode == Raw && q != [] && q[|q| - 1].mode == Raw {
      var l := q[|q| - 1];
      var l' := Buf(l.data + data, l.linelen + |data|, Raw);
      FlattenConcat(q[..|q| - 1], [l]);
      FlattenConcat(q[..|q| - 1], [l']);
      FlattenOne(l);
      FlattenOne(l');
      assert q == q[..|q| - 1] + [l];
    } else {
      FlattenConcat(q, [Buf(data, |data|, mode)]);
      FlattenOne(Buf(data, |data|, mode));
    }
  }

  /** An urgent payload is inserted whole, before everything except the rest of an
      ordinary line that is part-written. */
  lemma UrgentFlatten<T>(q: seq<Buf<T>>, data: seq<T>)
    ensures UrgentPosition(q) <= |Flatten(q)|
    ensures var p := UrgentPosition(q);
            Flatten(PushUrgent(q, data)) == Flatten(q)[..p] + data + Flatten(q)[p..]
  {
    var b := Buf(data, 0, Pack);
    if HeadIncomplete(q) {
      FlattenCons(b, q[1..]);
      FlattenCons(q[0], [b] + q[1..]);
      assert PushUrgent(q, data) == [q[0]] + ([b] + q[1..]);
      Inserted(q[0].data, data, Flatten(q[1..]));
    } else {
      FlattenCons(b, q);
      Inserted([], data, Flatten(q));
      assert [] + Flatten(q) == Flatten(q);
    }
  }

  lemma Inserted<T>(d: seq<T>, x: seq<T>, f: seq<T>)
    ensures d + (x + f) == (d + f)[..|d|] + x + (d + f)[|d|..]
  {
  }

  lemma FlattenCons<T>(b: Buf<T>, q: seq<Buf<T>>)
    ensures Flatten([b] + q) == b.data + Flatten(q)
  {
    assert ([b] + q)[1..] == q;
  }

  /** Consuming n bytes of the front node removes exactly the first n queued bytes. */
  lemma DropFlatten<T>(q: seq<Buf<T>>, n: nat)
    requires q != [] && n <= |q[0].data|
    ensures |Flatten(q)| >= n
    ensures Flatten(DropFront(q, n)) == Flatten(q)[n..]
    ensures q[0].data[..n] == Flatten(q)[..n]
  {
    TakeDropConcat(q[0].data, Flatten(q[1..]), n);
    if n < |q[0].data| {
      assert DropFront(q, n)[1..] == q[1..];
    }
  }

  /** A queue that only ever receives raw data is one node. */
  predicate AtMostOneRaw<T>(q: seq<Buf<T>>) {
    |q| <= 1 && (q != [] ==> q[0].mode == Raw && q[0].data != [])
  }

  lemma RawAppendKeepsOne<T>(q: seq<Buf<T>>, data: seq<T>)
    requires AtMostOneRaw(q) && data != []
    ensures AtMostOneRaw(Append(q, Raw, data))
  {
  }

  class SockBuff<T> {
    var data: seq<T>
    var linelen: nat
    var mode: Mode
    var next: SockBuff?<T>

    constructor (data: seq<T>, linelen: nat, mode: Mode)
      ensures this.data == data && this.linelen == linelen && this.mode == mode && next == null
    {
      this.data, this.linelen, this.mode, this.next := data, linelen, mode, null;
    }

    function Value(): Buf<T>
      reads this
    {
      Buf(data, linelen, mode)
    }
  }

  /** A pair of `..._buff` and `..._buff_last` pointers and the chain between them. */
  class BufferQueue<T> {
    var head: SockBuff?<T>
    var last: SockBuff?<T>
    ghost var Spine: seq<SockBuff<T>>
    ghost var Repr: set<object>

    ghost predicate Valid()
      reads this, Repr
    {
      && this in Repr
      && (forall i :: 0 <= i < |Spine| ==> Spine[i] in Repr)
      && (forall i, j :: 0 <= i < j < |Spine| ==> Spine[i] != Spine[j])
      && (if Spine == [] then head == null && last == null
          else head == Spine[0] && last == Spine[|Spine| - 1] && Spine[|Spine| - 1].next == null)
      && (forall i {:trigger Spine[i].next} :: 0 <= i < |Spine| - 1 ==> Spine[i].next == Spine[i + 1])
    }

    ghost function View(): (q: seq<Buf<T>>)
      requires Valid()
      reads this, Repr
      ensures |q| == |Spine|
      ensures forall i :: 0 <= i < |q| ==> q[i] == Spine[i].Value()
    {
      seq(|Spine|, i requires 0 <= i < |Spine| && Valid() reads this, Repr => Spine[i].Value())
    }

    constructor ()
      ensures Valid() && View() == [] && fresh(Repr)
    {
      head, last, Spine, Repr := null, null, [], {this};
    }

    /** `_net_buffer` allocates a node before it links it in. */
    method NewNode(data: seq<T>, linelen: nat, mode: Mode) returns (b: SockBuff<T>)
      requires Valid()
      modifies this`Repr
      ensures fresh(b) && b.next == null && b.Value() == Buf(data, linelen, mode)
      ensures Valid() && Repr == old(Repr) + {b} && b !in Spine && View() == old(View())
    {
      b := new SockBuff(data, linelen, mode);
      Repr := Repr + {b};
    }

    /** `_net_buffer` for SB_PRI. */
    method BufferUrgent(data: seq<T>)
      requires Valid()
      modifies Repr
      ensures Valid() && fresh(Repr - old(Repr))
      ensures View() == PushUrgent(old(View()), data)
    {
      var b := NewNode(data, 0, Pack);
      if head != null && head.mode == Pack && head.linelen > |head.data| {
        LinkSecond(b);
      } else {
        LinkFirst(b);
      }
    }

    method LinkFirst(b: SockBuff<T>)
      requires Valid() && b !in Spine && b in Repr
      modifies this, b
      ensures Valid() && Repr == old(Repr)
      ensures View() == [old(b.Value())] + old(View())
    {
      b.next := head;
      head := b;
      if last == null {
        last := b;
      }
      Spine := [b] + Spine;
      assert forall i :: 1 <= i < |Spine| ==> Spine[i] == old(Spine)[i - 1];
    }

    method LinkSecond(b: SockBuff<T>)
      requires Valid() && b !in Spine && b in Repr && head != null
      modifies this, b, head
      ensures Valid() && Repr == old(Repr)
      ensures View() == [old(View())[0], old(b.Value())] + old(View())[1..]
    {
      b.next := head.next;
      head.next := b;
      if b.next == null {
        last := b;
      }
      Spine := [Spine[0], b] + Spine[1..];
      assert forall i :: 2 <= i < |Spine| ==> Spine[i] == old(Spine)[i - 1];
    }

    /** `_net_buffer` for SB_IN and SB_OUT. */
    method Buffer(mode: Mode, data: seq<T>)
      requires Valid()
      modifies Repr
      ensures Valid() && fresh(Repr - old(Repr))
      ensures View() == Append(old(View()), mode, data)
    {
      if mode == Raw && last != null && last.mode == mode {
        GrowLast(data);
      } else {
        var b := NewNode(data, |data|, mode);
        LinkLast(b);
      }
    }

    method GrowLast(more: seq<T>)
      requires Valid() && last != null
      modifies last
      ensures Valid()
      ensures var q := old(View());
              var l := q[|q| - 1];
              View() == q[..|q| - 1] + [Buf(l.data + more, l.linelen + |more|, l.mode)]
    {
      last.data := last.data + more;
      last.linelen := last.linelen + |more|;
    }

    method LinkLast(b: SockBuff<T>)
      requires Valid() && b !in Spine && b in Repr && b.next == null
      modifies this, last
      ensures Valid() && Repr == old(Repr)
      ensures View() == old(View()) + [old(b.Value())]
    {
      if head != null {
        last.next := b;
      } else {
        head := b;
      }
      last := b;
      Spine := Spine + [b];
    }

    /** `_net_unbuffer`; the caller has checked that the queue is not empty. */
    method Unbuffer(n: nat) returns (ok: bool, got: seq<T>)
      requires Valid() && head != null
      modifies Repr
      ensures Valid() && Repr == old(Repr)
      ensures ok == (n <= |old(View())[0].data|)
      ensures ok ==> got == old(View())[0].data[..n] && View() == DropFront(old(View()), n)
      ensures !ok ==> got == [] && View() == old(View())
    {
      if |head.data| < n {
        return false, [];
      }
      ok, got := true, head.data[..n];
      if n < |head.data| {
        head.data := head.data[n..];
      } else {
        UnlinkFirst();
      }
    }

    method UnlinkFirst()
      requires Valid() && head != null
      modifies this
      ensures Valid() && Repr == old(Repr) && View() == old(View())[1..]
    {
      head := head.next;
      Spine := Spine[1..];
      if head == null {
        last := null;
      }
    }

    /** `_net_freebuffers` followed by clearing the pointers. */
    method Discard()
      requires Valid()
      modifies this
      ensures Valid() && View() == [] && Repr == old(Repr)
    {
      head, last, Spine := null, null, [];
    }
  }
}
