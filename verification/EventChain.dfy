/** The event chain of `rdt/rdt_sim.cc`: a linked list kept in order of time. */
module EventChains {
  import opened Packets

  datatype Happening = Arrival | AckIn(ack: Packet) | Timeout | DataIn(pkt: Packet)

  /** An event as a value; `id` stands for the address of the event object. */
  datatype Entry = Entry(id: nat, time: real, what: Happening)

  // ----- Specification

  ghost predicate Sorted(chain: seq<Entry>) {
    forall i, j :: 0 <= i < j < |chain| ==> chain[i].time <= chain[j].time
  }

  function Insert(chain: seq<Entry>, e: Entry): seq<Entry> {
    if chain == [] || chain[0].time > e.time then [e] + chain
    else [chain[0]] + Insert(chain[1..], e)
  }

  function Remove(chain: seq<Entry>, id: nat): seq<Entry> {
    if chain == [] then [] else if chain[0].id == id then chain[1..] else [chain[0]] + Remove(chain[1..], id)
  }

  /** The place of a new event: behind every event that is not later, before the first later one. */
  predicate IsPlace(chain: seq<Entry>, time: real, k: nat) {
    k <= |chain| && (forall i :: 0 <= i < k ==> chain[i].time <= time) && (k < |chain| ==> chain[k].time > time)
  }

  lemma {:induction false} InsertAt(chain: seq<Entry>, e: Entry, k: nat)
    requires IsPlace(chain, e.time, k)
    ensures Insert(chain, e) == chain[..k] + [e] + chain[k..]
    decreases k
  {
    if k > 0 {
      InsertAt(chain[1..], e, k - 1);
      assert chain[1..][..k - 1] == chain[1..k] && chain[1..][k - 1..] == chain[k..];
      assert chain[..k] == [chain[0]] + chain[1..k];
    }
  }

  lemma {:induction false} PlaceExists(chain: seq<Entry>, time: real) returns (k: nat)
    ensures IsPlace(chain, time, k)
  {
    k := 0;
    while k < |chain| && chain[k].time <= time
      invariant 0 <= k <= |chain| && forall i :: 0 <= i < k ==> chain[i].time <= time
    {
      k := k + 1;
    }
  }

  /** A sorted chain stays sorted, and the new event comes after all others of its time. */
  lemma InsertStable(chain: seq<Entry>, e: Entry) returns (before: seq<Entry>, after: seq<Entry>)
    requires Sorted(chain)
    ensures chain == before + after && Insert(chain, e) == before + [e] + after
    ensures Sorted(Insert(chain, e))
    ensures (forall x :: x in before ==> x.time <= e.time) && (forall x :: x in after ==> e.time < x.time)
  {
    var k := PlaceExists(chain, e.time);
    InsertAt(chain, e, k);
    before, after := chain[..k], chain[k..];
  }

  ghost predicate DistinctIds(chain: seq<Entry>) {
    forall i, j :: 0 <= i < j < |chain| ==> chain[i].id != chain[j].id
  }

  lemma FirstDiffers(chain: seq<Entry>, k: nat)
    requires DistinctIds(chain) && k < |chain|
    ensures DistinctIds(chain[1..]) && (k > 0 ==> chain[0].id != chain[k].id)
  {
  }

  lemma {:induction false} RemoveAt(chain: seq<Entry>, k: nat)
    requires DistinctIds(chain) && k < |chain|
    ensures Remove(chain, chain[k].id) == chain[..k] + chain[k + 1..]
    decreases k
  {
    hide DistinctIds;
    assert chain[0].id == chain[k].id ==> k == 0 by { FirstDiffers(chain, k); }
    if k > 0 {
      assert DistinctIds(chain[1..]) by { FirstDiffers(chain, k); }
      RemoveAt(chain[1..], k - 1);
      assert chain[1..][..k - 1] == chain[1..k] && chain[1..][k..] == chain[k + 1..];
      assert chain[..k] == [chain[0]] + chain[1..k];
    }
  }

  /** Cancelling takes out exactly that event and keeps the others in order. */
  lemma RemoveExact(chain: seq<Entry>, k: nat)
    requires Sorted(chain) && DistinctIds(chain) && k < |chain|
    ensures var rest := Remove(chain, chain[k].id);
      rest == chain[..k] + chain[k + 1..] && Sorted(rest) && DistinctIds(rest)
    ensures var rest := Remove(chain, chain[k].id);
      forall e {:trigger e in rest} :: e in rest <==> e in chain && e.id != chain[k].id
  {
    hide Sorted, DistinctIds, Remove;
    RemoveAt(chain, k);
    SortedWithout(chain, k);
    MembersWithout(chain, k);
  }

  lemma SortedWithout(chain: seq<Entry>, k: nat)
    requires Sorted(chain) && DistinctIds(chain) && k < |chain|
    ensures Sorted(chain[..k] + chain[k + 1..]) && DistinctIds(chain[..k] + chain[k + 1..])
  {
    var rest := chain[..k] + chain[k + 1..];
    assert forall i :: 0 <= i < |rest| ==> rest[i] == chain[if i < k then i else i + 1];
  }

  lemma MembersWithout(chain: seq<Entry>, k: nat)
    requires DistinctIds(chain) && k < |chain|
    ensures forall e :: e in chain[..k] + chain[k + 1..] <==> e in chain && e.id != chain[k].id
  {
    var rest := chain[..k] + chain[k + 1..];
    forall e ensures e in rest <==> e in chain && e.id != chain[k].id {
      if e in chain && e.id != chain[k].id {
        var i :| 0 <= i < |chain| && chain[i] == e;
        assert rest[if i < k then i else i - 1] == e;
      }
      if e in rest {
        var i :| 0 <= i < |rest| && rest[i] == e;
        assert chain[if i < k then i else i + 1] == e;
      }
    }
  }

  // ----- The program

  class Event {
    ghost const id: nat
    var schedTime: real
    const what: Happening
    var next: Event?

    constructor (ghost id: nat, what: Happening, schedTime: real)
      ensures this.id == id && this.what == what && this.schedTime == schedTime
    {
      this.id := id;
      this.what := what;
      this.schedTime := schedTime;
      next := null;
    }

    ghost function Value(): Entry
      reads `schedTime
    {
      Entry(id, schedTime, what)
    }
  }

  ghost function Values(nodes: seq<Event>): (chain: seq<Entry>)
    reads nodes
    ensures |chain| == |nodes| && forall i :: 0 <= i < |nodes| ==> chain[i] == nodes[i].Value()
  {
    seq(|nodes|, i requires 0 <= i < |nodes| reads nodes => nodes[i].Value())
  }

  class EventChain {
    var simTime: real
    var head: Event?
    ghost var nodes: seq<Event>

    ghost function At(i: nat): Event?
      reads `nodes
    {
      if i < |nodes| then nodes[i] else null
    }

    /** `head` and the `next` links string together exactly `nodes`. */
    ghost predicate Valid()
      reads this, nodes
    {
      && head == At(0)
      && (forall i {:trigger nodes[i].next} :: 0 <= i < |nodes| ==> nodes[i].next == At(i + 1))
      && (forall i, j :: 0 <= i < j < |nodes| ==> nodes[i] != nodes[j])
    }

    ghost function View(): seq<Entry>
      reads this, nodes
    {
      Values(nodes)
    }

    /** The events on the chain. */
    ghost function Events(): set<Event>
      reads `nodes
    {
      set e | e in nodes
    }

    constructor ()
      ensures Valid() && nodes == [] && simTime == 0.0
    {
      simTime := 0.0;
      head := null;
      nodes := [];
    }

    /** Puts `e` at position `k`, before `cur`: the link into that position, `head` or the `next`
        field of the event `prev` before it, now leads to `e`. */
    method LinkIn(prev: Event?, cur: Event?, e: Event, ghost k: nat)
      requires Valid() && e !in nodes && k <= |nodes|
      requires prev == (if k == 0 then null else nodes[k - 1]) && cur == At(k)
      modifies `head, `nodes, nodes`next, e`next
      ensures Valid() && nodes == old(nodes)[..k] + [e] + old(nodes)[k..]
    {
      e.next := cur;
      if prev == null {
        head := e;
      } else {
        prev.next := e;
      }
      nodes := nodes[..k] + [e] + nodes[k..];
    }

    /** Takes out the event at position `k`: the link into it now leads to the event behind it. */
    method LinkOut(prev: Event?, cur: Event, ghost k: nat)
      requires Valid() && k < |nodes|
      requires prev == (if k == 0 then null else nodes[k - 1]) && cur == nodes[k]
      modifies `head, `nodes, nodes`next
      ensures Valid() && nodes == old(nodes)[..k] + old(nodes)[k + 1..]
    {
      if prev == null {
        head := cur.next;
      } else {
        prev.next := cur.next;
      }
      nodes := nodes[..k] + nodes[k + 1..];
    }

    /** The search in `schedule`: past every event that is not later. */
    method FindPlace(time: real) returns (prev: Event?, cur: Event?, ghost k: nat)
      requires Valid()
      ensures IsPlace(View(), time, k) && k <= |nodes|
      ensures cur == At(k) && prev == if k == 0 then null else nodes[k - 1]
    {
      prev, cur, k := null, head, 0;
      while cur != null && cur.schedTime <= time
        invariant 0 <= k <= |nodes| && cur == At(k) && prev == if k == 0 then null else nodes[k - 1]
        invariant forall i :: 0 <= i < k ==> nodes[i].schedTime <= time
        decreases |nodes| - k
      {
        prev, cur, k := cur, cur.next, k + 1;
      }
    }

    lemma Spliced(before: seq<Entry>, was: seq<Event>, e: Event, k: nat)
      requires |before| == |was| >= k && nodes == was[..k] + [e] + was[k..]
      requires forall i :: 0 <= i < |was| ==> before[i] == was[i].Value()
      ensures View() == before[..k] + [e.Value()] + before[k..]
    {
    }

    /** `schedule` */
    method Schedule(e: Event)
      requires Valid() && e !in nodes
      modifies `head, `nodes, nodes`next, e`next
      ensures Valid()
      ensures View() == if e.schedTime < simTime then old(View()) else Insert(old(View()), e.Value())
      ensures Events() == old(Events()) + if e.schedTime < simTime then {} else {e}
    {
      hide IsPlace, Insert, Valid, At;
      if e.schedTime < simTime {
        return;
      }
      ghost var before := View();
      var prev, cur, k := FindPlace(e.schedTime);
      InsertAt(before, e.Value(), k);
      ghost var was := nodes;
      LinkIn(prev, cur, e, k);
      Spliced(before, was, e, k);
      assert was == was[..k] + was[k..];
    }

    /** `cancel`; an event that is not on the chain is ignored. */
    method Cancel(e: Event)
      requires Valid() && DistinctIds(View())
      modifies `head, `nodes, nodes`next
      ensures Valid()
      ensures View() == if e in old(nodes) then Remove(old(View()), e.id) else old(View())
      ensures Events() == old(Events()) - {e}
    {
      var prev: Event?, cur := null, head;
      ghost var k := 0;
      while cur != null && cur != e
        invariant 0 <= k <= |nodes| && cur == At(k) && prev == if k == 0 then null else nodes[k - 1]
        invariant e !in nodes[..k]
        decreases |nodes| - k
      {
        prev, cur := cur, cur.next;
        k := k + 1;
      }
      if cur == e {
        RemoveAt(View(), k);
        LinkOut(prev, cur, k);
        assert View() == old(View()[..k]) + old(View()[k + 1..]);
        Unspliced(old(nodes), k);
      }
    }

    lemma Unspliced(was: seq<Event>, at: nat)
      requires at < |was| && nodes == was[..at] + was[at + 1..]
      requires forall i, j :: 0 <= i < j < |was| ==> was[i] != was[j]
      ensures Events() == (set e | e in was) - {was[at]}
    {
      assert forall i {:trigger was[i]} :: 0 <= i < |was| && i != at ==> was[i] == nodes[if i < at then i else i - 1];
    }

    /** `next_event` */
    method NextEvent() returns (e: Event?)
      requires Valid()
      modifies `head, `nodes, `simTime
      ensures Valid()
      ensures (e == null) == (old(nodes) == [])
      ensures e == null ==> simTime == old(simTime) && nodes == []
      ensures e != null ==> e == old(nodes)[0] && simTime == e.schedTime && nodes == old(nodes)[1..]
      ensures e != null ==> View() == old(View())[1..] && e.Value() == old(View())[0]
      ensures e != null ==> Events() == old(Events()) - {e} && e in old(Events())
    {
      if head == null {
        return null;
      }
      e := head;
      head := head.next;
      simTime := e.schedTime;
      nodes := nodes[1..];
    }
  }
}
