/** What one turn of the main loop of `rdt/rdt_sim.cc` leaves on the event chain, which arrivals a run has
    and when, and what a run brings from one upper layer to the other. */
module Turns {
  import opened Packets
  import opened Fragments
  import opened EventChains
  import opened Simulation
  import opened LoopExit
  import S = SenderSide
  import R = ReceiverSide
  import P = Protocol
  import T = Traces

  // ----- Everything on the chain but timeouts

  /** What will happen when, timeouts apart. */
  function Due(chain: seq<Entry>): multiset<(Happening, real)> {
    if chain == [] then multiset{}
    else (if chain[0].what.Timeout? then multiset{} else multiset{(chain[0].what, chain[0].time)}) + Due(chain[1..])
  }

  lemma {:induction false} InsertDue(chain: seq<Entry>, e: Entry)
    ensures Due(Insert(chain, e)) == Due([e]) + Due(chain)
  {
    assert Due([e][1..]) == multiset{};
    if chain == [] || chain[0].time > e.time {
      assert ([e] + chain)[1..] == chain;
    } else {
      InsertDue(chain[1..], e);
      assert ([chain[0]] + Insert(chain[1..], e))[1..] == Insert(chain[1..], e);
    }
  }

  lemma {:induction false} RemoveDue(chain: seq<Entry>, id: nat)
    requires forall e {:trigger e in chain} :: e in chain && e.id == id ==> e.what.Timeout?
    ensures Due(Remove(chain, id)) == Due(chain)
  {
    if chain != [] {
      assert chain[0] in chain;
      if chain[0].id != id {
        assert forall e :: e in chain[1..] ==> e in chain;
        RemoveDue(chain[1..], id);
        assert ([chain[0]] + Remove(chain[1..], id))[1..] == Remove(chain[1..], id);
      }
    }
  }

  lemma StopTimerDue(c: Core)
    requires CoreOk(c)
    ensures Due(StopTimer(c).chain) == Due(c.chain) && StopTimer(c).now == c.now
  {
    hide Due, Remove, Sorted, DistinctIds, TimerInChain;
    if c.timer.Some? {
      RemoveDue(c.chain, c.timer.value);
    }
  }

  lemma ScheduleDue(c: Core, e: Entry)
    requires c.now <= e.time
    ensures Due(Schedule(c, e).chain) ==
      Due(c.chain) + if e.what.Timeout? then multiset{} else multiset{(e.what, e.time)}
  {
    hide Insert;
    InsertDue(c.chain, e);
    assert [e][1..] == [];
  }

  /** What the sender's calls put on the chain: each packet that is not lost is due after its delay. */
  function DownDue(calls: seq<S.Call>, fates: seq<Fate>, now: real): multiset<(Happening, real)>
    requires |fates| == |calls|
  {
    if calls == [] then multiset{}
    else
      var last := |calls| - 1;
      DownDue(calls[..last], fates[..last], now) +
      if !calls[last].ToLower? || fates[last].Lost? then multiset{}
      else multiset{(DataIn(fates[last].bytes), now + fates[last].delay)}
  }

  function UpDue(calls: seq<R.Call>, fates: seq<Fate>, now: real): multiset<(Happening, real)>
    requires |fates| == |calls|
  {
    if calls == [] then multiset{}
    else
      var last := |calls| - 1;
      UpDue(calls[..last], fates[..last], now) +
      if !calls[last].ToLower? || fates[last].Lost? then multiset{}
      else multiset{(AckIn(fates[last].bytes), now + fates[last].delay)}
  }

  lemma SenderCallDue(c: Core, call: S.Call, fate: Fate)
    requires CoreOk(c)
    ensures Due(SenderCall(c, call, fate).chain) == Due(c.chain) +
      if call.ToLower? && fate.Arrives? then multiset{(DataIn(fate.bytes), c.now + fate.delay)} else multiset{}
  {
    hide CoreOk, Due, Schedule, Simulation.StopTimer;
    StopTimerDue(c);
    var s := Simulation.StopTimer(c);
    match call {
      case StartTimer =>
        ScheduleDue(s.(nextId := s.nextId + 1), Entry(s.nextId, s.now + TIMEOUT, Timeout));
      case StopTimer =>
      case ToLower(_) =>
        if fate.Arrives? {
          ScheduleDue(c.(nextId := c.nextId + 1), Entry(c.nextId, c.now + fate.delay, DataIn(fate.bytes)));
        }
    }
  }

  lemma {:induction false} SenderCallsDue(c: Core, calls: seq<S.Call>, fates: seq<Fate>)
    requires CoreOk(c) && |fates| == |calls|
    ensures Due(SenderCalls(c, calls, fates).chain) == Due(c.chain) + DownDue(calls, fates, c.now)
    decreases |calls|
  {
    hide CoreOk, Due, SenderCall;
    if calls != [] {
      var last := |calls| - 1;
      SenderCallsDue(c, calls[..last], fates[..last]);
      SenderCallsOk(c, calls[..last], fates[..last]);
      SenderCallDue(SenderCalls(c, calls[..last], fates[..last]), calls[last], fates[last]);
    }
  }

  lemma ReceiverCallDue(c: Core, call: R.Call, fate: Fate)
    ensures Due(ReceiverCall(c, call, fate).chain) == Due(c.chain) +
      if call.ToLower? && fate.Arrives? then multiset{(AckIn(fate.bytes), c.now + fate.delay)} else multiset{}
  {
    hide Due, Schedule;
    if call.ToLower? && fate.Arrives? {
      ScheduleDue(c.(nextId := c.nextId + 1), Entry(c.nextId, c.now + fate.delay, AckIn(fate.bytes)));
    }
  }

  lemma {:induction false} ReceiverCallsDue(c: Core, calls: seq<R.Call>, fates: seq<Fate>)
    requires CoreOk(c) && |fates| == |calls|
    ensures Due(ReceiverCalls(c, calls, fates).chain) == Due(c.chain) + UpDue(calls, fates, c.now)
    decreases |calls|
  {
    hide CoreOk, Due, ReceiverCall;
    if calls != [] {
      var last := |calls| - 1;
      ReceiverCallsDue(c, calls[..last], fates[..last]);
      ReceiverCallsOk(c, calls[..last], fates[..last]);
      ReceiverCallDue(ReceiverCalls(c, calls[..last], fates[..last]), calls[last], fates[last]);
    }
  }

  /** Conservation: a turn takes the first event from the chain, and adds just one event for each packet
      that a link does not lose, after its delay, and the next arrival. Nothing else is lost or made up. */
  lemma TurnConserves(w: World, ch: Choice, st: P.Step, horizon: real, v: World)
    requires Inv(w) && Turn(w, ch, st, horizon, v)
    ensures var e, n := w.core.chain[0], |st.down|;
      Due(v.core.chain) == Due(w.core.chain[1..])
        + DownDue(st.down, ch.fates[..n], e.time) + UpDue(st.up, ch.fates[n..], e.time)
        + if e.what.Arrival? && e.time < horizon then multiset{(Arrival, e.time + ch.gap)} else multiset{}
    ensures v.core.now == w.core.chain[0].time
  {
    hide P.Inv, P.Next, CoreOk, Due, DownDue, UpDue, SenderCalls, ReceiverCalls, Schedule;
    var e, n := w.core.chain[0], |st.down|;
    PopOk(w.core);
    var c0 := Pop(w.core);
    SenderCallsDue(c0, st.down, ch.fates[..n]);
    SenderCallsOk(c0, st.down, ch.fates[..n]);
    var c1 := SenderCalls(c0, st.down, ch.fates[..n]);
    ReceiverCallsDue(c1, st.up, ch.fates[n..]);
    ReceiverCallsOk(c1, st.up, ch.fates[n..]);
    var c2 := ReceiverCalls(c1, st.up, ch.fates[n..]);
    if e.what.Arrival? && e.time < horizon {
      ScheduleDue(c2, e.(time := c2.now + ch.gap));
      ScheduleNow(c2, e.(time := c2.now + ch.gap));
    }
  }

  // ----- The timeout

  ghost predicate TimeoutsAt(c: Core, t: real) {
    forall e {:trigger e in c.chain} :: e in c.chain && e.what.Timeout? ==> e.time == t
  }

  lemma StopTimerClears(c: Core)
    requires CoreOk(c)
    ensures forall e {:trigger e in StopTimer(c).chain} :: e in StopTimer(c).chain ==> !e.what.Timeout?
  {
    hide StopTimer, Sorted, DistinctIds;
    StopTimerOk(c);
  }

  lemma SenderCallTimeout(c: Core, call: S.Call, fate: Fate, t: real)
    requires CoreOk(c)
    ensures call == S.StartTimer ==> TimeoutsAt(SenderCall(c, call, fate), c.now + 0.3)
    ensures call != S.StartTimer && TimeoutsAt(c, t) ==> TimeoutsAt(SenderCall(c, call, fate), t)
  {
    hide CoreOk, Schedule, Insert, Remove, Simulation.StopTimer;
    StopTimerClears(c);
    StopTimerDue(c);
    var s := Simulation.StopTimer(c);
    ScheduleDoes(s.(nextId := s.nextId + 1), Entry(s.nextId, s.now + TIMEOUT, Timeout));
    if call.ToLower? && fate.Arrives? {
      ScheduleDoes(c.(nextId := c.nextId + 1), Entry(c.nextId, c.now + fate.delay, DataIn(fate.bytes)));
    }
  }

  /** Calls that start the timer first and not again leave it set, if at all, a timeout from now. */
  lemma {:induction false} StartedTimeout(c: Core, calls: seq<S.Call>, fates: seq<Fate>)
    requires CoreOk(c) && |fates| == |calls| && calls != [] && calls[0] == S.StartTimer
    requires forall i {:trigger calls[i]} :: 0 < i < |calls| ==> calls[i] != S.StartTimer
    ensures TimeoutsAt(SenderCalls(c, calls, fates), c.now + 0.3)
    decreases |calls|
  {
    hide CoreOk, TimeoutsAt, SenderCall;
    var last := |calls| - 1;
    var d := SenderCalls(c, calls[..last], fates[..last]);
    SenderCallsOk(c, calls[..last], fates[..last]);
    SenderCallTimeout(d, calls[last], fates[last], c.now + 0.3);
    if last > 0 {
      StartedTimeout(c, calls[..last], fates[..last]);
    }
  }

  /** Calls that do not start it leave no other timeout than there was. */
  lemma {:induction false} KeptTimeout(c: Core, calls: seq<S.Call>, fates: seq<Fate>, t: real)
    requires CoreOk(c) && |fates| == |calls| && TimeoutsAt(c, t)
    requires forall i {:trigger calls[i]} :: 0 <= i < |calls| ==> calls[i] != S.StartTimer
    ensures TimeoutsAt(SenderCalls(c, calls, fates), t)
    decreases |calls|
  {
    hide CoreOk, TimeoutsAt, SenderCall;
    if calls != [] {
      var last := |calls| - 1;
      SenderCallsOk(c, calls[..last], fates[..last]);
      KeptTimeout(c, calls[..last], fates[..last], t);
      SenderCallTimeout(SenderCalls(c, calls[..last], fates[..last]), calls[last], fates[last], t);
    }
  }

  lemma {:induction false} AnswerKeepsTimeout(c: Core, calls: seq<R.Call>, fates: seq<Fate>, t: real)
    requires |fates| == |calls| && TimeoutsAt(c, t)
    ensures TimeoutsAt(ReceiverCalls(c, calls, fates), t)
    decreases |calls|
  {
    hide Schedule, Insert;
    if calls != [] {
      var last := |calls| - 1;
      AnswerKeepsTimeout(c, calls[..last], fates[..last], t);
      var d := ReceiverCalls(c, calls[..last], fates[..last]);
      if calls[last].ToLower? && fates[last].Arrives? {
        ScheduleDoes(d.(nextId := d.nextId + 1), Entry(d.nextId, d.now + fates[last].delay, AckIn(fates[last].bytes)));
      }
    }
  }

  /** The event starts the timer anew: a submission to an idle sender, an expiry, or an intact
      acknowledgement of an unacknowledged packet. */
  predicate Restarts(a: P.State, ev: P.Event) {
    match ev
    case Submit(_) => !a.timer
    case AckIn(p) => Verified(p) && a.sender.ackExpected <= SeqOf(p) < |a.sender.built|
    case Expire => true
    case DataIn(_) => false
  }

  /** Whether the first of a step's calls starts the timer; no other does. */
  lemma StartsOnce(a: P.State, st: P.Step, b: P.State)
    requires P.Inv(a) && P.Next(a, st, b)
    ensures Restarts(a, st.event) <==> st.down != [] && st.down[0] == S.StartTimer
    ensures forall i {:trigger st.down[i]} :: 0 < i < |st.down| ==> st.down[i] != S.StartTimer
  {
    hide P.Inv, P.Next, Verified, SeqOf, Payloads;
    match st.event
    case Submit(_) =>
      T.SubmitDoes(a, st, b);
      OnlySends(st.down, if a.timer then [] else b.sender.built[|a.sender.built|..]);
    case AckIn(p) =>
      T.AckDoes(a, st, b);
      if Restarts(a, st.event) {
        OnlySends(st.down, b.sender.built[|a.sender.built|..]);
      }
    case Expire =>
      T.ExpireDoes(a, st, b);
      OnlySends(st.down, b.sender.built[a.sender.ackExpected..]);
    case DataIn(_) =>
      T.DataDoes(a, st, b);
  }

  lemma OnlySends(calls: seq<S.Call>, pkts: seq<Packet>)
    requires forall i {:trigger pkts[i]} :: 0 <= i < |pkts| ==> 1 + i < |calls| && calls[1 + i] == S.ToLower(pkts[i])
    ensures forall j {:trigger calls[j]} :: 0 < j < |calls| && j <= |pkts| ==> calls[j].ToLower?
  {
    forall j {:trigger calls[j]} | 0 < j < |calls| && j <= |pkts| ensures calls[j].ToLower? {
      assert calls[1 + (j - 1)] == S.ToLower(pkts[j - 1]);
    }
  }

  /** The timeout on the chain is 0.3 s after the last event that started the timer: a turn of such an
      event sets it to that, and any other turn leaves it as it was or takes it away. */
  lemma TimeoutFollows(w: World, ch: Choice, st: P.Step, horizon: real, v: World, t: real)
    requires Inv(w) && Turn(w, ch, st, horizon, v)
    ensures Restarts(w.p, st.event) ==> TimeoutsAt(v.core, w.core.chain[0].time + 0.3)
    ensures !Restarts(w.p, st.event) && TimeoutsAt(w.core, t) ==> TimeoutsAt(v.core, t)
  {
    hide P.Inv, P.Next, CoreOk, SenderCalls, ReceiverCalls, Restarts, Schedule;
    var e, n := w.core.chain[0], |st.down|;
    StartsOnce(w.p, st, v.p);
    PopOk(w.core);
    var c0 := Pop(w.core);
    var c1 := SenderCalls(c0, st.down, ch.fates[..n]);
    var c2 := ReceiverCalls(c1, st.up, ch.fates[n..]);
    SenderCallsOk(c0, st.down, ch.fates[..n]);
    ReceiverCallsOk(c1, st.up, ch.fates[n..]);
    ScheduleDoes(c2, e.(time := c2.now + ch.gap));
    if Restarts(w.p, st.event) {
      StartedTimeout(c0, st.down, ch.fates[..n]);
      AnswerKeepsTimeout(c1, st.up, ch.fates[n..], e.time + 0.3);
    } else if TimeoutsAt(w.core, t) {
      TailMembers(w.core.chain);
      assert TimeoutsAt(c0, t);
      KeptTimeout(c0, st.down, ch.fates[..n], t);
      AnswerKeepsTimeout(c1, st.up, ch.fates[n..], t);
    }
  }

  /** When the timer was last started before turn `i`. */
  ghost function LastStart(worlds: seq<World>, steps: seq<P.Step>, i: nat): real
    requires i <= |steps| < |worlds|
  {
    if i == 0 then 0.0
    else if Restarts(worlds[i - 1].p, steps[i - 1].event) && worlds[i - 1].core.chain != [] then
      worlds[i - 1].core.chain[0].time
    else LastStart(worlds, steps, i - 1)
  }

  /** In every run the timer, when it is set, expires 0.3 s after it was last started. */
  lemma {:induction false} TimerExpiry(worlds: seq<World>, choices: seq<Choice>, steps: seq<P.Step>, horizon: real,
                                       i: nat)
    requires Run(worlds, choices, steps, horizon) && i <= |steps|
    ensures worlds[i].p.timer <==> exists e :: e in worlds[i].core.chain && e.what.Timeout?
    ensures TimeoutsAt(worlds[i].core, LastStart(worlds, steps, i) + 0.3)
  {
    hide Turn, Restarts, CoreOk, P.Inv;
    RunInv(worlds, choices, steps, horizon, i);
    TimerSet(worlds[i]);
    if i > 0 {
      TimerExpiry(worlds, choices, steps, horizon, i - 1);
      RunInv(worlds, choices, steps, horizon, i - 1);
      TurnHasEvent(worlds[i - 1], choices[i - 1], steps[i - 1], horizon, worlds[i]);
      TimeoutFollows(worlds[i - 1], choices[i - 1], steps[i - 1], horizon, worlds[i],
        LastStart(worlds, steps, i - 1) + 0.3);
    }
  }

  lemma TimerSet(w: World)
    requires Inv(w)
    ensures w.p.timer <==> exists e :: e in w.core.chain && e.what.Timeout?
  {
    hide P.Inv, Sorted, DistinctIds;
  }

  // ----- The arrivals

  lemma SenderCallKeeps(c: Core, call: S.Call, fate: Fate)
    requires CoreOk(c)
    ensures forall x {:trigger x in c.chain} ::
      x in c.chain && !x.what.Timeout? ==> x in SenderCall(c, call, fate).chain
  {
    hide Sorted, DistinctIds, Insert, Remove, TimerInChain, Schedule;
    var s := Simulation.StopTimer(c);
    if c.timer.Some? {
      forall x | x in c.chain && !x.what.Timeout? ensures x in s.chain {
        assert TimerEntry(c, x);
        RemoveOther(c.chain, x, c.timer.value);
      }
    }
    StopTimerDue(c);
    ScheduleDoes(s.(nextId := s.nextId + 1), Entry(s.nextId, s.now + TIMEOUT, Timeout));
    if call.ToLower? && fate.Arrives? {
      ScheduleDoes(c.(nextId := c.nextId + 1), Entry(c.nextId, c.now + fate.delay, DataIn(fate.bytes)));
    }
  }

  lemma {:induction false} RemoveOther(chain: seq<Entry>, x: Entry, id: nat)
    requires x in chain && x.id != id
    ensures x in Remove(chain, id)
  {
    if chain[0].id == id || x != chain[0] {
      HeadOrTail(chain, x);
      if chain[0].id != id {
        RemoveOther(chain[1..], x, id);
      }
    }
  }

  lemma {:induction false} SenderCallsKeep(c: Core, calls: seq<S.Call>, fates: seq<Fate>)
    requires CoreOk(c) && |fates| == |calls|
    ensures forall x {:trigger x in c.chain} ::
      x in c.chain && !x.what.Timeout? ==> x in SenderCalls(c, calls, fates).chain
    decreases |calls|
  {
    hide CoreOk, SenderCall;
    if calls != [] {
      var last := |calls| - 1;
      SenderCallsKeep(c, calls[..last], fates[..last]);
      SenderCallsOk(c, calls[..last], fates[..last]);
      SenderCallKeeps(SenderCalls(c, calls[..last], fates[..last]), calls[last], fates[last]);
    }
  }

  lemma {:induction false} ReceiverCallsKeep(c: Core, calls: seq<R.Call>, fates: seq<Fate>)
    requires |fates| == |calls|
    ensures forall x {:trigger x in c.chain} :: x in c.chain ==> x in ReceiverCalls(c, calls, fates).chain
    decreases |calls|
  {
    hide Schedule, Insert;
    if calls != [] {
      var last := |calls| - 1;
      ReceiverCallsKeep(c, calls[..last], fates[..last]);
      var d := ReceiverCalls(c, calls[..last], fates[..last]);
      if calls[last].ToLower? && fates[last].Arrives? {
        ScheduleDoes(d.(nextId := d.nextId + 1), Entry(d.nextId, d.now + fates[last].delay, AckIn(fates[last].bytes)));
      }
    }
  }

  /** An event that is not a timeout stays on the chain until its turn, and an arrival that comes before
      the time `horizon` then comes back after the gap. */
  lemma TurnKeeps(w: World, ch: Choice, st: P.Step, horizon: real, v: World)
    requires Inv(w) && Turn(w, ch, st, horizon, v)
    ensures forall x {:trigger x in w.core.chain[1..]} ::
      x in w.core.chain[1..] && !x.what.Timeout? ==> x in v.core.chain
    ensures var e := w.core.chain[0];
      e.what.Arrival? && e.time < horizon ==> e.(time := e.time + ch.gap) in v.core.chain
  {
    hide P.Inv, P.Next, CoreOk, SenderCalls, ReceiverCalls, Schedule;
    var e, n := w.core.chain[0], |st.down|;
    PopOk(w.core);
    var c0 := Pop(w.core);
    var c1 := SenderCalls(c0, st.down, ch.fates[..n]);
    var c2 := ReceiverCalls(c1, st.up, ch.fates[n..]);
    SenderCallsKeep(c0, st.down, ch.fates[..n]);
    SenderCallsOk(c0, st.down, ch.fates[..n]);
    ReceiverCallsKeep(c1, st.up, ch.fates[n..]);
    ReceiverCallsOk(c1, st.up, ch.fates[n..]);
    ScheduleDoes(c2, e.(time := c2.now + ch.gap));
  }

  /** Turn `i` handles an arrival. */
  predicate Arrives(w: World) {
    w.core.chain != [] && w.core.chain[0].what.Arrival?
  }

  /** The gaps drawn in the first `i` turns, together. */
  ghost function Gaps(worlds: seq<World>, choices: seq<Choice>, i: nat): real
    requires i <= |choices| < |worlds|
  {
    if i == 0 then 0.0
    else Gaps(worlds, choices, i - 1) + if Arrives(worlds[i - 1]) then choices[i - 1].gap else 0.0
  }

  /** Before turn `i` an arrival was handled at the time `horizon` or later. */
  ghost predicate Over(worlds: seq<World>, horizon: real, i: nat)
    requires i <= |worlds|
  {
    exists j {:trigger worlds[j]} :: 0 <= j < i && Arrives(worlds[j]) && horizon <= worlds[j].core.chain[0].time
  }

  /** In every run the arrivals come one after the other, the first at time 0 and each the gap after the
      one before, until one has come at the time `horizon` or later. Then there are no more. */
  lemma {:induction false} ArrivalTimes(worlds: seq<World>, choices: seq<Choice>, steps: seq<P.Step>, horizon: real,
                                        i: nat)
    requires Run(worlds, choices, steps, horizon) && i <= |steps|
    ensures OneArrival(worlds[i].core.chain)
    ensures if Over(worlds, horizon, i) then Quiet(worlds[i].core.chain)
      else Entry(0, Gaps(worlds, choices, i), Arrival) in worlds[i].core.chain
  {
    hide Turn, P.Inv, CoreOk;
    if i == 0 {
      StartArrival();
    } else {
      ArrivalTimes(worlds, choices, steps, horizon, i - 1);
      RunInv(worlds, choices, steps, horizon, i - 1);
      var w, v := worlds[i - 1], worlds[i];
      InvOf(w);
      ArrivalStep(w, choices[i - 1], steps[i - 1], horizon, v, Gaps(worlds, choices, i - 1));
      assert Over(worlds, horizon, i) <==>
        Over(worlds, horizon, i - 1) || (Arrives(w) && horizon <= w.core.chain[0].time);
    }
  }

  /** How the one arrival, due at `t` or over, fares in a turn. */
  lemma ArrivalStep(w: World, ch: Choice, st: P.Step, horizon: real, v: World, t: real)
    requires Inv(w) && Turn(w, ch, st, horizon, v) && OneArrival(w.core.chain)
    ensures OneArrival(v.core.chain)
    ensures Quiet(w.core.chain) ==> !Arrives(w) && Quiet(v.core.chain)
    ensures Entry(0, t, Arrival) in w.core.chain && !Arrives(w) ==> Entry(0, t, Arrival) in v.core.chain
    ensures Entry(0, t, Arrival) in w.core.chain && Arrives(w) ==>
      && w.core.chain[0].time == t
      && (if horizon <= t then Quiet(v.core.chain) else Entry(0, t + ch.gap, Arrival) in v.core.chain)
  {
    hide P.Inv, CoreOk, Turn;
    InvOf(w);
    TurnHasEvent(w, ch, st, horizon, v);
    OneArrivalStays(w, ch, st, horizon, v);
    TurnArrivals(w, ch, st, horizon, v);
    TurnKeeps(w, ch, st, horizon, v);
    TailMembers(w.core.chain);
    assert w.core.chain[0] in w.core.chain;
    if Entry(0, t, Arrival) in w.core.chain {
      HeadOrTail(w.core.chain, Entry(0, t, Arrival));
      OnlyOne(w.core, Entry(0, t, Arrival));
    }
  }

  lemma OnlyOne(c: Core, x: Entry)
    requires CoreOk(c) && OneArrival(c.chain) && x in c.chain && x.what.Arrival?
    ensures forall y :: y in c.chain && y.what.Arrival? ==> y == x
  {
    forall y | y in c.chain && y.what.Arrival? ensures y == x {
      var i :| 0 <= i < |c.chain| && c.chain[i] == x;
      var j :| 0 <= j < |c.chain| && c.chain[j] == y;
    }
  }

  /** The loop does not end before its time: a run comes to the empty chain only behind an arrival at the
      time `horizon` or later, and so not before that time. */
  lemma ExitNotBefore(worlds: seq<World>, choices: seq<Choice>, steps: seq<P.Step>, horizon: real) returns (i: nat)
    requires Run(worlds, choices, steps, horizon) && worlds[|steps|].core.chain == []
    ensures i < |steps| && Arrives(worlds[i]) && horizon <= worlds[i].core.chain[0].time == Gaps(worlds, choices, i)
    ensures horizon <= worlds[|steps|].core.now
  {
    hide Turn, Inv;
    ArrivalTimes(worlds, choices, steps, horizon, |steps|);
    i :| 0 <= i < |steps| && Arrives(worlds[i]) && horizon <= worlds[i].core.chain[0].time;
    ArrivalTimes(worlds, choices, steps, horizon, i);
    assert worlds[i].core.chain[0] in worlds[i].core.chain;
    RunInv(worlds, choices, steps, horizon, i);
    assert CoreOk(worlds[i].core) by { InvOf(worlds[i]); }
    OnlyOne(worlds[i].core, worlds[i].core.chain[0]);
    TurnConserves(worlds[i], choices[i], steps[i], horizon, worlds[i + 1]);
    TimeNeverDecreases(worlds, choices, steps, horizon, i + 1, |steps|);
  }

  // ----- From end to end

  /** The messages that the arrivals of a run bring, in order. */
  ghost function Messages(worlds: seq<World>, choices: seq<Choice>, i: nat): seq<Message>
    requires i <= |choices| < |worlds|
  {
    if i == 0 then []
    else Messages(worlds, choices, i - 1) + if Arrives(worlds[i - 1]) then [choices[i - 1].msg] else []
  }

  lemma {:induction false} MessagesSubmitted(worlds: seq<World>, choices: seq<Choice>, steps: seq<P.Step>,
                                             horizon: real, i: nat)
    requires Run(worlds, choices, steps, horizon) && i <= |steps|
    ensures T.AllSubmitted(steps[..i]) == Messages(worlds, choices, i)
  {
    hide P.Next, Calls, Recur;
    if i > 0 {
      MessagesSubmitted(worlds, choices, steps, horizon, i - 1);
      assert Turn(worlds[i - 1], choices[i - 1], steps[i - 1], horizon, worlds[i]);
      assert steps[..i][..i - 1] == steps[..i - 1];
    }
  }

  /** A run of the simulator is a run of the protocol. */
  lemma RunOfProtocol(worlds: seq<World>, choices: seq<Choice>, steps: seq<P.Step>, horizon: real)
    returns (states: seq<P.State>)
    requires Run(worlds, choices, steps, horizon)
    ensures P.Run(states, steps) && states[0] == P.INITIAL && |states| == |worlds| == |steps| + 1
    ensures states[|steps|] == worlds[|steps|].p
  {
    hide P.Next, Calls, Recur;
    states := seq(|worlds|, i requires 0 <= i < |worlds| => worlds[i].p);
    forall i {:trigger steps[i]} | 0 <= i < |steps| ensures P.Next(states[i], steps[i], states[i + 1]) {
      assert Turn(worlds[i], choices[i], steps[i], horizon, worlds[i + 1]);
    }
  }

  /** In every run of the simulator the messages handed up at the receiver are a prefix of those the
      arrivals brought to the sender, and when the chain is empty they are the same. */
  lemma UpperToUpper(worlds: seq<World>, choices: seq<Choice>, steps: seq<P.Step>, horizon: real)
    requires Run(worlds, choices, steps, horizon)
    ensures T.AllUp(steps) <= Messages(worlds, choices, |steps|)
    ensures worlds[|steps|].core.chain == [] ==> T.AllUp(steps) == Messages(worlds, choices, |steps|)
  {
    hide Turn, P.Run, Inv, T.AllUp, T.AllSubmitted;
    var states := RunOfProtocol(worlds, choices, steps, horizon);
    assert steps[..|steps|] == steps;
    MessagesSubmitted(worlds, choices, steps, horizon, |steps|);
    T.EndToEnd(states, steps);
    T.RunUp(states, steps, |steps|);
    if worlds[|steps|].core.chain == [] {
      ExitMeansAllDelivered(worlds, choices, steps, horizon);
    }
  }
}
