/** The simulator of `rdt/rdt_sim.cc` as a state machine: the protocol driven by the event
    chain and the one sender timer, up to the exit of the main loop. */
module Simulation {
  import opened Packets
  import opened Fragments
  import opened EventChains
  import S = SenderSide
  import R = ReceiverSide
  import P = Protocol

  datatype Option<+T> = None | Some(value: T)

  const TIMEOUT := 0.3

  /** `sim_core` and `sender_timer`; `nextId` numbers the events allocated. */
  datatype Core = Core(now: real, chain: seq<Entry>, timer: Option<nat>, nextId: nat)

  function Schedule(c: Core, e: Entry): Core {
    if e.time < c.now then c else c.(chain := Insert(c.chain, e))
  }

  function StopTimer(c: Core): Core {
    if c.timer.Some? then c.(chain := Remove(c.chain, c.timer.value), timer := None) else c
  }

  function StartTimer(c: Core, timeout: real): Core {
    var s := StopTimer(c);
    Schedule(s.(nextId := s.nextId + 1), Entry(s.nextId, s.now + timeout, Timeout)).(timer := Some(s.nextId))
  }

  /** What a link does with one packet: drop it, or bring some bytes across after a delay. */
  datatype Fate = Lost | Arrives(bytes: Packet, delay: Delay)

  type Delay = d: real | d >= 0.0 witness 0.0

  /** The fates of the next `n` calls, as the links decide them. */
  function Fates(link: nat -> Fate, n: nat): (fates: seq<Fate>)
    ensures |fates| == n
  {
    seq(n, i requires 0 <= i < n => link(i))
  }

  lemma FatesOf(link: nat -> Fate, n: nat)
    ensures forall i {:trigger Fates(link, n)[i]} :: 0 <= i < n ==> Fates(link, n)[i] == link(i)
  {
  }

  function Transmit(c: Core, what: Happening, delay: Delay): Core {
    Schedule(c.(nextId := c.nextId + 1), Entry(c.nextId, c.now + delay, what))
  }

  function SenderCall(c: Core, call: S.Call, fate: Fate): Core {
    match call
    case StartTimer => StartTimer(c, TIMEOUT)
    case StopTimer => StopTimer(c)
    case ToLower(_) => if fate.Lost? then c else Transmit(c, DataIn(fate.bytes), fate.delay)
  }

  function SenderCalls(c: Core, calls: seq<S.Call>, fates: seq<Fate>): Core
    requires |fates| == |calls|
  {
    var last := |calls| - 1;
    if calls == [] then c else SenderCall(SenderCalls(c, calls[..last], fates[..last]), calls[last], fates[last])
  }

  function ReceiverCall(c: Core, call: R.Call, fate: Fate): Core {
    if call.ToUpper? || fate.Lost? then c else Transmit(c, AckIn(fate.bytes), fate.delay)
  }

  function ReceiverCalls(c: Core, calls: seq<R.Call>, fates: seq<Fate>): Core
    requires |fates| == |calls|
  {
    var last := |calls| - 1;
    if calls == [] then c else ReceiverCall(ReceiverCalls(c, calls[..last], fates[..last]), calls[last], fates[last])
  }

  // ----- The chain and the timer

  ghost predicate TimerEntry(c: Core, e: Entry) {
    e.what.Timeout? <==> c.timer == Some(e.id)
  }

  ghost predicate TimerInChain(c: Core) {
    c.timer.Some? ==> exists e :: e in c.chain && e.id == c.timer.value
  }

  /** The chain is sorted and holds nothing from the past; events are distinct objects; the
      timer is set exactly when the chain holds a timeout, which is then the only one and
      the one the timer points to. */
  ghost predicate CoreOk(c: Core) {
    && Sorted(c.chain) && DistinctIds(c.chain)
    && (forall e {:trigger e in c.chain} :: e in c.chain ==> c.now <= e.time && e.id < c.nextId && TimerEntry(c, e))
    && TimerInChain(c)
  }

  /** Whatever `d` has that `c` has not was allocated in between. */
  ghost predicate Newer(c: Core, d: Core) {
    c.nextId <= d.nextId && forall x {:trigger x in d.chain} :: x in d.chain ==> x in c.chain || c.nextId <= x.id
  }

  lemma NewerTransitive(c: Core, d: Core, e: Core)
    requires Newer(c, d) && Newer(d, e)
    ensures Newer(c, e)
  {
  }

  lemma InsertMembers(chain: seq<Entry>, e: Entry)
    ensures forall x {:trigger x in Insert(chain, e)} :: x in Insert(chain, e) <==> x == e || x in chain
  {
    var k := PlaceExists(chain, e.time);
    InsertAt(chain, e, k);
    assert chain == chain[..k] + chain[k..];
  }

  lemma InsertDistinct(chain: seq<Entry>, e: Entry)
    requires DistinctIds(chain) && forall x :: x in chain ==> x.id != e.id
    ensures DistinctIds(Insert(chain, e))
  {
    var k := PlaceExists(chain, e.time);
    InsertAt(chain, e, k);
    var more := Insert(chain, e);
    assert forall i :: 0 <= i < |more| && i != k ==> more[i] == chain[if i < k then i else i - 1];
  }

  /** A new event that is not in the past and not a stray timeout keeps the chain in order. */
  lemma ScheduleOk(c: Core, e: Entry, timer: Option<nat>)
    requires CoreOk(c) && c.now <= e.time && e.id < c.nextId
    requires forall x :: x in c.chain ==> x.id != e.id
    requires if e.what.Timeout? then c.timer == None && timer == Some(e.id) else timer == c.timer
    ensures CoreOk(Schedule(c, e).(timer := timer))
    ensures forall x {:trigger x in Schedule(c, e).chain} :: x in Schedule(c, e).chain ==> x == e || x in c.chain
  {
    hide Sorted, DistinctIds, Insert;
    var before, after := InsertStable(c.chain, e);
    InsertDistinct(c.chain, e);
    InsertMembers(c.chain, e);
    if timer.Some? && !e.what.Timeout? {
      var x :| x in c.chain && x.id == c.timer.value;
      assert x in Insert(c.chain, e);
    } else if timer.Some? {
      assert e in Insert(c.chain, e);
    }
    assert Sorted(Insert(c.chain, e));
  }

  lemma AllocateOk(c: Core)
    requires CoreOk(c)
    ensures CoreOk(c.(nextId := c.nextId + 1))
    ensures forall x :: x in c.chain ==> x.id != c.nextId
  {
    hide Sorted, DistinctIds;
  }

  lemma StopTimerOk(c: Core)
    requires CoreOk(c)
    ensures CoreOk(StopTimer(c)) && StopTimer(c).timer == None && Newer(c, StopTimer(c))
  {
    hide Sorted, DistinctIds, Remove;
    if c.timer.Some? {
      var k :| 0 <= k < |c.chain| && c.chain[k].id == c.timer.value;
      RemoveExact(c.chain, k);
    }
  }

  lemma StopTimerUnset(c: Core)
    ensures c.timer == None ==> StopTimer(c) == c
  {
  }

  lemma StartTimerOk(c: Core, timeout: real)
    requires CoreOk(c) && timeout >= 0.0
    ensures CoreOk(StartTimer(c, timeout)) && StartTimer(c, timeout).timer.Some? && Newer(c, StartTimer(c, timeout))
  {
    hide CoreOk, Insert, StopTimer;
    StopTimerOk(c);
    var s := StopTimer(c);
    AllocateOk(s);
    ScheduleOk(s.(nextId := s.nextId + 1), Entry(s.nextId, s.now + timeout, Timeout), Some(s.nextId));
  }

  lemma TransmitOk(c: Core, what: Happening, delay: Delay)
    requires CoreOk(c) && !what.Timeout?
    ensures CoreOk(Transmit(c, what, delay)) && Transmit(c, what, delay).timer == c.timer
    ensures Newer(c, Transmit(c, what, delay))
  {
    hide CoreOk, Insert;
    AllocateOk(c);
    var d := c.(nextId := c.nextId + 1);
    ScheduleOk(d, Entry(c.nextId, c.now + delay, what), c.timer);
  }

  lemma {:induction false} SenderCallsOk(c: Core, calls: seq<S.Call>, fates: seq<Fate>)
    requires CoreOk(c) && |fates| == |calls|
    ensures var d := SenderCalls(c, calls, fates);
      CoreOk(d) && d.now == c.now && Newer(c, d) && d.timer.Some? == P.TimerAfter(c.timer.Some?, calls)
    decreases |calls|
  {
    hide CoreOk, Insert, Remove;
    if calls != [] {
      var last := |calls| - 1;
      SenderCallsOk(c, calls[..last], fates[..last]);
      var d := SenderCalls(c, calls[..last], fates[..last]);
      StartTimerOk(d, TIMEOUT);
      StopTimerOk(d);
      if calls[last].ToLower? && fates[last].Arrives? {
        TransmitOk(d, DataIn(fates[last].bytes), fates[last].delay);
      }
      NewerTransitive(c, d, SenderCall(d, calls[last], fates[last]));
    }
  }

  lemma {:induction false} ReceiverCallsOk(c: Core, calls: seq<R.Call>, fates: seq<Fate>)
    requires CoreOk(c) && |fates| == |calls|
    ensures var d := ReceiverCalls(c, calls, fates);
      CoreOk(d) && d.now == c.now && Newer(c, d) && d.timer == c.timer
    decreases |calls|
  {
    hide CoreOk, Insert, Remove;
    if calls != [] {
      var last := |calls| - 1;
      ReceiverCallsOk(c, calls[..last], fates[..last]);
      var d := ReceiverCalls(c, calls[..last], fates[..last]);
      if calls[last].ToLower? && fates[last].Arrives? {
        TransmitOk(d, AckIn(fates[last].bytes), fates[last].delay);
      }
      NewerTransitive(c, d, ReceiverCall(d, calls[last], fates[last]));
    }
  }

  /** `next_event`; a timeout taken from the chain is no longer the timer's. */
  function Pop(c: Core): Core
    requires c.chain != []
  {
    var e := c.chain[0];
    Core(e.time, c.chain[1..], if e.what.Timeout? then None else c.timer, c.nextId)
  }

  lemma PopOk(c: Core)
    requires CoreOk(c) && c.chain != []
    ensures CoreOk(Pop(c)) && c.now <= Pop(c).now
    ensures c.chain[0].what.Timeout? ==> c.timer.Some?
    ensures forall x :: x in Pop(c).chain ==> x.id != c.chain[0].id
    ensures c.chain[0].id < c.nextId
  {
    hide Sorted, DistinctIds;
    var e, d := c.chain[0], Pop(c);
    assert e in c.chain;
    TailOk(c.chain);
    if d.timer.Some? {
      var x :| x in c.chain && x.id == c.timer.value;
      assert x in d.chain;
    }
  }

  lemma TailOk(chain: seq<Entry>)
    requires chain != [] && Sorted(chain) && DistinctIds(chain)
    ensures Sorted(chain[1..]) && DistinctIds(chain[1..])
    ensures forall x {:trigger x in chain[1..]} {:trigger x in chain} ::
      x in chain[1..] <==> x in chain && x.id != chain[0].id
    ensures forall x {:trigger x in chain[1..]} :: x in chain[1..] ==> chain[0].time <= x.time
  {
    forall x | x in chain && x.id != chain[0].id ensures x in chain[1..] {
      var i :| 0 <= i < |chain| && chain[i] == x;
      assert chain[1..][i - 1] == x;
    }
    forall x | x in chain[1..] ensures x.id != chain[0].id && x in chain && chain[0].time <= x.time {
      var i :| 0 <= i < |chain| - 1 && chain[1..][i] == x;
      assert chain[i + 1] == x;
    }
  }

  // ----- The main loop

  /** The endpoints and links, the simulation core, and the two character counts. */
  datatype World = World(p: P.State, core: Core, sent: nat, delivered: nat)

  /** What the environment contributes to one turn: the message an arrival event brings and the
      gap to the next one, and the fate of each packet passed to a link. */
  datatype Choice = Choice(msg: Message, gap: Delay, fates: seq<Fate>)

  function Total(msgs: seq<Message>): nat {
    if msgs == [] then 0 else Total(msgs[..|msgs| - 1]) + |msgs[|msgs| - 1]|
  }

  function EventOf(what: Happening, msg: Message): P.Event {
    match what
    case Arrival => P.Submit(msg)
    case AckIn(p) => P.AckIn(p)
    case Timeout => P.Expire
    case DataIn(p) => P.DataIn(p)
  }

  /** After the handler of an arrival: the recurring event, until the time `horizon`. */
  function Recur(c: Core, e: Entry, gap: Delay, horizon: real): Core {
    if e.what.Arrival? && c.now < horizon then Schedule(c, e.(time := c.now + gap)) else c
  }

  /** All calls of a handler performed in order. */
  function Calls(c: Core, st: P.Step, fates: seq<Fate>): Core
    requires |fates| == |st.down| + |st.up|
  {
    ReceiverCalls(SenderCalls(c, st.down, fates[..|st.down|]), st.up, fates[|st.down|..])
  }

  lemma CallsOf(c: Core, st: P.Step, link: nat -> Fate)
    ensures st.up == [] ==>
      Calls(c, st, Fates(link, |st.down| + |st.up|)) == SenderCalls(c, st.down, Fates(link, |st.down|))
    ensures st.down == [] ==>
      Calls(c, st, Fates(link, |st.down| + |st.up|)) == ReceiverCalls(c, st.up, Fates(link, |st.up|))
  {
    var fates := Fates(link, |st.down| + |st.up|);
    if st.up == [] {
      assert fates[..|st.down|] == Fates(link, |st.down|);
    }
    if st.down == [] {
      assert fates[|st.down|..] == Fates(link, |st.up|);
    }
  }

  /** One turn of the main loop: the first event is taken from the chain and handled. */
  ghost predicate Turn(w: World, ch: Choice, st: P.Step, horizon: real, v: World) {
    && w.core.chain != []
    && var e := w.core.chain[0];
    && st.event == EventOf(e.what, ch.msg) && P.Next(w.p, st, v.p)
    && |ch.fates| == |st.down| + |st.up|
    && v.core == Recur(Calls(Pop(w.core), st, ch.fates), e, ch.gap, horizon)
    && v.sent == w.sent + (if e.what.Arrival? then |ch.msg| else 0)
    && v.delivered == w.delivered + UpperTotal(st.up)
  }

  /** The characters handed to the upper layer. */
  function UpperTotal(calls: seq<R.Call>): nat {
    var last := |calls| - 1;
    if calls == [] then 0
    else UpperTotal(calls[..last]) + (if calls[last].ToUpper? then |calls[last].msg| else 0)
  }

  /** The chain starts with one arrival at time zero. */
  const START := World(P.INITIAL, Core(0.0, [Entry(0, 0.0, Arrival)], None, 1), 0, 0)

  ghost predicate Inv(w: World) {
    && P.Inv(w.p) && CoreOk(w.core)
    && (w.p.timer <==> w.core.timer.Some?)
    && w.sent == Total(w.p.sender.msgs) && w.delivered == Total(w.p.receiver.asm.delivered)
  }

  lemma InvOf(w: World)
    requires Inv(w)
    ensures P.Inv(w.p) && CoreOk(w.core) && (w.p.timer <==> w.core.timer.Some?)
  {
    hide P.Inv, CoreOk;
  }

  /** With no event left nothing is left to do. */
  lemma NothingLeft(w: World)
    requires Inv(w) && w.core.chain == []
    ensures w.p.receiver.asm.delivered == w.p.sender.msgs && w.p.receiver.asm.partial == [] && w.delivered == w.sent
  {
    hide P.Inv, Total;
    P.NoTimerAllDelivered(w.p);
  }

  lemma {:induction false} UppersTotal(msgs: seq<Message>)
    ensures UpperTotal(R.Uppers(msgs)) == Total(msgs)
  {
    if msgs != [] {
      var ups, last := R.Uppers(msgs), |msgs| - 1;
      UppersTotal(msgs[..last]);
      assert ups[..|ups| - 1] == R.Uppers(msgs[..last]);
    }
  }

  lemma LowerCountsNothing(calls: seq<R.Call>, ack: Packet)
    ensures UpperTotal(calls + [R.ToLower(ack)]) == UpperTotal(calls)
  {
    assert (calls + [R.ToLower(ack)])[..|calls|] == calls;
  }

  lemma {:induction false} TotalConcat(a: seq<Message>, b: seq<Message>)
    ensures Total(a + b) == Total(a) + Total(b)
    decreases |b|
  {
    if b == [] {
      assert a + b == a;
    } else {
      var last := |b| - 1;
      TotalConcat(a, b[..last]);
      assert (a + b)[..|a + b| - 1] == a + b[..last];
    }
  }

  lemma DeliveredFollows(r: R.Receiver, p: Packet, t: R.Receiver, calls: seq<R.Call>)
    requires R.Digestible(r, p) && t == R.Receive(r, p) && R.Answers(r, p, t, calls)
    ensures Total(t.asm.delivered) == Total(r.asm.delivered) + UpperTotal(calls)
  {
    hide Verified, SeqOf, R.Drainable, R.Drain, R.Uppers;
    var x, y := r.asm.delivered, t.asm.delivered;
    if Verified(p) {
      var ack: Packet :| IsAck(ack, t.expected - 1) && calls == R.Completed(r, t) + [R.ToLower(ack)];
      LowerCountsNothing(R.Completed(r, t), ack);
      UppersTotal(y[|x|..]);
      TotalConcat(x, y[|x|..]);
      assert x + y[|x|..] == y;
    }
  }

  /** The counts keep up with the messages. */
  lemma CountsFollow(a: P.State, st: P.Step, b: P.State)
    requires P.Next(a, st, b)
    ensures Total(b.receiver.asm.delivered) == Total(a.receiver.asm.delivered) + UpperTotal(st.up)
    ensures Total(b.sender.msgs) == Total(a.sender.msgs) + if st.event.Submit? then |st.event.msg| else 0
  {
    hide Verified, R.Receive, R.Digestible, R.Answers, S.Sound, Fits;
    if st.event.DataIn? {
      DeliveredFollows(a.receiver, st.event.pkt, b.receiver, st.up);
    } else if st.event.Submit? {
      assert (a.sender.msgs + [st.event.msg])[..|a.sender.msgs|] == a.sender.msgs;
    }
  }

  lemma RecurOk(c: Core, e: Entry, gap: Delay, horizon: real)
    requires CoreOk(c) && e.id < c.nextId && forall x :: x in c.chain ==> x.id != e.id
    ensures CoreOk(Recur(c, e, gap, horizon)) && Recur(c, e, gap, horizon).timer == c.timer
    ensures Recur(c, e, gap, horizon).now == c.now
  {
    hide CoreOk, Insert;
    if e.what.Arrival? && c.now < horizon {
      ScheduleOk(c, e.(time := c.now + gap), c.timer);
    }
  }

  /** The chain and the timer after a turn, `b` being the endpoints and links then. */
  lemma TurnCoreOk(w: World, ch: Choice, st: P.Step, horizon: real, b: P.State)
    requires Inv(w) && w.core.chain != [] && P.Next(w.p, st, b)
    requires st.event == EventOf(w.core.chain[0].what, ch.msg) && |ch.fates| == |st.down| + |st.up|
    ensures var c := Recur(Calls(Pop(w.core), st, ch.fates), w.core.chain[0], ch.gap, horizon);
      CoreOk(c) && w.core.now <= c.now && c.timer.Some? == b.timer
  {
    hide P.Inv, P.Next, CoreOk, Total, UpperTotal, SenderCalls, ReceiverCalls, Recur;
    PopOk(w.core);
    TimerFollows(w.p, st, b);
    var e, n := w.core.chain[0], |st.down|;
    var c0 := Pop(w.core);
    var c1 := SenderCalls(c0, st.down, ch.fates[..n]);
    SenderCallsOk(c0, st.down, ch.fates[..n]);
    var c2 := ReceiverCalls(c1, st.up, ch.fates[n..]);
    ReceiverCallsOk(c1, st.up, ch.fates[n..]);
    NewerTransitive(c0, c1, c2);
    RecurOk(c2, e, ch.gap, horizon);
  }

  /** Every turn keeps the chain, the timer, the protocol and the counts in order, and time
      does not run backwards. */
  lemma TurnKeepsInv(w: World, ch: Choice, st: P.Step, horizon: real, v: World)
    requires Inv(w) && Turn(w, ch, st, horizon, v)
    ensures Inv(v) && w.core.now <= v.core.now
  {
    hide P.Inv, P.Next, CoreOk, Total, UpperTotal, Calls, Recur;
    P.NextKeepsInv(w.p, st, v.p);
    CountsFollow(w.p, st, v.p);
    TurnCoreOk(w, ch, st, horizon, v.p);
  }

  lemma TimerFollows(a: P.State, st: P.Step, b: P.State)
    requires P.Next(a, st, b)
    ensures b.timer == P.TimerAfter(a.timer && !st.event.Expire?, st.down)
    ensures st.event.Expire? ==> a.timer
  {
    hide S.Sound, S.Filled, Fits, Verified, SeqOf, R.Receive, R.Digestible;
  }

  // ----- Every run of the simulator

  ghost predicate Run(worlds: seq<World>, choices: seq<Choice>, steps: seq<P.Step>, horizon: real) {
    |worlds| == |choices| + 1 == |steps| + 1 && worlds[0] == START &&
    forall i {:trigger steps[i]} :: 0 <= i < |steps| ==> Turn(worlds[i], choices[i], steps[i], horizon, worlds[i + 1])
  }

  lemma {:induction false} RunInv(worlds: seq<World>, choices: seq<Choice>, steps: seq<P.Step>, horizon: real, i: nat)
    requires Run(worlds, choices, steps, horizon) && i < |worlds|
    ensures Inv(worlds[i])
  {
    hide Inv, Turn;
    if i == 0 {
      StartInv();
    } else {
      RunInv(worlds, choices, steps, horizon, i - 1);
      TurnKeepsInv(worlds[i - 1], choices[i - 1], steps[i - 1], horizon, worlds[i]);
    }
  }

  lemma {:induction false} TimeNeverDecreases(worlds: seq<World>, choices: seq<Choice>, steps: seq<P.Step>,
                                              horizon: real, i: nat, j: nat)
    requires Run(worlds, choices, steps, horizon) && i <= j < |worlds|
    ensures worlds[i].core.now <= worlds[j].core.now
    decreases j
  {
    hide Inv, Turn;
    if i < j {
      TimeNeverDecreases(worlds, choices, steps, horizon, i, j - 1);
      RunInv(worlds, choices, steps, horizon, j - 1);
      TurnKeepsInv(worlds[j - 1], choices[j - 1], steps[j - 1], horizon, worlds[j]);
    }
  }

  lemma StartInv()
    ensures Inv(START)
  {
    hide P.Inv;
    P.InitialInv();
    assert START.core.chain[0] in START.core.chain;
  }

  /** The exit of the main loop: when the event chain is empty every message submitted has been
      delivered, in order and byte for byte, so the two character counts agree. */
  lemma ExitMeansAllDelivered(worlds: seq<World>, choices: seq<Choice>, steps: seq<P.Step>, horizon: real)
    requires Run(worlds, choices, steps, horizon) && worlds[|steps|].core.chain == []
    ensures var w := worlds[|steps|];
      w.p.receiver.asm.delivered == w.p.sender.msgs && w.p.receiver.asm.partial == [] && w.delivered == w.sent
  {
    hide Inv, Turn, Total, Run;
    RunParts(worlds, choices, steps, horizon);
    RunInv(worlds, choices, steps, horizon, |steps|);
    NothingLeft(worlds[|steps|]);
  }

  lemma RunParts(worlds: seq<World>, choices: seq<Choice>, steps: seq<P.Step>, horizon: real)
    requires Run(worlds, choices, steps, horizon)
    ensures |worlds| == |steps| + 1
  {
    hide Turn;
  }

  /** While anything is undelivered the timer's timeout is in the chain, so the loop goes on. */
  lemma UndeliveredKeepsTimer(w: World)
    requires Inv(w) && w.p.receiver.asm.delivered != w.p.sender.msgs
    ensures exists e :: e in w.core.chain && e.what.Timeout? && w.core.timer == Some(e.id)
  {
    hide P.Inv, Sorted, DistinctIds;
    if !w.p.timer {
      P.NoTimerAllDelivered(w.p);
    }
  }
}
