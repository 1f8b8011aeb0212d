/** `rdt/rdt_sim.cc` as a program: the timer and link routines over the linked event chain,
    and one turn of the main loop over both endpoints, proved to be a step of `Simulation`. */
module SimulatorProgram {
  import opened Packets
  import opened Fragments
  import opened EventChains
  import opened Simulation
  import S = SenderSide
  import R = ReceiverSide
  import P = Protocol

  /** `sim_core` and `sender_timer`. */
  class SimCore {
    const chain: EventChain
    var senderTimer: Event?
    ghost var nextId: nat

    ghost function View(): Core
      reads this, chain, chain.nodes
    {
      Core(chain.simTime, chain.View(), if senderTimer == null then None else Some(senderTimer.id), nextId)
    }

    /** The timer points at an event of the chain. */
    ghost predicate Linked()
      reads this, chain, chain.nodes
    {
      chain.Valid() && (senderTimer != null ==> senderTimer in chain.Events())
    }

    ghost predicate Valid()
      reads this, chain, chain.nodes
    {
      Linked() && CoreOk(View())
    }

    constructor ()
      ensures Valid() && View() == Core(0.0, [], None, 0)
      ensures fresh(chain) && chain.nodes == []
    {
      chain := new EventChain();
      senderTimer := null;
      nextId := 0;
    }

    /** Allocates an event and puts it on the chain. */
    method Post(what: Happening, delay: Delay) returns (e: Event)
      requires Linked()
      modifies `nextId, chain, chain.Events()
      ensures Linked() && fresh(chain.Events() - old(chain.Events())) && e in chain.Events() && e.id == old(nextId)
      ensures View() == Transmit(old(View()), what, delay)
    {
      hide CoreOk, Insert, EventChain.Valid, EventChain.View;
      e := new Event(nextId, what, chain.simTime + delay);
      nextId := nextId + 1;
      chain.Schedule(e);
    }

    /** `Sender_StopTimer` */
    method StopTimer()
      requires Valid()
      modifies `senderTimer, chain, chain.Events()
      ensures Valid() && fresh(chain.Events() - old(chain.Events())) && senderTimer == null
      ensures View() == Simulation.StopTimer(old(View()))
    {
      hide Insert, Remove, Sorted, TimerEntry;
      StopTimerOk(View());
      if senderTimer != null {
        chain.Cancel(senderTimer);
        senderTimer := null;
      }
    }

    /** `Sender_StartTimer`. With a negative timeout the event is never scheduled. */
    method StartTimer(timeout: real)
      requires Valid()
      modifies `senderTimer, `nextId, chain, chain.Events()
      ensures timeout >= 0.0 ==> Valid()
      ensures chain.Valid() && fresh(chain.Events() - old(chain.Events()))
      ensures View() == Simulation.StartTimer(old(View()), timeout)
    {
      hide Insert, Remove, CoreOk, EventChain.Valid, EventChain.View, Simulation.StopTimer;
      ghost var c := View();
      if timeout >= 0.0 {
        StartTimerOk(c, timeout);
      }
      if senderTimer != null {
        StopTimer();
      }
      assert View() == Simulation.StopTimer(c) by { StopTimerUnset(c); }
      var e := new Event(nextId, Timeout, chain.simTime + timeout);
      nextId := nextId + 1;
      chain.Schedule(e);
      senderTimer := e;
    }

    /** `Sender_isTimerSet`: whether a timeout is still to come. */
    method IsTimerSet() returns (isSet: bool)
      requires Valid()
      ensures isSet <==> exists e :: e in View().chain && e.what.Timeout?
      ensures isSet == (senderTimer != null)
    {
      hide Sorted, DistinctIds;
      isSet := senderTimer != null;
    }

    /** `Sender_ToLowerLayer` and `Receiver_ToLowerLayer`: the packet is lost, or what is left
        of it is scheduled to arrive. */
    method ToLowerLayer(toReceiver: bool, fate: Fate)
      requires Valid()
      modifies `nextId, chain, chain.Events()
      ensures Valid() && fresh(chain.Events() - old(chain.Events()))
      ensures View() == if fate.Lost? then old(View())
        else Transmit(old(View()), if toReceiver then DataIn(fate.bytes) else AckIn(fate.bytes), fate.delay)
    {
      hide CoreOk, Transmit;
      if fate.Lost? {
        return;
      }
      var what := if toReceiver then DataIn(fate.bytes) else AckIn(fate.bytes);
      TransmitOk(View(), what, fate.delay);
      var e := Post(what, fate.delay);
    }

    method SenderCall(call: S.Call, fate: Fate)
      requires Valid()
      modifies `senderTimer, `nextId, chain, chain.Events()
      ensures Valid() && fresh(chain.Events() - old(chain.Events()))
      ensures View() == Simulation.SenderCall(old(View()), call, fate)
    {
      hide CoreOk, Transmit, Simulation.StartTimer, Simulation.StopTimer, Valid;
      match call {
        case StartTimer => StartTimer(TIMEOUT);
        case StopTimer => StopTimer();
        case ToLower(_) => ToLowerLayer(true, fate);
      }
    }

    /** Performs the calls of a sender handler, in order. */
    method SenderCalls(calls: seq<S.Call>, fates: seq<Fate>)
      requires Valid() && |fates| == |calls|
      modifies `senderTimer, `nextId, chain, chain.Events()
      ensures Valid() && fresh(chain.Events() - old(chain.Events()))
      ensures View() == Simulation.SenderCalls(old(View()), calls, fates)
    {
      hide CoreOk, Simulation.SenderCall, Valid, View;
      var i := 0;
      while i < |calls|
        invariant 0 <= i <= |calls| && Valid() && fresh(chain.Events() - old(chain.Events()))
        invariant View() == Simulation.SenderCalls(old(View()), calls[..i], fates[..i])
      {
        assert calls[..i + 1][..i] == calls[..i] && fates[..i + 1][..i] == fates[..i];
        SenderCall(calls[i], fates[i]);
        i := i + 1;
      }
      assert calls[..i] == calls && fates[..i] == fates;
    }

    method ReceiverCall(call: R.Call, fate: Fate)
      requires Valid()
      modifies `nextId, chain, chain.Events()
      ensures Valid() && fresh(chain.Events() - old(chain.Events()))
      ensures View() == Simulation.ReceiverCall(old(View()), call, fate)
    {
      hide CoreOk, Transmit, Valid;
      match call {
        case ToUpper(_) =>
        case ToLower(_) => ToLowerLayer(false, fate);
      }
    }

    /** Performs the calls of a receiver handler, in order, and counts what goes up. */
    method ReceiverCalls(calls: seq<R.Call>, fates: seq<Fate>) returns (chars: nat)
      requires Valid() && |fates| == |calls|
      modifies `nextId, chain, chain.Events()
      ensures Valid() && fresh(chain.Events() - old(chain.Events())) && chars == UpperTotal(calls)
      ensures View() == Simulation.ReceiverCalls(old(View()), calls, fates)
    {
      hide CoreOk, Simulation.ReceiverCall, Valid, View;
      var i := 0;
      chars := 0;
      while i < |calls|
        invariant 0 <= i <= |calls| && Valid() && fresh(chain.Events() - old(chain.Events()))
        invariant chars == UpperTotal(calls[..i])
        invariant View() == Simulation.ReceiverCalls(old(View()), calls[..i], fates[..i])
      {
        assert calls[..i + 1][..i] == calls[..i] && fates[..i + 1][..i] == fates[..i];
        if calls[i].ToUpper? {
          chars := chars + |calls[i].msg|;
        }
        ReceiverCall(calls[i], fates[i]);
        i := i + 1;
      }
      assert calls[..i] == calls && fates[..i] == fates;
    }

    /** Takes the first event; when it is the timer's, the timer pointer is cleared, as the main
        loop does before it calls the handler. */
    method Next() returns (e: Event?)
      requires Valid()
      modifies `senderTimer, chain, chain.Events()
      ensures (e == null) == (old(View()).chain == [])
      ensures e == null ==> View() == old(View())
      ensures e != null ==> e in old(chain.Events()) && e !in chain.Events() && e.Value() == old(View()).chain[0]
      ensures e != null ==> View() == Pop(old(View()))
      ensures Valid() && fresh(chain.Events() - old(chain.Events()))
    {
      hide Sorted, DistinctIds;
      ghost var c := View();
      e := chain.NextEvent();
      if e == null {
        return;
      }
      PopOk(c);
      if e.what.Timeout? {
        senderTimer := null;
      }
    }
  }

  lemma StartCore()
    ensures Transmit(Core(0.0, [], None, 0), Arrival, 0.0) == Simulation.START.core
    ensures CoreOk(Simulation.START.core)
  {
    StartInv();
    assert Simulation.START.core.now == 0.0;
  }

  /** The whole program: the simulation core, the endpoints and the character counts. The sets
      of packets ever sent are kept for the proof only. */
  class Program {
    const core: SimCore
    const sender: S.SenderEndpoint
    const receiver: R.ReceiverEndpoint
    var totCharsSent: nat
    var totCharsDelivered: nat
    ghost var data: set<Packet>
    ghost var acks: set<Packet>

    /** The endpoints share no array. */
    ghost predicate Apart()
      reads receiver
    {
      {receiver.curData as object, receiver.window as object, receiver.validChecks as object}
      !! {sender.buffer as object, sender.windows as object}
    }

    ghost predicate Parts()
      reads this, core, core.chain, core.chain.Events(), sender, sender.buffer, sender.windows
      reads receiver, receiver.curData, receiver.window, receiver.validChecks
    {
      Apart() && core.Valid() && sender.Valid() && receiver.Shaped() && receiver.Valid()
    }

    ghost function Protocol(): P.State
      requires receiver.Shaped()
      reads this, core, sender, receiver, receiver.curData, receiver.window, receiver.validChecks
    {
      P.State(sender.View(), core.senderTimer != null, receiver.View(), data, acks)
    }

    ghost function View(): World
      requires receiver.Shaped()
      reads this, core, core.chain, core.chain.Events(), sender
      reads receiver, receiver.curData, receiver.window, receiver.validChecks
    {
      World(Protocol(), core.View(), totCharsSent, totCharsDelivered)
    }

    ghost predicate Valid()
      reads this, core, core.chain, core.chain.Events(), sender, sender.buffer, sender.windows
      reads receiver, receiver.curData, receiver.window, receiver.validChecks
    {
      Parts() && Inv(View())
    }

    constructor ()
      ensures Valid() && View() == Simulation.START
    {
      hide CoreOk, Inv, Transmit, SimCore.Linked, EventChain.Valid, EventChain.View;
      hide S.SenderEndpoint.Valid, R.ReceiverEndpoint.Valid, R.ReceiverEndpoint.Asm, R.HeldIn;
      core := new SimCore();
      sender := new S.SenderEndpoint();
      receiver := new R.ReceiverEndpoint();
      totCharsSent := 0;
      totCharsDelivered := 0;
      data := {};
      acks := {};
      new;
      var e := core.Post(Arrival, 0.0);
      StartCore();
      StartInv();
      assert core.View() == Simulation.START.core;
      assert core.Valid() && sender.Valid() && receiver.Valid();
      assert Apart();
      assert sender.View() == S.IDLE && receiver.View() == R.WAITING;
    }

    /** Performs what a sender handler asked for; `a` is the state before its event was taken. */
    method PerformSender(calls: seq<S.Call>, fates: seq<Fate>)
      requires Parts() && |fates| == |calls|
      modifies `data, core, core.chain, core.chain.Events()
      ensures Parts() && fresh(core.chain.Events() - old(core.chain.Events()))
      ensures core.View() == Simulation.SenderCalls(old(core.View()), calls, fates)
      ensures var timer := P.TimerAfter(old(core.senderTimer) != null, calls);
        Protocol() == old(Protocol()).(data := old(data) + P.SenderSent(calls), timer := timer)
    {
      hide CoreOk, Simulation.SenderCalls, P.TimerAfter, EventChain.Valid, EventChain.View;
      hide S.SenderEndpoint.Valid, R.ReceiverEndpoint.Valid;
      SenderCallsOk(core.View(), calls, fates);
      core.SenderCalls(calls, fates);
      data := data + P.SenderSent(calls);
    }

    /** The arrival of a message at the sender. */
    method OnArrival(msg: Message, link: nat -> Fate) returns (ghost st: P.Step)
      requires Parts() && sender.nextMessageSeq - sender.curMessageSeq < S.MAX_BUFFER_SIZE
      requires Fits(sender.msgs + [msg])
      modifies `data, `totCharsSent, core, core.chain, core.chain.Events(), sender, sender.buffer, sender.windows
      ensures Parts() && fresh(core.chain.Events() - old(core.chain.Events()))
      ensures st.event == P.Submit(msg) && st.up == [] && P.Next(old(Protocol()), st, Protocol())
      ensures core.View() == Simulation.SenderCalls(old(core.View()), st.down, Fates(link, |st.down|))
      ensures totCharsSent == old(totCharsSent) + |msg|
    {
      hide Simulation.SenderCalls, P.TimerAfter, EventChain.View, SimCore.Valid, SimCore.View;
      hide S.FromUpperLayer, Fits, S.SenderEndpoint.Valid, S.SenderEndpoint.Consistent, Simulation.SenderCall;
      hide R.ReceiverEndpoint.Valid, R.ReceiverEndpoint.View, R.ReceiverEndpoint.Shaped, Fates, P.SenderSent;
      totCharsSent := totCharsSent + |msg|;
      var timerSet := core.IsTimerSet();
      var calls := sender.FromUpper(msg, timerSet);
      assert Parts();
      PerformSender(calls, Fates(link, |calls|));
      st := P.Step(P.Submit(msg), calls, []);
    }

    /** A packet from the link arrives at the sender. */
    method OnAck(pkt: Packet, link: nat -> Fate) returns (ghost st: P.Step)
      requires Parts() && (Verified(pkt) ==> pkt in acks)
      modifies `data, core, core.chain, core.chain.Events(), sender, sender.windows
      ensures Parts() && fresh(core.chain.Events() - old(core.chain.Events()))
      ensures st.event == P.AckIn(pkt) && st.up == [] && P.Next(old(Protocol()), st, Protocol())
      ensures core.View() == Simulation.SenderCalls(old(core.View()), st.down, Fates(link, |st.down|))
    {
      hide Simulation.SenderCalls, P.TimerAfter, EventChain.View, SimCore.Valid, SimCore.View;
      hide S.FromLowerLayer, Verified, SeqOf, S.SenderEndpoint.Valid, S.SenderEndpoint.View;
      hide R.ReceiverEndpoint.Valid, R.ReceiverEndpoint.View, R.ReceiverEndpoint.Shaped;
      var calls := sender.FromLower(pkt);
      PerformSender(calls, Fates(link, |calls|));
      st := P.Step(P.AckIn(pkt), calls, []);
    }

    /** The timer expires; its pointer has just been cleared. */
    method OnTimeout(link: nat -> Fate) returns (ghost st: P.Step)
      requires Parts() && core.senderTimer == null
      modifies `data, core, core.chain, core.chain.Events(), sender, sender.windows
      ensures Parts() && fresh(core.chain.Events() - old(core.chain.Events()))
      ensures st.event == P.Expire && st.up == [] && P.Next(old(Protocol()).(timer := true), st, Protocol())
      ensures core.View() == Simulation.SenderCalls(old(core.View()), st.down, Fates(link, |st.down|))
    {
      hide Simulation.SenderCalls, P.TimerAfter, EventChain.View, SimCore.Valid, SimCore.View;
      hide S.TimedOut, S.SenderEndpoint.Valid, S.SenderEndpoint.View;
      hide R.ReceiverEndpoint.Valid, R.ReceiverEndpoint.View, R.ReceiverEndpoint.Shaped;
      SenderWindow();
      var calls := sender.Timeout();
      PerformSender(calls, Fates(link, |calls|));
      st := P.Step(P.Expire, calls, []);
    }

    lemma SenderWindow()
      requires sender.Valid()
      ensures sender.View().ackExpected <= |sender.View().built|
    {
      hide Fits, S.CarryAll;
    }

    /** A packet from the link arrives at the receiver. */
    method OnData(pkt: Packet, link: nat -> Fate) returns (ghost st: P.Step)
      requires Parts() && (Verified(pkt) ==> pkt in data)
      requires R.Digestible(receiver.View(), pkt)
      requires R.Receive(receiver.View(), pkt).expected + R.WINDOWS_SIZE < 0x8000_0000
      modifies `acks, `totCharsDelivered, core, core.chain, core.chain.Events()
      modifies receiver, receiver.curData, receiver.window, receiver.validChecks
      ensures Parts() && fresh(core.chain.Events() - old(core.chain.Events()))
      ensures st.event == P.DataIn(pkt) && st.down == [] && P.Next(old(Protocol()), st, Protocol())
      ensures core.View() == Simulation.ReceiverCalls(old(core.View()), st.up, Fates(link, |st.up|))
      ensures totCharsDelivered == old(totCharsDelivered) + UpperTotal(st.up)
    {
      hide Simulation.ReceiverCalls, UpperTotal, EventChain.View, SimCore.Valid, SimCore.View;
      hide S.SenderEndpoint.Valid, S.SenderEndpoint.View, P.ReceiverSent;
      hide R.ReceiverEndpoint.Valid, R.ReceiverEndpoint.View, R.Digestible, R.Receive, R.Answers, Verified;
      var calls := receiver.FromLower(pkt);
      var chars := core.ReceiverCalls(calls, Fates(link, |calls|));
      totCharsDelivered := totCharsDelivered + chars;
      acks := acks + P.ReceiverSent(calls);
      st := P.Step(P.DataIn(pkt), [], calls);
    }

    /** What is assumed of the first event before its turn: a packet whose checksum is right was
        really sent; a message finds fewer than 1000 waiting and keeps all numbers in range. */
    ghost predicate ExpectedOf(what: Happening, msg: Message)
      reads this, sender
    {
      match what
      case Arrival =>
        sender.nextMessageSeq - sender.curMessageSeq < S.MAX_BUFFER_SIZE && Fits(sender.msgs + [msg])
      case AckIn(p) => Verified(p) ==> p in acks
      case DataIn(p) => Verified(p) ==> p in data
      case Timeout => true
    }

    lemma DataExpected(p: Packet)
      requires Parts() && P.Inv(Protocol()) && (Verified(p) ==> p in data)
      ensures R.Digestible(receiver.View(), p)
      ensures R.Receive(receiver.View(), p).expected + R.WINDOWS_SIZE < 0x8000_0000
    {
      hide Verified, R.Digestible, R.Receive, R.Sound, P.HeldOk, S.CarryAll, Payloads, Reassembly, R.HeldIn;
      P.ArrivalSafe(Protocol(), p);
      P.InvParts(Protocol());
    }

    /** Hands the event just taken from the chain of `w` to its handler. */
    method Dispatch(e: Event, msg: Message, link: nat -> Fate, ghost w: World) returns (ghost st: P.Step)
      requires Parts() && receiver.Shaped() && P.Inv(w.p) && w.core.chain != [] && e.Value() == w.core.chain[0]
      requires core.View() == Pop(w.core) && Protocol() == w.p.(timer := w.p.timer && !e.what.Timeout?)
      requires e.what.Timeout? ==> w.p.timer && core.senderTimer == null
      requires ExpectedOf(e.what, msg)
      modifies this, core, core.chain, core.chain.Events(), sender, sender.buffer, sender.windows
      modifies receiver, receiver.curData, receiver.window, receiver.validChecks
      ensures Parts() && fresh(core.chain.Events() - old(core.chain.Events()))
      ensures P.Next(w.p, st, Protocol()) && st.event == EventOf(e.what, msg)
      ensures core.View() == Calls(Pop(w.core), st, Fates(link, |st.down| + |st.up|))
      ensures totCharsSent == old(totCharsSent) + if e.what.Arrival? then |msg| else 0
      ensures totCharsDelivered == old(totCharsDelivered) + UpperTotal(st.up)
    {
      hide P.Inv, P.Next, Parts, SimCore.View, Protocol, Calls, Fits, Verified, Pop, ReceiverCalls, SenderCalls;
      match e.what {
        case Arrival =>
          st := OnArrival(msg, link);
        case AckIn(pkt) =>
          st := OnAck(pkt, link);
        case Timeout =>
          st := OnTimeout(link);
        case DataIn(pkt) =>
          assert Protocol() == w.p;
          DataExpected(pkt);
          st := OnData(pkt, link);
      }
      CallsOf(Pop(w.core), st, link);
    }

    /** The recurring arrival event goes back on the chain until the time `horizon`. */
    method Recur(e: Event, gap: Delay, horizon: real)
      requires Parts() && e !in core.chain.Events()
      requires CoreOk(Simulation.Recur(core.View(), e.Value(), gap, horizon))
      modifies e, core.chain, core.chain.Events()
      ensures Parts() && Protocol() == old(Protocol())
      ensures core.View() == Simulation.Recur(old(core.View()), old(e.Value()), gap, horizon)
    {
      hide CoreOk, Insert, S.SenderEndpoint.Valid, R.ReceiverEndpoint.Valid, EventChain.Valid, EventChain.View;
      if e.what.Arrival? && core.chain.simTime < horizon {
        e.schedTime := core.chain.simTime + gap;
        core.chain.Schedule(e);
      }
    }

    /** The rest of a turn, after the event `e` has been taken from the chain of `w`. */
    method Handle(e: Event, msg: Message, gap: Delay, link: nat -> Fate, horizon: real, ghost w: World)
      returns (ghost choice: Choice, ghost st: P.Step)
      requires Parts() && Inv(w) && w.core.chain != [] && e.Value() == w.core.chain[0] && e !in core.chain.Events()
      requires core.View() == Pop(w.core) && Protocol() == w.p.(timer := w.p.timer && !e.what.Timeout?)
      requires (e.what.Timeout? ==> core.senderTimer == null) && ExpectedOf(e.what, msg)
      requires totCharsSent == w.sent && totCharsDelivered == w.delivered
      modifies e, this, core, core.chain, core.chain.Events(), sender, sender.buffer, sender.windows
      modifies receiver, receiver.curData, receiver.window, receiver.validChecks
      ensures Valid() && Simulation.Turn(w, choice, st, horizon, View())
      ensures choice.msg == msg && choice.gap == gap
      ensures forall i :: 0 <= i < |choice.fates| ==> choice.fates[i] == link(i)
    {
      hide P.Inv, P.Next, CoreOk, S.SenderEndpoint.Valid, R.ReceiverEndpoint.Valid, EventChain.Valid, EventChain.View;
      hide Calls, Simulation.Recur, Total, UpperTotal, Sorted, R.ReceiverEndpoint.View, S.SenderEndpoint.Consistent;
      hide Apart, SimCore.Valid, SimCore.View, Inv, Fates;
      InvOf(w);
      PopOk(w.core);
      st := Dispatch(e, msg, link, w);
      choice := Choice(msg, gap, Fates(link, |st.down| + |st.up|));
      FatesOf(link, |choice.fates|);
      TurnCoreOk(w, choice, st, horizon, Protocol());
      Recur(e, gap, horizon);
      TurnKeepsInv(w, choice, st, horizon, View());
    }

    /** One turn of the main loop. It ends the loop exactly when the chain is empty; then all
        that was submitted has been delivered. Otherwise it is a turn of the state machine. */
    method Turn(msg: Message, gap: Delay, link: nat -> Fate, horizon: real)
      returns (done: bool, ghost choice: Choice, ghost st: P.Step)
      requires Valid()
      requires core.View().chain != [] ==> ExpectedOf(core.View().chain[0].what, msg)
      modifies this, core, core.chain, core.chain.Events(), sender, sender.buffer, sender.windows
      modifies receiver, receiver.curData, receiver.window, receiver.validChecks
      ensures Valid()
      ensures done == (old(View()).core.chain == [])
      ensures done ==> totCharsDelivered == totCharsSent && View().p.receiver.asm.delivered == View().p.sender.msgs
      ensures !done ==> choice.msg == msg && choice.gap == gap
      ensures !done ==> forall i :: 0 <= i < |choice.fates| ==> choice.fates[i] == link(i)
      ensures if done then View() == old(View()) else Simulation.Turn(old(View()), choice, st, horizon, View())
    {
      hide P.Inv, P.Next, CoreOk, S.SenderEndpoint.Valid, R.ReceiverEndpoint.Valid, EventChain.Valid, EventChain.View;
      hide Calls, Simulation.Recur, Total, UpperTotal, Sorted, R.ReceiverEndpoint.View, S.SenderEndpoint.Consistent;
      hide Apart, SimCore.Valid, Inv, Fates;
      ghost var w := View();
      InvOf(w);
      st := P.Step(P.Expire, [], []);
      choice := Choice(msg, gap, []);
      var e := core.Next();
      done := e == null;
      if done {
        NothingLeft(w);
        return;
      }
      PopOk(w.core);
      choice, st := Handle(e, msg, gap, link, horizon, w);
    }
  }
}
