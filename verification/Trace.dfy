/** What the handlers do, read off their calls, and what a whole run passes from the upper layer of the
    sender to that of the receiver. */
module Traces {
  import opened Bytes
  import opened Packets
  import opened Fragments
  import opened Protocol
  import S = SenderSide
  import R = ReceiverSide

  // ----- One step

  lemma Behind(calls: seq<S.Call>, sends: seq<S.Call>, end: seq<S.Call>)
    requires calls == [S.StartTimer] + sends + end
    ensures |calls| == 1 + |sends| + |end| && calls[0] == S.StartTimer
    ensures forall i {:trigger sends[i]} :: 0 <= i < |sends| ==> calls[1 + i] == sends[i]
    ensures end != [] ==> calls[|calls| - 1] == end[|end| - 1]
  {
  }

  /** `calls` starts the timer, passes `pkts` down in order, and at the end stops the timer if `stop`. */
  lemma StartsAndSends(calls: seq<S.Call>, pkts: seq<Packet>, stop: bool)
    requires calls == [S.StartTimer] + S.Sends(pkts) + (if stop then [S.StopTimer] else [])
    ensures |calls| == 1 + |pkts| + (if stop then 1 else 0) && calls[0] == S.StartTimer
    ensures forall i {:trigger pkts[i]} :: 0 <= i < |pkts| ==> calls[1 + i] == S.ToLower(pkts[i])
    ensures stop ==> calls[|calls| - 1] == S.StopTimer
  {
    hide S.Sends;
    S.SendsAt(pkts);
    var sends, end := S.Sends(pkts), if stop then [S.StopTimer] else [];
    Behind(calls, sends, end);
    forall i {:trigger pkts[i]} | 0 <= i < |pkts| ensures calls[1 + i] == S.ToLower(pkts[i]) {
      assert sends[i] == S.ToLower(pkts[i]);
    }
  }

  /** A submission: while the timer is set the message only waits. Otherwise the timer is started and as
      many packets are built as ten unacknowledged ones allow, and passed down, in order. */
  lemma SubmitDoes(a: State, st: Step, b: State)
    requires Inv(a) && Next(a, st, b) && st.event.Submit?
    ensures b.sender.msgs == a.sender.msgs + [st.event.msg] && b.receiver == a.receiver && b.timer && st.up == []
    ensures b.sender.ackExpected == a.sender.ackExpected && a.sender.built <= b.sender.built
    ensures a.timer ==> b.sender.built == a.sender.built && st.down == []
    ensures !a.timer ==> |b.sender.built| == Min(a.sender.ackExpected + 10, |Payloads(b.sender.msgs)|)
    ensures !a.timer ==>
      var pkts := b.sender.built[|a.sender.built|..];
      && |st.down| == 1 + |pkts| && st.down[0] == S.StartTimer
      && forall i {:trigger pkts[i]} :: 0 <= i < |pkts| ==> st.down[1 + i] == S.ToLower(pkts[i])
  {
    hide Inv, Fits, S.Sound, Payloads, S.Sends;
    NextKeepsInv(a, st, b);
    TimerAfterSubmit(a, st, b);
    if !a.timer {
      StartsAndSends(st.down, b.sender.built[|a.sender.built|..], false);
    }
  }

  lemma TimerAfterSubmit(a: State, st: Step, b: State)
    requires Inv(a) && Inv(b) && Next(a, st, b) && st.event.Submit?
    ensures b.timer
  {
    hide Fits, S.Sound, Payloads, R.Sound, HeldOk, Reassembly;
    if !a.timer {
      CallEffects(false, b.sender.built[|a.sender.built|..], false);
      assert st.down == [S.StartTimer] + S.Sends(b.sender.built[|a.sender.built|..]) + [];
    }
  }

  /** An arrival at the sender: only an intact acknowledgement of an unacknowledged packet does anything.
      It acknowledges every packet up to that one, restarts the timer, and makes room for new packets,
      which are passed down, in order; after that of the last packet the timer is stopped. */
  lemma AckDoes(a: State, st: Step, b: State)
    requires Inv(a) && Next(a, st, b) && st.event.AckIn?
    ensures b.sender.msgs == a.sender.msgs && b.receiver == a.receiver && st.up == []
    ensures var ack, s, t := SeqOf(st.event.ack), a.sender, b.sender;
      if Verified(st.event.ack) && s.ackExpected <= ack < |s.built| then
        && t.ackExpected == ack + 1 && s.built <= t.built && |t.built| == Min(ack + 11, |Payloads(s.msgs)|)
        && b.timer == (ack + 1 < |t.built|)
        && var pkts := t.built[|s.built|..];
        && |st.down| == 1 + |pkts| + (if b.timer then 0 else 1) && st.down[0] == S.StartTimer
        && (forall i {:trigger pkts[i]} :: 0 <= i < |pkts| ==> st.down[1 + i] == S.ToLower(pkts[i]))
        && (!b.timer ==> st.down[|st.down| - 1] == S.StopTimer)
      else t == s && b.timer == a.timer && (st.down == [] || (st.down == [S.StopTimer] && !a.timer))
  {
    hide Inv, Verified, SeqOf, S.Sound, Payloads, S.Sends;
    NextKeepsInv(a, st, b);
    var ack, s, t := SeqOf(st.event.ack), a.sender, b.sender;
    TimerIffOpen(a);
    TimerIffOpen(b);
    if Verified(st.event.ack) && s.ackExpected <= ack < |s.built| {
      StartsAndSends(st.down, t.built[|s.built|..], ack == |t.built| - 1);
    }
  }

  lemma TimerIffOpen(a: State)
    requires Inv(a)
    ensures a.timer <==> a.sender.ackExpected < |a.sender.built|
    ensures a.sender.ackExpected <= |a.sender.built|
  {
    hide S.CarryAll, Payloads, Coupled, NetworkOk;
  }

  /** An expiry: the timer is started again, the window is filled, and all its packets are passed down
      again, as they were built and in order. */
  lemma ExpireDoes(a: State, st: Step, b: State)
    requires Inv(a) && Next(a, st, b) && st.event.Expire?
    ensures a.timer && b.timer && b.receiver == a.receiver && st.up == []
    ensures b.sender.msgs == a.sender.msgs && b.sender.ackExpected == a.sender.ackExpected <= |b.sender.built|
    ensures a.sender.built <= b.sender.built
    ensures |b.sender.built| == Min(a.sender.ackExpected + 10, |Payloads(a.sender.msgs)|)
    ensures var pkts := b.sender.built[a.sender.ackExpected..];
      && pkts != [] && |st.down| == 1 + |pkts| && st.down[0] == S.StartTimer
      && forall i {:trigger pkts[i]} :: 0 <= i < |pkts| ==> st.down[1 + i] == S.ToLower(pkts[i])
  {
    hide Inv, S.Sound, Payloads, S.Sends;
    NextKeepsInv(a, st, b);
    TimerIffOpen(a);
    TimerIffOpen(b);
    StartsAndSends(st.down, b.sender.built[a.sender.ackExpected..], false);
  }

  /** An arrival at the receiver: a corrupted packet is not answered. Any other is answered by just one
      acknowledgement, the last call, of everything before the packet expected then. */
  lemma DataDoes(a: State, st: Step, b: State)
    requires Next(a, st, b) && st.event.DataIn?
    ensures b.sender == a.sender && b.timer == a.timer && b.data == a.data && st.down == []
    ensures !Verified(st.event.pkt) ==> b == a && st.up == []
    ensures Verified(st.event.pkt) ==>
      var last := |st.up| - 1;
      && last >= 0 && st.up[last].ToLower? && Verified(st.up[last].pkt)
      && SeqOf(st.up[last].pkt) == b.receiver.expected - 1
      && forall i {:trigger st.up[i]} :: 0 <= i < last ==> st.up[i].ToUpper?
  {
    hide Verified, SeqOf, R.Digestible, R.Drain, R.Drainable;
    var r, t := a.receiver, b.receiver;
    if Verified(st.event.pkt) {
      UppersAre(t.asm.delivered[|r.asm.delivered|..]);
      assert forall i :: 0 <= i < |st.up| - 1 ==> st.up[i] in R.Completed(r, t);
    } else {
      assert ReceiverSent(st.up) == {};
    }
  }

  // ----- A whole run

  /** The messages handed to the upper layer, in order. */
  function MessagesUp(calls: seq<R.Call>): seq<Message> {
    if calls == [] then []
    else
      var last := |calls| - 1;
      MessagesUp(calls[..last]) + if calls[last].ToUpper? then [calls[last].msg] else []
  }

  function AllUp(steps: seq<Step>): seq<Message> {
    if steps == [] then [] else AllUp(steps[..|steps| - 1]) + MessagesUp(steps[|steps| - 1].up)
  }

  /** The messages submitted, in order. */
  function AllSubmitted(steps: seq<Step>): seq<Message> {
    if steps == [] then []
    else
      var last := |steps| - 1;
      AllSubmitted(steps[..last]) + if steps[last].event.Submit? then [steps[last].event.msg] else []
  }

  lemma {:induction false} UppersGoUp(msgs: seq<Message>)
    ensures MessagesUp(R.Uppers(msgs)) == msgs
  {
    if msgs != [] {
      var ups, last := R.Uppers(msgs), |msgs| - 1;
      UppersGoUp(msgs[..last]);
      assert ups[..|ups| - 1] == R.Uppers(msgs[..last]);
    }
  }

  lemma LowerGoesNot(calls: seq<R.Call>, ack: Packet)
    ensures MessagesUp(calls + [R.ToLower(ack)]) == MessagesUp(calls)
  {
    assert (calls + [R.ToLower(ack)])[..|calls|] == calls;
  }

  /** The calls of a step hand up exactly what it completes. */
  lemma StepUp(a: State, st: Step, b: State)
    requires Next(a, st, b)
    ensures b.receiver.asm.delivered == a.receiver.asm.delivered + MessagesUp(st.up)
    ensures b.sender.msgs == a.sender.msgs + if st.event.Submit? then [st.event.msg] else []
  {
    hide Verified, SeqOf, R.Digestible, R.Drain, R.Drainable, R.Uppers, S.Sound, Fits;
    if st.event.DataIn? {
      var r, t := a.receiver, b.receiver;
      if Verified(st.event.pkt) {
        var ack: Packet :| IsAck(ack, t.expected - 1) && st.up == R.Completed(r, t) + [R.ToLower(ack)];
        LowerGoesNot(R.Completed(r, t), ack);
        UppersGoUp(t.asm.delivered[|r.asm.delivered|..]);
      }
    }
  }

  lemma {:induction false} RunUp(states: seq<State>, steps: seq<Step>, i: nat)
    requires Run(states, steps) && states[0] == INITIAL && i <= |steps|
    ensures AllUp(steps[..i]) == states[i].receiver.asm.delivered
    ensures AllSubmitted(steps[..i]) == states[i].sender.msgs
  {
    hide Next, MessagesUp;
    if i > 0 {
      RunUp(states, steps, i - 1);
      StepUp(states[i - 1], steps[i - 1], states[i]);
      assert steps[..i][..i - 1] == steps[..i - 1];
    }
  }

  /** From end to end: in every run the messages handed to the upper layer are, in order and byte for
      byte, a prefix of the messages submitted, and all of them when the timer is off. */
  lemma EndToEnd(states: seq<State>, steps: seq<Step>)
    requires Run(states, steps) && states[0] == INITIAL
    ensures AllUp(steps) <= AllSubmitted(steps)
    ensures !states[|steps|].timer ==> AllUp(steps) == AllSubmitted(steps)
  {
    hide Inv, Next, AllUp, AllSubmitted;
    assert steps[..|steps|] == steps;
    RunUp(states, steps, |steps|);
    Safety(states, steps, |steps|);
    InitialInv();
    RunKeepsInv(states, steps, |steps|);
    if !states[|steps|].timer {
      NoTimerAllDelivered(states[|steps|]);
    }
  }
}
