/** Both endpoints over a network that may lose, repeat, delay, reorder and detectably
    corrupt whatever was sent: a state machine whose steps are the handlers. */
module Protocol {
  import opened Bytes
  import opened Packets
  import opened Fragments
  import S = SenderSide
  import R = ReceiverSide

  /** `data` and `acks` hold every packet ever put on the two links; any of them may still
      arrive, at any time and any number of times. */
  datatype State = State(sender: S.Sender, timer: bool, receiver: R.Receiver, data: set<Packet>, acks: set<Packet>)

  const INITIAL := State(S.IDLE, false, R.WAITING, {}, {})

  datatype Event = Submit(msg: Message) | AckIn(ack: Packet) | Expire | DataIn(pkt: Packet)

  /** An event and the calls its handler made. */
  datatype Step = Step(event: Event, down: seq<S.Call>, up: seq<R.Call>)

  function TimerAfter(timer: bool, calls: seq<S.Call>): bool {
    if calls == [] then timer
    else match calls[|calls| - 1]
      case StartTimer => true
      case StopTimer => false
      case ToLower(_) => TimerAfter(timer, calls[..|calls| - 1])
  }

  function SenderSent(calls: seq<S.Call>): set<Packet> {
    set c | c in calls && c.ToLower? :: c.pkt
  }

  function ReceiverSent(calls: seq<R.Call>): set<Packet> {
    set c | c in calls && c.ToLower? :: c.pkt
  }

  /** What the sender does in a step; the timer is already off when its expiry is handled. */
  ghost predicate SenderActs(a: State, st: Step, b: State) {
    && st.up == [] && b.receiver == a.receiver && b.acks == a.acks
    && b.data == a.data + SenderSent(st.down)
    && b.timer == TimerAfter(a.timer && !st.event.Expire?, st.down)
  }

  /** Any packet may arrive, but one whose checksum is right was really sent. */
  ghost predicate Next(a: State, st: Step, b: State) {
    match st.event
    case Submit(m) =>
      SenderActs(a, st, b) && Fits(a.sender.msgs + [m]) && S.FromUpperLayer(a.sender, m, a.timer, b.sender, st.down)
    case AckIn(p) =>
      SenderActs(a, st, b) && (Verified(p) ==> p in a.acks) && S.FromLowerLayer(a.sender, p, b.sender, st.down)
    case Expire =>
      && SenderActs(a, st, b) && a.timer && a.sender.ackExpected <= |a.sender.built|
      && S.TimedOut(a.sender, b.sender, st.down)
    case DataIn(p) =>
      && (Verified(p) ==> p in a.data) && R.Digestible(a.receiver, p)
      && b == a.(receiver := R.Receive(a.receiver, p), acks := a.acks + ReceiverSent(st.up))
      && st.down == [] && R.Answers(a.receiver, p, b.receiver, st.up)
  }

  // ----- The invariant

  /** What the receiver holds are the sender's own packets, filed under their numbers. */
  ghost predicate HeldOk(held: map<int, Packet>, built: seq<Packet>) {
    forall s {:trigger held[s]} {:trigger s in held} :: s in held ==> 0 <= s < |built| && held[s] == built[s]
  }

  ghost predicate AcksOk(acks: set<Packet>, expected: int) {
    forall p {:trigger SeqOf(p)} :: p in acks ==> -1 <= SeqOf(p) < expected
  }

  ghost predicate Coupled(a: State) {
    && a.sender.ackExpected <= a.receiver.expected <= |a.sender.built|
    && R.Sound(a.receiver)
    && HeldOk(a.receiver.held, a.sender.built)
    && a.receiver.expected <= |Payloads(a.sender.msgs)|
    && a.receiver.asm == Reassembly(a.sender.msgs, a.receiver.expected)
  }

  ghost predicate TimerOk(a: State) {
    && (a.timer <==> a.sender.ackExpected < |a.sender.built|)
    && (!a.timer ==> |a.sender.built| == |Payloads(a.sender.msgs)|)
  }

  ghost predicate NetworkOk(a: State) {
    && (forall p {:trigger p in a.data} {:trigger p in a.sender.built} :: p in a.data <==> p in a.sender.built)
    && AcksOk(a.acks, a.receiver.expected)
  }

  ghost predicate Inv(a: State) {
    S.Sound(a.sender) && Coupled(a) && TimerOk(a) && NetworkOk(a)
  }

  // ----- Sender steps keep it

  lemma {:induction false} TimerUnchanged(timer: bool, calls: seq<S.Call>, sends: seq<S.Call>)
    requires forall c :: c in sends ==> c.ToLower?
    ensures TimerAfter(timer, calls + sends) == TimerAfter(timer, calls)
    decreases sends
  {
    if sends == [] {
      assert calls + sends == calls;
    } else {
      var last := |sends| - 1;
      var all := calls + sends;
      assert all[..|all| - 1] == calls + sends[..last] && all[|all| - 1] == sends[last];
      assert sends[last].ToLower?;
      TimerUnchanged(timer, calls, sends[..last]);
    }
  }

  lemma SendsSent(pkts: seq<Packet>, more: seq<S.Call>)
    requires forall c :: c in more ==> !c.ToLower?
    ensures var sent := SenderSent([S.StartTimer] + S.Sends(pkts) + more);
      forall p {:trigger p in sent} {:trigger p in pkts} :: p in sent <==> p in pkts
  {
    hide S.Sends;
    S.SendsAt(pkts);
    var calls := [S.StartTimer] + S.Sends(pkts) + more;
    forall p | p in pkts ensures p in SenderSent(calls) {
      var i :| 0 <= i < |pkts| && pkts[i] == p;
      assert calls[i + 1] == S.Sends(pkts)[i] == S.ToLower(p);
      assert S.ToLower(p) in calls;
    }
  }

  /** The calls of a handler that starts the timer, sends `pkts` and perhaps stops the timer. */
  lemma CallEffects(timer: bool, pkts: seq<Packet>, stop: bool)
    ensures var calls := [S.StartTimer] + S.Sends(pkts) + (if stop then [S.StopTimer] else []);
      && TimerAfter(timer, calls) == !stop
      && forall p {:trigger p in SenderSent(calls)} {:trigger p in pkts} :: p in SenderSent(calls) <==> p in pkts
  {
    var sends := [S.StartTimer] + S.Sends(pkts);
    S.SendsAt(pkts);
    SendsSent(pkts, if stop then [S.StopTimer] else []);
    TimerUnchanged(timer, [S.StartTimer], S.Sends(pkts));
    assert TimerAfter(timer, [S.StartTimer]);
    if stop {
      assert (sends + [S.StopTimer])[..|sends|] == sends;
    } else {
      assert sends + [] == sends;
    }
  }

  /** The links have seen just the packets built when those that are new, and perhaps some older ones, have
      been sent. */
  lemma AllSent(data: set<Packet>, built: seq<Packet>, sent: set<Packet>, more: seq<Packet>, from: nat)
    requires forall p {:trigger p in data} {:trigger p in built} :: p in data <==> p in built
    requires built <= more && from <= |built|
    requires forall p {:trigger p in sent} {:trigger p in more[from..]} :: p in sent <==> p in more[from..]
    ensures forall p {:trigger p in data + sent} {:trigger p in more} :: p in data + sent <==> p in more
  {
    forall p | p in more ensures p in data + sent {
      var i :| 0 <= i < |more| && more[i] == p;
      if i < from {
        assert built[i] == p;
      } else {
        assert more[from..][i - from] == p;
      }
    }
  }

  /** Everything the receiver knows stays right when messages or packets are added. */
  lemma CoupledExtends(a: State, b: State)
    requires Coupled(a) && b.receiver == a.receiver && a.sender.built <= b.sender.built
    requires b.sender.ackExpected <= a.receiver.expected
    requires b.sender.msgs == a.sender.msgs || exists m :: b.sender.msgs == a.sender.msgs + [m]
    ensures Coupled(b)
  {
    if b.sender.msgs != a.sender.msgs {
      var m :| b.sender.msgs == a.sender.msgs + [m];
      ReassemblyExtends(a.sender.msgs, m, a.receiver.expected);
    }
  }

  lemma SubmitKeepsInv(a: State, st: Step, b: State)
    requires Inv(a) && Next(a, st, b) && st.event.Submit?
    ensures Inv(b)
  {
    hide Fits, S.CarryAll, Reassembly, Payloads, Cut, R.Sound;
    var m := st.event.msg;
    S.SubmitKeepsSound(a.sender, m);
    PayloadsAppend(a.sender.msgs, m);
    CoupledExtends(a, b);
    if !a.timer {
      var added := b.sender.built[|a.sender.built|..];
      CallEffects(a.timer, added, false);
      assert st.down == [S.StartTimer] + S.Sends(added) + [];
      AllSent(a.data, a.sender.built, SenderSent(st.down), b.sender.built, |a.sender.built|);
    } else {
      assert SenderSent(st.down) == {};
    }
  }

  lemma AckKeepsInv(a: State, st: Step, b: State)
    requires Inv(a) && Next(a, st, b) && st.event.AckIn?
    ensures Inv(b)
  {
    hide Fits, S.CarryAll, Reassembly, Payloads, Cut, R.Sound, Verified, SeqOf;
    var p := st.event.ack;
    var ack := SeqOf(p);
    if Verified(p) && a.sender.ackExpected <= ack < |a.sender.built| {
      var added := b.sender.built[|a.sender.built|..];
      CallEffects(a.timer, added, ack == |b.sender.built| - 1);
      AllSent(a.data, a.sender.built, SenderSent(st.down), b.sender.built, |a.sender.built|);
      CoupledExtends(a, b);
    } else {
      assert st.down == [] || st.down == [S.StopTimer];
      assert SenderSent(st.down) == {};
    }
  }

  lemma ExpireKeepsInv(a: State, st: Step, b: State)
    requires Inv(a) && Next(a, st, b) && st.event.Expire?
    ensures Inv(b)
  {
    hide Fits, S.CarryAll, Reassembly, Payloads, Cut, R.Sound;
    var resent := b.sender.built[a.sender.ackExpected..];
    CallEffects(false, resent, false);
    assert st.down == [S.StartTimer] + S.Sends(resent) + [];
    AllSent(a.data, a.sender.built, SenderSent(st.down), b.sender.built, a.sender.ackExpected);
    CoupledExtends(a, b);
  }

  // ----- Receiver steps keep it

  /** Packets that carry the fragments are acceptable in their turn. */
  lemma GoodPacket(s: S.Sender, k: nat)
    requires S.Sound(s) && k < |s.built|
    ensures k < |Payloads(s.msgs)| && SeqOf(s.built[k]) == k && Verified(s.built[k])
    ensures R.GoodPayload(Reassembly(s.msgs, k), s.built[k])
    ensures Accept(Reassembly(s.msgs, k), PayloadOf(s.built[k])) == Reassembly(s.msgs, k + 1)
  {
    hide Verified, SeqOf, SizeOf, PayloadOf, Accept, Acceptable, Reassembly, Payloads;
    assert Carries(s.built[k], k, Payloads(s.msgs)[k]);
    ReassemblyStep(s.msgs, k);
  }

  ghost predicate InStep(s: S.Sender, r: R.Receiver) {
    && r.expected <= |s.built| && r.expected <= |Payloads(s.msgs)|
    && R.Sound(r) && HeldOk(r.held, s.built)
    && r.asm == Reassembly(s.msgs, r.expected)
  }

  /** So does taking just the expected packet, and with it the one that is expected then. */
  lemma TakeInStep(s: S.Sender, r: R.Receiver, p: Packet)
    requires S.Sound(s) && InStep(s, r)
    requires r.expected < |s.built| && p == s.built[r.expected]
    ensures R.GoodPayload(r.asm, p)
    ensures var t := R.Take(r, p);
      if t.expected in t.held then
        InStep(s, R.Release(t)) && t.expected < |s.built| && t.held[t.expected] == s.built[t.expected]
      else InStep(s, t)
  {
    hide S.Sound, Reassembly, Payloads, R.GoodPayload, Accept, SeqOf, PayloadOf;
    GoodPacket(s, r.expected);
  }

  /** Taking the expected packet and all held ones after it stays in step with the sender. */
  lemma {:induction false} DrainInStep(s: S.Sender, r: R.Receiver, p: Packet)
    requires S.Sound(s) && InStep(s, r)
    requires r.expected < |s.built| && p == s.built[r.expected]
    ensures R.Drainable(r, p) && InStep(s, R.Drain(r, p))
    decreases |r.held|
  {
    hide S.Sound, InStep, R.GoodPayload, R.Drainable, R.Drain, Accept;
    TakeInStep(s, r, p);
    var t := R.Take(r, p);
    if t.expected in t.held {
      R.HeldShrinks(t.held, t.expected);
      DrainInStep(s, R.Release(t), t.held[t.expected]);
    }
    R.DrainableStep(r, p);
    R.DrainStep(r, p);
  }

  /** Whatever arrives, the receiver can digest it. */
  lemma ArrivalSafe(a: State, p: Packet)
    requires Inv(a) && (Verified(p) ==> p in a.data)
    ensures R.Digestible(a.receiver, p)
    ensures InStep(a.sender, R.Receive(a.receiver, p))
  {
    hide S.Sound, Reassembly, Payloads, Verified, SeqOf, R.Drainable, R.Drain;
    if Verified(p) {
      var k :| 0 <= k < |a.sender.built| && a.sender.built[k] == p;
      GoodPacket(a.sender, k);
      if k == a.receiver.expected {
        DrainInStep(a.sender, a.receiver, p);
      }
    }
  }

  lemma DataKeepsInv(a: State, st: Step, b: State)
    requires Inv(a) && Next(a, st, b) && st.event.DataIn?
    ensures Inv(b)
    ensures a.receiver.expected <= b.receiver.expected
  {
    hide S.Sound, Reassembly, Payloads, Verified, SeqOf, R.Sound, HeldOk, R.Drainable, R.Drain;
    ArrivalSafe(a, st.event.pkt);
    ReceiveAdvances(a.receiver, st.event.pkt);
    AnswersSent(a.receiver, st.event.pkt, b.receiver, st.up);
  }

  lemma ReceiveAdvances(r: R.Receiver, p: Packet)
    requires R.Digestible(r, p)
    ensures r.expected <= R.Receive(r, p).expected
  {
    if Verified(p) && SeqOf(p) == r.expected {
      R.DrainAdvances(r, p);
    }
  }

  lemma {:induction false} UppersAre(msgs: seq<Message>)
    ensures forall c {:trigger c in R.Uppers(msgs)} :: c in R.Uppers(msgs) ==> c.ToUpper?
  {
    if msgs != [] {
      UppersAre(msgs[..|msgs| - 1]);
    }
  }

  /** The only packet a receiver sends acknowledges everything below `expected`. */
  lemma AnswersSent(r: R.Receiver, p: Packet, t: R.Receiver, calls: seq<R.Call>)
    requires R.Answers(r, p, t, calls)
    ensures forall a {:trigger a in ReceiverSent(calls)} :: a in ReceiverSent(calls) ==> IsAck(a, t.expected - 1)
    ensures Verified(p) ==> ReceiverSent(calls) != {}
  {
    hide Verified, SeqOf;
    if Verified(p) {
      var a: Packet :| IsAck(a, t.expected - 1) && calls == R.Completed(r, t) + [R.ToLower(a)];
      UppersAre(t.asm.delivered[|r.asm.delivered|..]);
      assert R.ToLower(a) in calls;
      assert a in ReceiverSent(calls);
    }
  }

  lemma NextKeepsInv(a: State, st: Step, b: State)
    requires Inv(a) && Next(a, st, b)
    ensures Inv(b)
  {
    hide Inv, Next;
    match st.event
    case Submit(_) => SubmitKeepsInv(a, st, b);
    case AckIn(_) => AckKeepsInv(a, st, b);
    case Expire => ExpireKeepsInv(a, st, b);
    case DataIn(_) => DataKeepsInv(a, st, b);
  }

  // ----- Every run

  ghost predicate Run(states: seq<State>, steps: seq<Step>) {
    |states| == |steps| + 1 &&
    forall i {:trigger steps[i]} :: 0 <= i < |steps| ==> Next(states[i], steps[i], states[i + 1])
  }

  /** The states in the middle of a run satisfy whatever its first state makes them satisfy. */
  lemma {:induction false} RunKeepsInv(states: seq<State>, steps: seq<Step>, i: nat)
    requires Run(states, steps) && Inv(states[0]) && i < |states|
    ensures Inv(states[i])
  {
    hide Inv, Next;
    if i > 0 {
      RunKeepsInv(states, steps, i - 1);
      NextKeepsInv(states[i - 1], steps[i - 1], states[i]);
    }
  }

  lemma InitialInv()
    ensures Inv(INITIAL)
  {
  }

  /** Safety: in every run, whatever the network does, the messages delivered are a prefix of
      those submitted, and the message being assembled is a prefix of the next one. */
  lemma Safety(states: seq<State>, steps: seq<Step>, i: nat)
    requires Run(states, steps) && states[0] == INITIAL && i < |states|
    ensures var msgs, asm := states[i].sender.msgs, states[i].receiver.asm;
      asm.delivered <= msgs &&
      (asm.partial != [] ==> |asm.delivered| < |msgs| && asm.partial < msgs[|asm.delivered|])
  {
    hide Next, S.Sound, Reassembly, Payloads;
    InitialInv();
    RunKeepsInv(states, steps, i);
    ReassemblyIsPrefix(states[i].sender.msgs, states[i].receiver.expected);
  }

  /** The endpoints stay coupled: what is acknowledged has been received, what is received has been
      built, at most ten packets are open, a packet in flight is the one built under its number, and every
      packet built has been sent. */
  lemma Coupling(states: seq<State>, steps: seq<Step>, i: nat)
    requires Run(states, steps) && states[0] == INITIAL && i < |states|
    ensures var a := states[i];
      && a.sender.ackExpected <= a.receiver.expected <= |a.sender.built| <= a.sender.ackExpected + 10
      && (forall p :: p in a.acks ==> SeqOf(p) < a.receiver.expected)
      && (forall p :: p in a.data ==> 0 <= SeqOf(p) < |a.sender.built| && p == a.sender.built[SeqOf(p)])
      && (forall k :: 0 <= k < |a.sender.built| ==> a.sender.built[k] in a.data)
  {
    hide Next, Reassembly, Payloads, SeqOf, Carries, S.CarryAll;
    InitialInv();
    RunKeepsInv(states, steps, i);
    var a := states[i];
    forall p | p in a.data ensures 0 <= SeqOf(p) < |a.sender.built| && p == a.sender.built[SeqOf(p)] {
      SentNumber(a, p);
    }
  }

  /** A verified packet the receiver neither takes nor files was accepted before. */
  lemma DiscardsOnlyDuplicates(a: State, p: Packet)
    requires Inv(a) && Verified(p) && p in a.data
    requires !(a.receiver.expected <= SeqOf(p) < a.receiver.expected + 10)
    ensures 0 <= SeqOf(p) < a.receiver.expected
  {
    hide SeqOf, Verified, Inv;
    SentNumber(a, p);
    InvWindow(a);
  }

  lemma NextMonotone(a: State, st: Step, b: State)
    requires Inv(a) && Next(a, st, b)
    ensures a.receiver.expected <= b.receiver.expected
    ensures a.sender.built <= b.sender.built && a.sender.msgs <= b.sender.msgs
    ensures a.sender.ackExpected <= b.sender.ackExpected
    ensures var sent := ReceiverSent(st.up);
      forall p {:trigger p in sent} :: p in sent ==> IsAck(p, b.receiver.expected - 1)
  {
    hide Inv, Verified, SeqOf, S.Sound, R.Receive;
    if st.event.DataIn? {
      DataKeepsInv(a, st, b);
      AnswersSent(a.receiver, st.event.pkt, b.receiver, st.up);
    }
  }

  lemma {:induction false} RunMonotone(states: seq<State>, steps: seq<Step>, i: nat, j: nat)
    requires Run(states, steps) && Inv(states[0]) && i <= j < |states|
    ensures states[i].receiver.expected <= states[j].receiver.expected
    ensures states[i].sender.built <= states[j].sender.built && states[i].sender.msgs <= states[j].sender.msgs
    decreases j - i
  {
    hide Inv, Next;
    if i < j {
      RunMonotone(states, steps, i, j - 1);
      RunKeepsInv(states, steps, j - 1);
      NextMonotone(states[j - 1], steps[j - 1], states[j]);
    }
  }

  /** Acknowledgements never decrease along a run, and each says exactly how far the receiver is. */
  lemma AcksNeverDecrease(states: seq<State>, steps: seq<Step>, i: nat, j: nat, p: Packet, q: Packet)
    requires Run(states, steps) && states[0] == INITIAL && i <= j < |steps|
    requires p in ReceiverSent(steps[i].up) && q in ReceiverSent(steps[j].up)
    ensures SeqOf(p) <= SeqOf(q) == states[j + 1].receiver.expected - 1
  {
    hide Inv, Next, SeqOf, Verified;
    InitialInv();
    RunKeepsInv(states, steps, i);
    RunKeepsInv(states, steps, j);
    NextMonotone(states[i], steps[i], states[i + 1]);
    NextMonotone(states[j], steps[j], states[j + 1]);
    RunMonotone(states, steps, i + 1, j + 1);
  }

  /** No lost wake-up: without a timer nothing is unacknowledged, nothing waits to be cut up,
      and everything submitted has been delivered. */
  lemma NoTimerAllDelivered(a: State)
    requires Inv(a) && !a.timer
    ensures a.receiver.asm == Assembly(a.sender.msgs, 0, [])
    ensures a.sender.ackExpected == a.receiver.expected == |a.sender.built| == |Payloads(a.sender.msgs)|
  {
    hide S.CarryAll, Payloads;
  }

  /** Conversely the timer runs as long as a packet is unacknowledged. */
  lemma TimerExact(states: seq<State>, steps: seq<Step>, i: nat)
    requires Run(states, steps) && states[0] == INITIAL && i < |states|
    ensures states[i].timer <==> states[i].sender.ackExpected < |Payloads(states[i].sender.msgs)|
  {
    hide Next, S.CarryAll, Payloads, Reassembly;
    InitialInv();
    RunKeepsInv(states, steps, i);
  }

  // ----- Progress

  /** `st` brings packet number `k` to the receiver, uncorrupted. */
  predicate Brings(st: Step, k: int) {
    st.event.DataIn? && Verified(st.event.pkt) && SeqOf(st.event.pkt) == k
  }

  /** Some step from `from` on, before `to`, does. */
  ghost predicate Brought(steps: seq<Step>, from: nat, to: nat, k: int) {
    exists i {:trigger steps[i]} :: from <= i < to && i < |steps| && Brings(steps[i], k)
  }

  /** Each of the packets `lo` to `hi - 1` is brought, no matter in which order. */
  ghost predicate AllBrought(steps: seq<Step>, from: nat, to: nat, lo: int, hi: int) {
    forall k :: lo <= k < hi ==> Brought(steps, from, to, k)
  }

  /** One round: the timer expires, every packet then outstanding arrives, in any order and perhaps more
      than once and among others, and the receiver's last acknowledgement arrives. */
  ghost predicate Round(states: seq<State>, steps: seq<Step>) {
    && |steps| >= 2 && Run(states, steps) && steps[0].event.Expire?
    && (forall i {:trigger steps[i]} :: 1 <= i < |steps| - 1 ==> steps[i].event.DataIn?)
    && AllBrought(steps, 1, |steps| - 1, states[0].sender.ackExpected, |states[1].sender.built|)
    && steps[|steps| - 1].event.AckIn?
    && steps[|steps| - 1].event.ack in ReceiverSent(steps[|steps| - 2].up)
  }

  /** A packet that arrives when all before it have is behind the receiver afterwards. */
  lemma ArrivalPasses(a: State, st: Step, b: State, k: nat)
    requires Inv(a) && Next(a, st, b) && k < |a.sender.built|
    requires st.event == DataIn(a.sender.built[k]) && k <= a.receiver.expected
    ensures k < b.receiver.expected && b.sender == a.sender
  {
    hide Inv, S.Sound, SeqOf, Verified, R.Drain, R.Drainable;
    assert S.Sound(a.sender) && InStep(a.sender, a.receiver) by {
      hide S.Sound, R.Sound, HeldOk, Payloads, Reassembly;
      InvParts(a);
    }
    GoodPacket(a.sender, k);
    if k == a.receiver.expected {
      R.DrainAdvances(a.receiver, a.sender.built[k]);
    }
  }

  lemma InvParts(a: State)
    requires Inv(a)
    ensures S.Sound(a.sender) && InStep(a.sender, a.receiver)
  {
    hide S.Sound, R.Sound, HeldOk, Payloads, Reassembly;
  }

  /** What an arrival adds to what the receiver has: the packet itself, if it is intact and fewer than ten
      numbers ahead. Nothing the receiver has is lost or changed; it has taken everything up to the first
      packet that is missing. */
  lemma ArrivalAdds(a: State, st: Step, b: State)
    requires Inv(a) && Next(a, st, b) && st.event.DataIn?
    ensures var p, r, t := st.event.pkt, a.receiver, b.receiver;
      && (forall n: int {:trigger n in t.held} {:trigger n in r.held} ::
            (n < t.expected || n in t.held) <==>
            n < r.expected || n in r.held || (Verified(p) && n == SeqOf(p) < r.expected + 10))
      && (forall n: int {:trigger t.held[n]} :: n in t.held ==> t.held[n] == if n in r.held then r.held[n] else p)
      && t.expected !in t.held && r.expected <= t.expected && (!Verified(p) ==> t == r)
  {
    hide Inv, R.Sound, Verified, SeqOf, R.Digestible, R.Receive, R.Answers;
    assert R.Sound(a.receiver) by { InvParts(a); }
    R.ReceiveGets(a.receiver, st.event.pkt);
  }

  /** The receiver never loses a packet. */
  lemma GotStays(a: State, st: Step, b: State, k: nat)
    requires Inv(a) && Next(a, st, b) && R.Got(a.receiver, k)
    ensures R.Got(b.receiver, k)
  {
    hide Inv, Verified, SeqOf, R.Digestible, R.Receive, R.Answers, S.FromUpperLayer, S.FromLowerLayer, S.TimedOut;
    if st.event.DataIn? {
      ArrivalAdds(a, st, b);
    }
  }

  /** It has a packet as soon as that arrives. */
  lemma GotOnArrival(a: State, st: Step, b: State, k: nat)
    requires Inv(a) && Next(a, st, b) && Brings(st, k)
    ensures R.Got(b.receiver, k)
  {
    hide Inv, Verified, SeqOf, R.Digestible, R.Receive, R.Answers, Brings;
    assert st.event.DataIn? && Verified(st.event.pkt) && SeqOf(st.event.pkt) == k by { BringsPacket(st, k); }
    InvParts(a);
    InvWindow(a);
    SentNumber(a, st.event.pkt);
    ArrivalAdds(a, st, b);
  }

  lemma BringsPacket(st: Step, k: int)
    requires Brings(st, k)
    ensures st.event.DataIn? && Verified(st.event.pkt) && SeqOf(st.event.pkt) == k
  {
    hide Verified, SeqOf;
  }

  /** A packet on the link has the number under which it was built. */
  lemma SentNumber(a: State, p: Packet)
    requires Inv(a) && p in a.data
    ensures 0 <= SeqOf(p) < |a.sender.built| && p == a.sender.built[SeqOf(p)]
  {
    hide Verified, SeqOf, S.CarryAll, Coupled, Reassembly, Payloads;
    var k :| 0 <= k < |a.sender.built| && a.sender.built[k] == p;
    GoodPacket(a.sender, k);
  }

  lemma InvWindow(a: State)
    requires Inv(a)
    ensures |a.sender.built| <= a.receiver.expected + 10 && a.receiver.expected !in a.receiver.held
  {
    hide S.CarryAll, HeldOk, Payloads, Reassembly, SeqOf;
  }

  lemma {:induction false} GotInRun(states: seq<State>, steps: seq<Step>, i: nat, k: nat)
    requires Run(states, steps) && Inv(states[0]) && i < |states|
    requires R.Got(states[0].receiver, k) || Brought(steps, 0, i, k)
    ensures R.Got(states[i].receiver, k)
  {
    hide Inv, Next, R.Got, Brings;
    if i > 0 {
      RunKeepsInv(states, steps, i - 1);
      if Brings(steps[i - 1], k) {
        GotOnArrival(states[i - 1], steps[i - 1], states[i], k);
      } else {
        GotInRun(states, steps, i - 1, k);
        GotStays(states[i - 1], steps[i - 1], states[i], k);
      }
    }
  }

  /** Packets arriving in any order: in every run, once each of the packets from `expected` on, up to but
      not including `n`, has arrived, no matter in which order, how often and between which other
      steps, the receiver has taken them all. */
  lemma AnyOrderDelivers(states: seq<State>, steps: seq<Step>, i: nat, n: nat)
    requires Run(states, steps) && Inv(states[0]) && i < |states|
    requires AllBrought(steps, 0, i, states[0].receiver.expected, n)
    ensures n <= states[i].receiver.expected
  {
    hide Inv, Next, Brings;
    RunKeepsInv(states, steps, i);
    InvWindow(states[i]);
    var k := states[i].receiver.expected;
    if k < n {
      GotInRun(states, steps, i, k);
    }
  }

  /** While only packets arrive at the receiver the sender stays as it is. */
  lemma {:induction false} SenderRests(states: seq<State>, steps: seq<Step>, i: nat)
    requires Run(states, steps) && i < |states|
    requires forall j {:trigger steps[j]} :: 0 <= j < i ==> steps[j].event.DataIn?
    ensures states[i].sender == states[0].sender
  {
    hide R.Digestible, R.Receive, R.Answers, Verified;
    if i > 0 {
      SenderRests(states, steps, i - 1);
      assert Next(states[i - 1], steps[i - 1], states[i]);
    }
  }

  /** Counted from the first step on. */
  lemma BroughtLater(steps: seq<Step>, n: nat, lo: int, hi: int)
    requires 1 <= n <= |steps| && AllBrought(steps, 1, n, lo, hi)
    ensures AllBrought(steps[1..n], 0, n - 1, lo, hi)
  {
    hide Brings;
    var path, m := steps[1..n], n - 1;
    forall k | lo <= k < hi ensures Brought(path, 0, m, k) {
      assert Brought(steps, 1, n, k);
      var i :| 1 <= i < n && i < |steps| && Brings(steps[i], k);
      assert path[i - 1] == steps[i];
    }
  }

  /** The packets of one resent window, whatever the order in which they arrive, are all behind the
      receiver at the end of a round. */
  lemma RoundDelivers(states: seq<State>, steps: seq<Step>)
    requires Round(states, steps) && Inv(states[0])
    ensures var z := states[|steps| - 1];
      Inv(z) && z.sender == states[1].sender && z.receiver.expected == |z.sender.built|
  {
    hide Inv, Next, ReceiverSent, Brings;
    var n := |steps| - 1;
    var rest, path := states[1..n + 1], steps[1..n];
    assert Run(rest, path);
    RunKeepsInv(states, steps, 1);
    RunKeepsInv(states, steps, n);
    InvCoupled(states[1]);
    InvCoupled(states[n]);
    ExpireFills(states[0], steps[0], states[1]);
    SenderRests(rest, path, n - 1);
    var built := states[1].sender.built;
    BroughtLater(steps, n, states[0].sender.ackExpected, |built|);
    AnyOrderDelivers(rest, path, n - 1, |built|);
  }

  lemma AckOfAll(a: State, st: Step, b: State, p: Packet)
    requires Inv(a) && Next(a, st, b) && st.event == AckIn(p)
    requires IsAck(p, |a.sender.built| - 1) && a.sender.ackExpected < |a.sender.built|
    ensures b.sender.ackExpected == |a.sender.built| && b.sender.msgs == a.sender.msgs
  {
    hide S.Sound, Verified, SeqOf, Payloads;
  }

  /** A round acknowledges a whole window, or everything there is. */
  lemma RoundProgress(states: seq<State>, steps: seq<Step>)
    requires Round(states, steps) && Inv(states[0])
    ensures var a, b := states[0].sender, states[|steps|].sender;
      b.msgs == a.msgs && b.ackExpected == Min(a.ackExpected + 10, |Payloads(a.msgs)|)
  {
    hide Payloads, IsAck, Inv, Next, ReceiverSent, Round;
    RoundEnds(states, steps);
    var n := |steps| - 1;
    var a, m, y, z := states[0], states[1], states[n - 1], states[n];
    ExpireFills(a, steps[0], m);
    RoundDelivers(states, steps);
    RoundKeeps(states, steps, n - 1);
    NextMonotone(y, steps[n - 1], z);
    AckOfAll(z, steps[n], states[n + 1], steps[n].event.ack);
  }

  lemma RoundKeeps(states: seq<State>, steps: seq<Step>, i: nat)
    requires Round(states, steps) && Inv(states[0]) && i < |states|
    ensures Inv(states[i])
  {
    hide Inv, Next;
    RunKeepsInv(states, steps, i);
  }

  lemma RoundEnds(states: seq<State>, steps: seq<Step>)
    requires Round(states, steps)
    ensures var n := |steps| - 1;
      && |states| == |steps| + 1 && n >= 1 && steps[0].event.Expire?
      && Next(states[0], steps[0], states[1]) && Next(states[n - 1], steps[n - 1], states[n])
      && Next(states[n], steps[n], states[n + 1])
      && steps[n].event.AckIn? && steps[n].event.ack in ReceiverSent(steps[n - 1].up)
  {
    hide Next;
  }

  lemma InvCoupled(a: State)
    requires Inv(a)
    ensures a.sender.ackExpected <= a.receiver.expected <= |a.sender.built|
  {
    hide S.Sound, R.Sound, HeldOk, Payloads, Reassembly;
  }

  lemma ExpireFills(a: State, st: Step, b: State)
    requires Inv(a) && Next(a, st, b) && st.event.Expire?
    ensures b.sender.msgs == a.sender.msgs && b.sender.ackExpected == a.sender.ackExpected < |b.sender.built|
    ensures |b.sender.built| == Min(a.sender.ackExpected + S.MAX_WINDOW_SIZE, |Payloads(a.sender.msgs)|)
  {
    hide S.Sound, R.Sound, HeldOk, Payloads, Reassembly;
  }

  /** Rounds one after another, with nothing submitted in between. */
  ghost predicate Rounds(runs: seq<(seq<State>, seq<Step>)>) {
    && (forall k {:trigger runs[k]} :: 0 <= k < |runs| ==> Round(runs[k].0, runs[k].1))
    && forall k {:trigger runs[k]} :: 0 < k < |runs| ==> runs[k].0[0] == runs[k - 1].0[|runs[k - 1].1|]
  }

  /** After `k` rounds from any reachable state, `10 * k` more packets are acknowledged, or
      all of them; so ceil(remaining / 10) rounds finish all work and leave the timer off. */
  lemma {:induction false} RoundsProgress(runs: seq<(seq<State>, seq<Step>)>, k: nat)
    requires Rounds(runs) && 0 < k <= |runs| && Inv(runs[0].0[0])
    ensures var a, b := runs[0].0[0], runs[k - 1].0[|runs[k - 1].1|];
      && Inv(b) && b.sender.msgs == a.sender.msgs
      && b.sender.ackExpected == Min(a.sender.ackExpected + 10 * k, |Payloads(a.sender.msgs)|)
      && (a.sender.ackExpected + 10 * k >= |Payloads(a.sender.msgs)| ==>
        !b.timer && b.receiver.asm == Assembly(a.sender.msgs, 0, []))
  {
    hide Inv, Next, Payloads, Reassembly;
    if k > 1 {
      RoundsProgress(runs, k - 1);
    }
    var states, steps := runs[k - 1].0, runs[k - 1].1;
    RoundProgress(states, steps);
    RunKeepsInv(states, steps, |steps|);
    AllAcknowledged(states[|steps|]);
  }

  lemma AllAcknowledged(a: State)
    requires Inv(a)
    ensures a.sender.ackExpected >= |Payloads(a.sender.msgs)| ==>
      !a.timer && a.receiver.asm == Assembly(a.sender.msgs, 0, [])
  {
    hide S.CarryAll, Payloads;
  }

  // ----- Nothing gets stuck

  lemma {:induction false} DrainDelivers(r: R.Receiver, p: Packet)
    requires R.Drainable(r, p)
    ensures r.asm.delivered <= R.Drain(r, p).asm.delivered
    decreases |r.held|
  {
    var t := R.Take(r, p);
    if t.expected in t.held {
      R.HeldShrinks(t.held, t.expected);
      DrainDelivers(R.Release(t), t.held[t.expected]);
    }
  }

  lemma CanReceive(a: State, p: Packet) returns (st: Step, b: State)
    requires Inv(a) && (Verified(p) ==> p in a.data)
    ensures Next(a, st, b) && st.event == DataIn(p)
    ensures b.sender == a.sender && b.data == a.data
    ensures ReceiverSent(st.up) <= b.acks && (Verified(p) ==> ReceiverSent(st.up) != {})
  {
    hide Inv, Verified, SeqOf, R.Drain, R.Drainable;
    ArrivalSafe(a, p);
    var r, t := a.receiver, R.Receive(a.receiver, p);
    if Verified(p) && SeqOf(p) == r.expected {
      DrainDelivers(r, p);
    }
    var calls: seq<R.Call> := [];
    if Verified(p) {
      assert S.Sound(a.sender) by { InvParts(a); }
      var ack := CanAck(a.sender, t.expected - 1);
      calls := R.Completed(r, t) + [R.ToLower(ack)];
      assert R.ToLower(ack) in calls;
      assert ack in ReceiverSent(calls);
    }
    st := Step(DataIn(p), [], calls);
    b := a.(receiver := t, acks := a.acks + ReceiverSent(calls));
  }

  lemma CanAck(s: S.Sender, ack: int) returns (p: Packet)
    requires S.Sound(s) && -1 <= ack < |s.built|
    ensures IsAck(p, ack)
  {
    hide S.CarryAll, Carries, Payloads;
    p := Made(ack, []);
    assert Carries(p, ack, []) by { MadeCarries(ack, []); }
    assert IsAck(p, ack) by { CarriesIsAck(p, ack); }
  }

  lemma CarriesIsAck(p: Packet, s: int)
    requires Carries(p, s, [])
    ensures IsAck(p, s)
  {
    hide Verified, SeqOf;
  }

  lemma CanExpire(a: State) returns (st: Step, b: State)
    requires Inv(a) && a.timer
    ensures Next(a, st, b) && st.event == Expire
    ensures forall p {:trigger p in b.data} :: p in b.sender.built[a.sender.ackExpected..] ==> p in b.data
  {
    hide S.Sound, Coupled, NetworkOk;
    var t := S.CanFill(a.sender);
    assert S.Sound(a.sender);
    var resent := t.built[a.sender.ackExpected..];
    var calls := [S.StartTimer] + S.Sends(resent);
    st := Step(Expire, calls, []);
    b := a.(sender := t, timer := TimerAfter(false, calls), data := a.data + SenderSent(calls));
    assert calls == [S.StartTimer] + S.Sends(resent) + [];
    SendsSent(resent, []);
  }

  lemma CanTakeAck(a: State, p: Packet) returns (st: Step, b: State)
    requires Inv(a) && (Verified(p) ==> p in a.acks)
    ensures Next(a, st, b) && st.event == AckIn(p)
  {
    hide Inv, Verified, SeqOf, S.Filled;
    var s, t, calls := a.sender, a.sender, [];
    var ack := SeqOf(p);
    if Verified(p) {
      if s.ackExpected <= ack < |s.built| {
        assert S.Sound(s) by { InvParts(a); }
        S.AckKeepsSound(s, ack);
        t := S.CanFill(s.(ackExpected := ack + 1));
        assert s.built <= t.built by { FilledGrows(s.(ackExpected := ack + 1), t); }
        calls := [S.StartTimer] + S.Sends(t.built[|s.built|..]) + (if ack == |t.built| - 1 then [S.StopTimer] else []);
      } else if ack == |s.built| - 1 {
        calls := [S.StopTimer];
      }
    }
    st := Step(AckIn(p), calls, []);
    b := a.(sender := t, timer := TimerAfter(a.timer, calls), data := a.data + SenderSent(calls));
  }

  lemma FilledGrows(s: S.Sender, t: S.Sender)
    requires S.Filled(s, t)
    ensures s.built <= t.built
  {
  }

  /** From every reachable state with the timer set a round can be played. */
  lemma CanPlayRound(a: State) returns (states: seq<State>, steps: seq<Step>)
    requires Inv(a) && a.timer
    ensures Round(states, steps) && states[0] == a
  {
    hide Inv, Next, ReceiverSent, Verified, Payloads, S.Sound;
    var st, b := CanExpire(a);
    NextKeepsInv(a, st, b);
    ExpireFills(a, st, b);
    states, steps := [a, b], [st];
    var first, built := a.sender.ackExpected, b.sender.built;
    while |steps| < 1 + |built| - first
      invariant Run(states, steps) && states[0] == a && 1 <= |steps| <= 1 + |built| - first
      invariant states[1] == b && steps[0].event.Expire?
      invariant forall i {:trigger steps[i]} :: 1 <= i < |steps| ==>
        0 <= first + i - 1 < |built| && steps[i].event == DataIn(built[first + i - 1])
      invariant Inv(states[|steps|]) && states[|steps|].sender == b.sender && states[|steps|].data == b.data
      invariant var up := ReceiverSent(steps[|steps| - 1].up);
        |steps| > 1 ==> up != {} && up <= states[|steps|].acks
    {
      var c, k := states[|steps|], first + |steps| - 1;
      assert built[k] == built[first..][k - first];
      assert Verified(built[k]) by { InvParts(c); GoodPacket(c.sender, k); }
      var next, d := CanReceive(c, built[k]);
      NextKeepsInv(c, next, d);
      states, steps := states + [d], steps + [next];
    }
    var p :| p in ReceiverSent(steps[|steps| - 1].up);
    var last, z := CanTakeAck(states[|steps|], p);
    InvParts(b);
    PlayedRound(states, steps, last, z);
    states, steps := states + [z], steps + [last];
  }

  /** In order, one after the other, is one way to bring the packets. */
  lemma PlayedRound(states: seq<State>, steps: seq<Step>, last: Step, z: State)
    requires |steps| >= 1 && Run(states, steps) && steps[0].event.Expire? && S.Sound(states[1].sender)
    requires var first, built := states[0].sender.ackExpected, states[1].sender.built;
      && |steps| == 1 + |built| - first
      && forall i {:trigger steps[i]} :: 1 <= i < |steps| ==>
           0 <= first + i - 1 < |built| && steps[i].event == DataIn(built[first + i - 1])
    requires Next(states[|steps|], last, z) && last.event.AckIn?
    requires last.event.ack in ReceiverSent(steps[|steps| - 1].up)
    ensures Round(states + [z], steps + [last])
  {
    hide Next, ReceiverSent, S.Sound, Verified, SeqOf;
    var first, built, all := states[0].sender.ackExpected, states[1].sender.built, steps + [last];
    var n := |all| - 1;
    forall k | first <= k < |built| ensures Brought(all, 1, n, k) {
      GoodPacket(states[1].sender, k);
      assert all[1 + k - first].event == DataIn(built[k]);
      assert Brings(all[1 + k - first], k);
    }
  }

  /** The state in which `runs`, started in `a`, end. */
  ghost function EndOf(a: State, runs: seq<(seq<State>, seq<Step>)>): State
    requires Rounds(runs)
  {
    if runs == [] then a
    else
      var (states, steps) := runs[|runs| - 1];
      assert Round(states, steps);
      states[|steps|]
  }

  lemma RoundLengths(states: seq<State>, steps: seq<Step>)
    requires Round(states, steps)
    ensures |states| == |steps| + 1
  {
    hide Next;
  }

  /** `runs[k]` is a round, and starts where the one before ends. */
  lemma RoundsAt(runs: seq<(seq<State>, seq<Step>)>, k: nat)
    requires Rounds(runs) && k < |runs|
    ensures Round(runs[k].0, runs[k].1) && |runs[k].0| == |runs[k].1| + 1
    ensures k > 0 ==> |runs[k - 1].0| == |runs[k - 1].1| + 1 && runs[k].0[0] == runs[k - 1].0[|runs[k - 1].1|]
  {
    hide Round;
    RoundLengths(runs[k].0, runs[k].1);
    if k > 0 {
      RoundLengths(runs[k - 1].0, runs[k - 1].1);
    }
  }

  lemma RoundInFront(states: seq<State>, steps: seq<Step>, runs: seq<(seq<State>, seq<Step>)>)
    requires Round(states, steps) && Rounds(runs) && |states| == |steps| + 1
    requires runs != [] ==> runs[0].0 != [] && runs[0].0[0] == states[|steps|]
    ensures Rounds([(states, steps)] + runs)
    ensures EndOf(states[0], [(states, steps)] + runs) == EndOf(states[|steps|], runs)
  {
    hide Round;
    var all := [(states, steps)] + runs;
    forall k: nat {:trigger all[k]} | k < |all|
      ensures Round(all[k].0, all[k].1) && |all[k].0| == |all[k].1| + 1
      ensures k > 0 ==> |all[k - 1].0| == |all[k - 1].1| + 1 && all[k].0[0] == all[k - 1].0[|all[k - 1].1|]
    {
      hide Rounds;
      if k > 0 {
        RoundsAt(runs, k - 1);
      }
    }
  }

  /** From every reachable state ceil(remaining / 10) rounds can be played that leave the timer off
      and everything delivered. */
  lemma {:induction false} CanFinish(a: State) returns (runs: seq<(seq<State>, seq<Step>)>)
    requires Inv(a)
    ensures Rounds(runs) && (runs != [] ==> runs[0].0 != [] && runs[0].0[0] == a)
    ensures a.sender.ackExpected <= |Payloads(a.sender.msgs)|
    ensures |runs| == (|Payloads(a.sender.msgs)| - a.sender.ackExpected + S.MAX_WINDOW_SIZE - 1) / S.MAX_WINDOW_SIZE
    ensures var b := EndOf(a, runs);
      Inv(b) && !b.timer && b.sender.msgs == a.sender.msgs && b.receiver.asm == Assembly(a.sender.msgs, 0, [])
    decreases |Payloads(a.sender.msgs)| - a.sender.ackExpected
  {
    hide Inv, Round, Rounds, Payloads;
    RemainingAtLeast(a);
    if a.timer {
      var states, steps := CanPlayRound(a);
      RoundLengths(states, steps);
      RoundProgress(states, steps);
      RoundKeepsInv(states, steps);
      var rest := CanFinish(states[|steps|]);
      RoundInFront(states, steps, rest);
      runs := [(states, steps)] + rest;
    } else {
      runs := [];
      NoRounds(a);
      NoTimerAllDelivered(a);
    }
  }

  lemma NoRounds(a: State)
    ensures Rounds([]) && EndOf(a, []) == a
  {
  }

  lemma RoundKeepsInv(states: seq<State>, steps: seq<Step>)
    requires Round(states, steps) && Inv(states[0])
    ensures Inv(states[|steps|])
  {
    hide Inv, Next;
    RunKeepsInv(states, steps, |steps|);
  }

  lemma RemainingAtLeast(a: State)
    requires Inv(a)
    ensures a.sender.ackExpected <= |Payloads(a.sender.msgs)|
    ensures a.timer ==> a.sender.ackExpected < |Payloads(a.sender.msgs)|
  {
    hide S.CarryAll, Payloads, Reassembly, HeldOk, R.Sound;
  }
}
