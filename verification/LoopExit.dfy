/** The main loop of `rdt/rdt_sim.cc` comes to an end: once no message arrives any more and the
    links bring every packet across, as it is and within some fixed time, the number of turns left
    is bounded, and after the last one everything has been delivered. */
module LoopExit {
  import opened Packets
  import opened Fragments
  import opened EventChains
  import opened Simulation
  import S = SenderSide
  import R = ReceiverSide
  import P = Protocol

  ghost predicate Quiet(chain: seq<Entry>) {
    forall e {:trigger e in chain} :: e in chain ==> !e.what.Arrival?
  }

  /** The packet gets across as it is, in a time of at most `limit`. */
  predicate Prompt(pkt: Packet, fate: Fate, limit: real) {
    fate.Arrives? && fate.bytes == pkt && fate.delay <= limit
  }

  ghost predicate DownPrompt(calls: seq<S.Call>, fates: seq<Fate>, limit: real)
    requires |fates| == |calls|
  {
    forall i {:trigger calls[i]} :: 0 <= i < |calls| && calls[i].ToLower? ==> Prompt(calls[i].pkt, fates[i], limit)
  }

  ghost predicate UpPrompt(calls: seq<R.Call>, fates: seq<Fate>, limit: real)
    requires |fates| == |calls|
  {
    forall i {:trigger calls[i]} :: 0 <= i < |calls| && calls[i].ToLower? ==> Prompt(calls[i].pkt, fates[i], limit)
  }

  ghost predicate AllPrompt(st: P.Step, fates: seq<Fate>, limit: real)
    requires |fates| == |st.down| + |st.up|
  {
    DownPrompt(st.down, fates[..|st.down|], limit) && UpPrompt(st.up, fates[|st.down|..], limit)
  }

  // ----- How much the chain still has in store

  /** A data packet may bring about one acknowledgement. */
  function Work(what: Happening): nat {
    match what
    case DataIn(_) => 2
    case AckIn(_) => 1
    case _ => 0
  }

  function Weight(chain: seq<Entry>): nat {
    if chain == [] then 0 else Work(chain[0].what) + Weight(chain[1..])
  }

  lemma {:induction false} InsertWeight(chain: seq<Entry>, e: Entry)
    ensures Weight(Insert(chain, e)) == Weight(chain) + Work(e.what)
  {
    if chain == [] || chain[0].time > e.time {
      assert ([e] + chain)[1..] == chain;
    } else {
      InsertWeight(chain[1..], e);
      assert ([chain[0]] + Insert(chain[1..], e))[1..] == Insert(chain[1..], e);
    }
  }

  lemma {:induction false} RemoveWeight(chain: seq<Entry>, id: nat)
    ensures Weight(Remove(chain, id)) <= Weight(chain)
  {
    if chain != [] && chain[0].id != id {
      RemoveWeight(chain[1..], id);
      assert ([chain[0]] + Remove(chain[1..], id))[1..] == Remove(chain[1..], id);
    }
  }

  lemma {:induction false} RemoveMembers(chain: seq<Entry>, id: nat)
    ensures forall x {:trigger x in Remove(chain, id)} :: x in Remove(chain, id) ==> x in chain
  {
    if chain != [] && chain[0].id != id {
      RemoveMembers(chain[1..], id);
    }
  }

  /** What may be new on the chain. */
  ghost predicate New(x: Entry, data: set<Packet>, acks: set<Packet>) {
    match x.what
    case Timeout => true
    case DataIn(p) => p in data
    case AckIn(p) => p in acks
    case Arrival => false
  }

  lemma StopTimerDoes(c: Core)
    ensures Weight(StopTimer(c).chain) <= Weight(c.chain)
    ensures forall x {:trigger x in StopTimer(c).chain} :: x in StopTimer(c).chain ==> x in c.chain
  {
    hide Remove;
    if c.timer.Some? {
      RemoveWeight(c.chain, c.timer.value);
      RemoveMembers(c.chain, c.timer.value);
    }
  }

  lemma ScheduleDoes(c: Core, e: Entry)
    ensures Weight(Schedule(c, e).chain) <= Weight(c.chain) + Work(e.what)
    ensures forall x {:trigger x in Schedule(c, e).chain} :: x in Schedule(c, e).chain ==> x in c.chain || x == e
    ensures c.now <= e.time ==> e in Schedule(c, e).chain
    ensures c.now <= e.time ==> forall x {:trigger x in c.chain} :: x in c.chain ==> x in Schedule(c, e).chain
  {
    hide Insert, Weight;
    InsertWeight(c.chain, e);
    InsertMembers(c.chain, e);
  }

  /** The load that a sender's calls put on the chain. */
  function Load(calls: seq<S.Call>): nat {
    if calls == [] then 0
    else Load(calls[..|calls| - 1]) + if calls[|calls| - 1].ToLower? then 2 else 0
  }

  lemma {:induction false} LoadBound(calls: seq<S.Call>)
    ensures Load(calls) <= 2 * |calls|
  {
    if calls != [] {
      LoadBound(calls[..|calls| - 1]);
    }
  }

  lemma SenderCallDoes(c: Core, call: S.Call, fate: Fate, limit: real, data: set<Packet>)
    requires call.ToLower? ==> Prompt(call.pkt, fate, limit) && call.pkt in data
    ensures var d := SenderCall(c, call, fate);
      && Weight(d.chain) <= Weight(c.chain) + (if call.ToLower? then 2 else 0)
      && forall x {:trigger x in d.chain} :: x in d.chain ==> x in c.chain || New(x, data, {})
  {
    hide Weight, Insert, Remove, Schedule, Simulation.StopTimer;
    StopTimerDoes(c);
    var s := Simulation.StopTimer(c);
    ScheduleDoes(s.(nextId := s.nextId + 1), Entry(s.nextId, s.now + TIMEOUT, Timeout));
    if call.ToLower? {
      ScheduleDoes(c.(nextId := c.nextId + 1), Entry(c.nextId, c.now + fate.delay, DataIn(fate.bytes)));
    }
  }

  lemma {:induction false} SenderCallsDo(c: Core, calls: seq<S.Call>, fates: seq<Fate>, limit: real)
    requires |fates| == |calls| && DownPrompt(calls, fates, limit)
    ensures var d := SenderCalls(c, calls, fates);
      && Weight(d.chain) <= Weight(c.chain) + Load(calls)
      && forall x {:trigger x in d.chain} :: x in d.chain ==> x in c.chain || New(x, P.SenderSent(calls), {})
    decreases |calls|
  {
    hide Weight, SenderCall, Prompt, Work;
    if calls != [] {
      var last := |calls| - 1;
      SenderCallsDo(c, calls[..last], fates[..last], limit);
      assert calls[last] in calls;
      var d := SenderCalls(c, calls[..last], fates[..last]);
      SenderCallDoes(d, calls[last], fates[last], limit, P.SenderSent(calls));
    }
  }

  lemma {:induction false} UppersKeepCore(c: Core, msgs: seq<Message>, fates: seq<Fate>)
    requires |fates| == |R.Uppers(msgs)|
    ensures ReceiverCalls(c, R.Uppers(msgs), fates) == c
    decreases |msgs|
  {
    if msgs != [] {
      var ups, last := R.Uppers(msgs), |msgs| - 1;
      assert ups[..|ups| - 1] == R.Uppers(msgs[..last]);
      UppersKeepCore(c, msgs[..last], fates[..|ups| - 1]);
    }
  }

  /** A receiver's answer puts one acknowledgement on the chain, or, to a corrupted packet, nothing. */
  lemma AnswerDoes(c: Core, r: R.Receiver, p: Packet, t: R.Receiver, calls: seq<R.Call>, fates: seq<Fate>,
                   limit: Delay)
    returns (ack: Packet, delay: Delay)
    requires |fates| == |calls| && UpPrompt(calls, fates, limit) && R.Answers(r, p, t, calls)
    ensures delay <= limit && if Verified(p) then
        IsAck(ack, t.expected - 1) && ack in P.ReceiverSent(calls)
        && ReceiverCalls(c, calls, fates) == Transmit(c, AckIn(ack), delay)
      else ReceiverCalls(c, calls, fates) == c
  {
    hide Verified, SeqOf, Transmit, R.Uppers;
    ack, delay := p, 0.0;
    if Verified(p) {
      var a: Packet :| IsAck(a, t.expected - 1) && calls == R.Completed(r, t) + [R.ToLower(a)];
      var last := |calls| - 1;
      assert calls[..last] == R.Completed(r, t) && calls[last] == R.ToLower(a);
      UppersKeepCore(c, t.asm.delivered[|r.asm.delivered|..], fates[..last]);
      ack, delay := a, fates[last].delay;
      assert R.ToLower(a) in calls;
    }
  }

  // ----- What keeps the timer from expiring in vain

  /** `x` will have the first unacknowledged packet acknowledged before `until`: it is that packet,
      and an acknowledgement of it can still be back in time, or it is an acknowledgement of it. */
  ghost predicate Helps(s: S.Sender, x: Entry, until: real, limit: real) {
    match x.what
    case DataIn(p) => s.ackExpected < |s.built| && p == s.built[s.ackExpected] && x.time + limit < until
    case AckIn(p) => Verified(p) && s.ackExpected <= SeqOf(p) && x.time < until
    case _ => false
  }

  ghost predicate Underway(s: S.Sender, chain: seq<Entry>, until: real, limit: real) {
    exists x :: x in chain && Helps(s, x, until, limit)
  }

  function After(time: real, k: nat): real {
    time + TIMEOUT * k as real
  }

  /** Before the timer has expired more than `k` times an acknowledgement of something new will arrive. */
  ghost predicate Promise(s: S.Sender, chain: seq<Entry>, k: nat, limit: real) {
    forall e {:trigger e in chain} :: e in chain && e.what.Timeout? ==> Underway(s, chain, After(e.time, k), limit)
  }

  lemma HeadOrTail(chain: seq<Entry>, x: Entry)
    requires x in chain
    ensures x == chain[0] || x in chain[1..]
  {
    var i :| 0 <= i < |chain| && chain[i] == x;
    if i > 0 {
      assert chain[1..][i - 1] == x;
    }
  }

  /** A promise stays good when nothing but the first event leaves the chain, no timeout comes, and
      what the first event promised is promised by another one. */
  lemma PromiseStays(s: S.Sender, chain: seq<Entry>, more: seq<Entry>, k: nat, limit: real)
    requires chain != [] && Promise(s, chain, k, limit)
    requires forall x {:trigger x in more} :: x in more && x.what.Timeout? ==> x in chain
    requires forall x {:trigger x in chain[1..]} :: x in chain[1..] ==> x in more
    requires forall until :: Helps(s, chain[0], until, limit) ==> Underway(s, more, until, limit)
    ensures Promise(s, more, k, limit)
  {
    hide Helps, After;
    forall e | e in more && e.what.Timeout? ensures Underway(s, more, After(e.time, k), limit) {
      assert Underway(s, chain, After(e.time, k), limit);
      var x :| x in chain && Helps(s, x, After(e.time, k), limit);
      HeadOrTail(chain, x);
    }
  }

  /** How many of the first `n` promises do not hold. */
  ghost function Broken(s: S.Sender, chain: seq<Entry>, n: nat, limit: real): (b: nat)
    ensures b <= n
  {
    if n == 0 then 0
    else Broken(s, chain, n - 1, limit) + if Promise(s, chain, n - 1, limit) then 0 else 1
  }

  lemma {:induction false} NoMoreBroken(s: S.Sender, chain: seq<Entry>, more: seq<Entry>, n: nat, limit: real)
    requires forall k: nat {:trigger Promise(s, more, k, limit)} ::
      Promise(s, chain, k, limit) ==> Promise(s, more, k, limit)
    ensures Broken(s, more, n, limit) <= Broken(s, chain, n, limit)
  {
    hide Promise;
    if n > 0 {
      NoMoreBroken(s, chain, more, n - 1, limit);
    }
  }

  lemma {:induction false} OneLessBroken(s: S.Sender, chain: seq<Entry>, t: S.Sender, more: seq<Entry>, n: nat,
                                         limit: real)
    requires !Promise(s, chain, 0, limit)
    requires forall k: nat {:trigger Promise(t, more, k, limit)} ::
      Promise(s, chain, k + 1, limit) ==> Promise(t, more, k, limit)
    ensures Broken(t, more, n, limit) < Broken(s, chain, n + 1, limit)
  {
    hide Promise;
    if n > 0 {
      OneLessBroken(s, chain, t, more, n - 1, limit);
    }
  }

  // ----- One turn

  /** A turn whose first event is not an arrival. */
  lemma TurnParts(w: World, ch: Choice, st: P.Step, horizon: real, v: World)
    requires Turn(w, ch, st, horizon, v) && !w.core.chain[0].what.Arrival?
    ensures w.core.chain != [] && |ch.fates| == |st.down| + |st.up| && P.Next(w.p, st, v.p)
    ensures st.event == EventOf(w.core.chain[0].what, ch.msg)
    ensures var n := |st.down|;
      v.core == ReceiverCalls(SenderCalls(Pop(w.core), st.down, ch.fates[..n]), st.up, ch.fates[n..])
  {
    hide P.Next, Pop, SenderCalls, ReceiverCalls;
  }

  lemma DataStep(a: P.State, st: P.Step, b: P.State)
    requires P.Next(a, st, b) && st.event.DataIn?
    ensures st.down == [] && b.sender == a.sender && b.data == a.data && b.acks == a.acks + P.ReceiverSent(st.up)
    ensures R.Answers(a.receiver, st.event.pkt, b.receiver, st.up)
  {
    hide Verified, SeqOf, R.Receive, R.Digestible, R.Answers;
  }

  /** The first unacknowledged packet, when it arrives, is acknowledged. */
  lemma FirstAcknowledged(a: P.State, st: P.Step, b: P.State)
    requires P.Inv(a) && P.Next(a, st, b) && a.sender.ackExpected < |a.sender.built|
    requires st.event == P.DataIn(a.sender.built[a.sender.ackExpected])
    ensures Verified(st.event.pkt) && a.sender.ackExpected < b.receiver.expected
  {
    hide P.Inv, P.Next, Verified, SeqOf, S.Sound;
    P.InvParts(a);
    P.GoodPacket(a.sender, a.sender.ackExpected);
    P.InvCoupled(a);
    P.ArrivalPasses(a, st, b, a.sender.ackExpected);
  }

  lemma DataTurn(w: World, ch: Choice, st: P.Step, horizon: real, v: World, limit: Delay)
    requires Inv(w) && Turn(w, ch, st, horizon, v) && AllPrompt(st, ch.fates, limit) && w.core.chain[0].what.DataIn?
    ensures v.p.sender == w.p.sender && Weight(v.core.chain) < Weight(w.core.chain)
    ensures forall x {:trigger x in v.core.chain} :: x in v.core.chain ==>
      x in w.core.chain || New(x, v.p.data, v.p.acks)
    ensures w.p.data <= v.p.data && w.p.acks <= v.p.acks
    ensures forall k: nat {:trigger Promise(v.p.sender, v.core.chain, k, limit)} ::
      Promise(w.p.sender, w.core.chain, k, limit) ==> Promise(v.p.sender, v.core.chain, k, limit)
  {
    hide P.Inv, P.Next, CoreOk, Inv, Turn, ReceiverCalls, Schedule, Promise, Verified, SeqOf, R.Answers, P.ReceiverSent;
    TurnParts(w, ch, st, horizon, v);
    InvOf(w);
    DataStep(w.p, st, v.p);
    var c, e := Pop(w.core), w.core.chain[0];
    var ack, delay := AnswerDoes(c, w.p.receiver, e.what.pkt, v.p.receiver, st.up, ch.fates[|st.down|..], limit);
    var n := Entry(c.nextId, c.now + delay, AckIn(ack));
    ScheduleDoes(c.(nextId := c.nextId + 1), n);
    forall until | Helps(w.p.sender, e, until, limit) ensures Underway(v.p.sender, v.core.chain, until, limit) {
      FirstAcknowledged(w.p, st, v.p);
      assert Helps(v.p.sender, n, until, limit);
    }
    forall k: nat {:trigger Promise(v.p.sender, v.core.chain, k, limit)} | Promise(w.p.sender, w.core.chain, k, limit)
      ensures Promise(v.p.sender, v.core.chain, k, limit)
    {
      PromiseStays(w.p.sender, w.core.chain, v.core.chain, k, limit);
    }
  }

  lemma SenderStep(a: P.State, st: P.Step, b: P.State)
    requires P.Next(a, st, b) && (st.event.AckIn? || st.event.Expire?)
    ensures st.up == [] && b.receiver == a.receiver && b.acks == a.acks && b.data == a.data + P.SenderSent(st.down)
    ensures st.event.AckIn? ==> S.FromLowerLayer(a.sender, st.event.ack, b.sender, st.down)
    ensures st.event.Expire? ==> a.sender.ackExpected <= |a.sender.built| && S.TimedOut(a.sender, b.sender, st.down)
  {
    hide Verified, SeqOf, S.FromLowerLayer, S.TimedOut, P.SenderSent;
  }

  const FULL_LOAD := 24

  /** A fresh acknowledgement moves the sender on; any other changes nothing, except that one for
      the last packet makes sure that the timer is off. */
  lemma AckStep(s: S.Sender, p: Packet, t: S.Sender, calls: seq<S.Call>)
    requires S.FromLowerLayer(s, p, t, calls)
    ensures t.msgs == s.msgs && Load(calls) <= FULL_LOAD
    ensures if Verified(p) && s.ackExpected <= SeqOf(p) < |s.built| then s.ackExpected < t.ackExpected
      else t == s && (calls == [] || calls == [S.StopTimer])
  {
    hide Verified, SeqOf, S.Sound;
    LoadBound(calls);
    if Verified(p) && s.ackExpected <= SeqOf(p) < |s.built| {
      S.SendsAt(t.built[|s.built|..]);
    }
  }

  lemma LightLoad()
    ensures Load([]) == 0 && Load([S.StopTimer]) == 0
  {
  }

  /** Of an acknowledgement that promises something the sender takes notice. */
  lemma PromisedIsFresh(a: P.State, p: Packet)
    requires P.Inv(a) && (Verified(p) ==> p in a.acks) && Verified(p) && a.sender.ackExpected <= SeqOf(p)
    ensures SeqOf(p) < |a.sender.built|
  {
    hide S.Sound, R.Sound, P.HeldOk, Payloads, Reassembly, Verified, SeqOf;
  }

  lemma StaleHelpsNot(a: P.State, e: Entry, p: Packet, limit: real)
    requires P.Inv(a) && (Verified(p) ==> p in a.acks) && e.what == AckIn(p)
    requires !(Verified(p) && a.sender.ackExpected <= SeqOf(p) < |a.sender.built|)
    ensures forall until :: !Helps(a.sender, e, until, limit)
  {
    hide P.Inv, Verified, SeqOf;
    if Verified(p) && a.sender.ackExpected <= SeqOf(p) {
      PromisedIsFresh(a, p);
    }
  }

  lemma AckWasSent(a: P.State, st: P.Step, b: P.State)
    requires P.Next(a, st, b) && st.event.AckIn?
    ensures Verified(st.event.ack) ==> st.event.ack in a.acks
  {
    hide Verified, SeqOf, S.FromLowerLayer;
  }

  lemma NoTimeoutLeft(c: Core, s: S.Sender, k: nat, limit: real)
    requires CoreOk(c)
    ensures Promise(s, Simulation.StopTimer(c).chain, k, limit)
  {
    hide Sorted, DistinctIds, Remove, Underway, Simulation.StopTimer;
    StopTimerOk(c);
  }

  lemma AckTurn(w: World, ch: Choice, st: P.Step, horizon: real, v: World, limit: Delay)
    requires Inv(w) && Turn(w, ch, st, horizon, v) && AllPrompt(st, ch.fates, limit) && w.core.chain[0].what.AckIn?
    ensures v.p.sender.msgs == w.p.sender.msgs && w.p.data <= v.p.data && w.p.acks <= v.p.acks
    ensures forall x {:trigger x in v.core.chain} :: x in v.core.chain ==>
      x in w.core.chain || New(x, v.p.data, v.p.acks)
    ensures if w.p.sender.ackExpected < v.p.sender.ackExpected then
        Weight(v.core.chain) < Weight(w.core.chain) + FULL_LOAD
      else
        && v.p.sender == w.p.sender && Weight(v.core.chain) < Weight(w.core.chain)
        && forall k: nat {:trigger Promise(v.p.sender, v.core.chain, k, limit)} ::
          Promise(w.p.sender, w.core.chain, k, limit) ==> Promise(v.p.sender, v.core.chain, k, limit)
  {
    hide P.Inv, P.Next, CoreOk, Inv, Turn, SenderCalls, Promise, Verified, SeqOf, S.FromLowerLayer, P.SenderSent, Load;
    TurnParts(w, ch, st, horizon, v);
    InvOf(w);
    SenderStep(w.p, st, v.p);
    AckWasSent(w.p, st, v.p);
    var c, p, calls := Pop(w.core), w.core.chain[0].what.ack, st.down;
    assert ch.fates[..|calls|] + ch.fates[|calls|..] == ch.fates;
    AckStep(w.p.sender, p, v.p.sender, calls);
    SenderCallsDo(c, calls, ch.fates[..|calls|], limit);
    LightLoad();
    if v.p.sender == w.p.sender {
      forall k: nat {:trigger Promise(v.p.sender, v.core.chain, k, limit)} | Promise(w.p.sender, w.core.chain, k, limit)
        ensures Promise(v.p.sender, v.core.chain, k, limit)
      {
        StaleKeepsPromise(w, p, calls, ch.fates[..|calls|], k, limit);
      }
    }
  }

  /** An acknowledgement of nothing new keeps the promise. */
  lemma StaleKeepsPromise(w: World, p: Packet, calls: seq<S.Call>, fates: seq<Fate>, k: nat, limit: real)
    requires P.Inv(w.p) && CoreOk(w.core) && w.core.chain != [] && w.core.chain[0].what == AckIn(p)
    requires (Verified(p) ==> p in w.p.acks) && |fates| == |calls|
    requires !(Verified(p) && w.p.sender.ackExpected <= SeqOf(p) < |w.p.sender.built|)
    requires S.FromLowerLayer(w.p.sender, p, w.p.sender, calls) && Promise(w.p.sender, w.core.chain, k, limit)
    ensures Promise(w.p.sender, SenderCalls(Pop(w.core), calls, fates).chain, k, limit)
  {
    hide P.Inv, CoreOk, Promise, Verified, SeqOf, S.FromLowerLayer, Simulation.StopTimer;
    var s := w.p.sender;
    AckStep(s, p, s, calls);
    if calls == [] {
      StaleHelpsNot(w.p, w.core.chain[0], p, limit);
      TailMembers(w.core.chain);
      PromiseStays(s, w.core.chain, w.core.chain[1..], k, limit);
    } else {
      PopOk(w.core);
      assert calls[..0] == [] && fates[..0] == [];
      assert SenderCalls(Pop(w.core), calls, fates) == Simulation.StopTimer(Pop(w.core));
      NoTimeoutLeft(Pop(w.core), s, k, limit);
    }
  }

  lemma TailMembers(chain: seq<Entry>)
    requires chain != []
    ensures forall x {:trigger x in chain[1..]} :: x in chain[1..] ==> x in chain
  {
  }

  lemma HelpsBefore(s: S.Sender, x: Entry, until: real, limit: Delay)
    requires until <= x.time
    ensures !Helps(s, x, until, limit)
  {
    hide Verified, SeqOf;
  }

  /** While that holds for `k == 0` the timeout is not the first event. */
  lemma PromiseComesFirst(c: Core, s: S.Sender, limit: Delay)
    requires CoreOk(c) && c.chain != [] && c.chain[0].what.Timeout?
    ensures !Promise(s, c.chain, 0, limit)
  {
    hide DistinctIds, TimerEntry, TimerInChain, Helps;
    var e := c.chain[0];
    forall x | x in c.chain ensures !Helps(s, x, e.time, limit) {
      var i :| 0 <= i < |c.chain| && c.chain[i] == x;
      HelpsBefore(s, x, e.time, limit);
    }
    assert e in c.chain && !Underway(s, c.chain, After(e.time, 0), limit);
  }

  /** The chain after `StartTimer` and some packets passed down: everything is still on it, its one
      timeout is a whole timeout ahead, and the first of the packets arrives within `limit`. */
  ghost predicate Resent(c: Core, before: seq<Entry>, now: real, pkts: seq<Packet>, limit: real) {
    && CoreOk(c) && c.now == now
    && (forall x {:trigger x in before} :: x in before ==> x in c.chain)
    && (forall e {:trigger e in c.chain} :: e in c.chain && e.what.Timeout? ==> e.time == now + TIMEOUT)
    && (pkts != [] ==> exists x :: x in c.chain && x.what == DataIn(pkts[0]) && x.time <= now + limit)
  }

  lemma Restarted(c: Core, limit: real)
    requires CoreOk(c) && c.timer == None
    ensures Resent(StartTimer(c, TIMEOUT), c.chain, c.now, [], limit)
  {
    hide Sorted, DistinctIds, Insert, Remove;
    StartTimerOk(c, TIMEOUT);
    NoTimeout(c);
    ScheduleDoes(c.(nextId := c.nextId + 1), Entry(c.nextId, c.now + TIMEOUT, Timeout));
  }

  lemma NoTimeout(c: Core)
    requires CoreOk(c) && c.timer == None
    ensures forall e {:trigger e in c.chain} :: e in c.chain ==> !e.what.Timeout?
  {
    hide Sorted, DistinctIds;
  }

  lemma OneMoreSent(c: Core, before: seq<Entry>, now: real, pkts: seq<Packet>, p: Packet, fate: Fate, limit: real)
    requires Resent(c, before, now, pkts, limit) && Prompt(p, fate, limit)
    ensures Resent(SenderCall(c, S.ToLower(p), fate), before, now, pkts + [p], limit)
  {
    hide CoreOk, Insert, Schedule;
    TransmitOk(c, DataIn(p), fate.delay);
    var n := Entry(c.nextId, c.now + fate.delay, DataIn(p));
    ScheduleDoes(c.(nextId := c.nextId + 1), n);
    var d := SenderCall(c, S.ToLower(p), fate);
    assert d.now == now by { ScheduleNow(c.(nextId := c.nextId + 1), n); }
    if pkts != [] {
      var x :| x in c.chain && x.what == DataIn(pkts[0]) && x.time <= now + limit;
      assert x in d.chain;
    } else {
      assert n in d.chain;
    }
  }

  lemma ScheduleNow(c: Core, e: Entry)
    ensures Schedule(c, e).now == c.now
  {
  }

  lemma {:induction false} ResentAfter(c: Core, pkts: seq<Packet>, fates: seq<Fate>, limit: real)
    requires CoreOk(c) && c.timer == None && |fates| == |[S.StartTimer] + S.Sends(pkts)|
    requires DownPrompt([S.StartTimer] + S.Sends(pkts), fates, limit)
    ensures Resent(SenderCalls(c, [S.StartTimer] + S.Sends(pkts), fates), c.chain, c.now, pkts, limit)
    decreases |pkts|
  {
    hide CoreOk, Resent, SenderCall, Prompt;
    var calls := [S.StartTimer] + S.Sends(pkts);
    var n := |calls| - 1;
    if pkts == [] {
      assert calls[..0] == [] && calls == [S.StartTimer];
      Restarted(c, limit);
      StartCall(c, fates[0]);
    } else {
      var last := |pkts| - 1;
      assert calls[..n] == [S.StartTimer] + S.Sends(pkts[..last]) && calls[n] == S.ToLower(pkts[last]);
      ResentAfter(c, pkts[..last], fates[..n], limit);
      var d := SenderCalls(c, calls[..n], fates[..n]);
      OneMoreSent(d, c.chain, c.now, pkts[..last], pkts[last], fates[n], limit);
      assert pkts == pkts[..last] + [pkts[last]];
    }
  }

  lemma StartCall(c: Core, fate: Fate)
    ensures SenderCall(c, S.StartTimer, fate) == StartTimer(c, TIMEOUT)
  {
  }

  /** How often the timer can expire until an acknowledgement of what it sent again is back. */
  function Expiries(limit: Delay): (k: nat)
    ensures 2.0 * limit < TIMEOUT * (k + 1) as real
  {
    (2.0 * limit / TIMEOUT).Floor
  }

  /** The packets an expired timer has sent again make a promise. */
  lemma ResentPromises(s: S.Sender, c: Core, before: seq<Entry>, now: real, limit: Delay)
    requires s.ackExpected < |s.built| && Resent(c, before, now, s.built[s.ackExpected..], limit)
    ensures Promise(s, c.chain, Expiries(limit), limit)
  {
    hide CoreOk, Verified, SeqOf, Expiries;
    var x :| x in c.chain && x.what == DataIn(s.built[s.ackExpected..][0]) && x.time <= now + limit;
    assert Helps(s, x, After(now + TIMEOUT, Expiries(limit)), limit);
  }

  /** A promise made before is still good; it has one expiry less to wait. */
  lemma PromiseComesNearer(s: S.Sender, chain: seq<Entry>, t: S.Sender, c: Core, now: real, pkts: seq<Packet>, k: nat,
                           limit: real)
    requires chain != [] && chain[0].what.Timeout? && chain[0].time == now && Promise(s, chain, k + 1, limit)
    requires Resent(c, chain[1..], now, pkts, limit)
    requires t.ackExpected == s.ackExpected && s.built <= t.built
    ensures Promise(t, c.chain, k, limit)
  {
    hide CoreOk, Verified, SeqOf;
    assert chain[0] in chain;
    var x :| x in chain && Helps(s, x, After(now, k + 1), limit);
    HeadOrTail(chain, x);
    assert After(now, k + 1) == After(now + TIMEOUT, k);
    assert Helps(t, x, After(now + TIMEOUT, k), limit);
  }

  lemma ExpireStep(s: S.Sender, t: S.Sender, calls: seq<S.Call>)
    requires s.ackExpected <= |s.built| && S.TimedOut(s, t, calls)
    ensures t.msgs == s.msgs && t.ackExpected == s.ackExpected <= |s.built| <= |t.built|
    ensures s.built <= t.built
    ensures calls == [S.StartTimer] + S.Sends(t.built[s.ackExpected..]) && Load(calls) < FULL_LOAD
  {
    hide S.Sound;
    LoadBound(calls);
    S.SendsAt(t.built[s.ackExpected..]);
  }

  lemma TimerMeansOpen(a: P.State)
    requires P.Inv(a) && a.timer
    ensures a.sender.ackExpected < |a.sender.built|
  {
    hide S.Sound, P.Coupled, P.NetworkOk;
  }

  lemma TimeoutTurn(w: World, ch: Choice, st: P.Step, horizon: real, v: World, limit: Delay)
    requires Inv(w) && Turn(w, ch, st, horizon, v) && AllPrompt(st, ch.fates, limit) && w.core.chain[0].what.Timeout?
    ensures v.p.sender.msgs == w.p.sender.msgs && w.p.data <= v.p.data && w.p.acks <= v.p.acks
    ensures forall x {:trigger x in v.core.chain} :: x in v.core.chain ==>
      x in w.core.chain || New(x, v.p.data, v.p.acks)
    ensures v.p.sender.ackExpected == w.p.sender.ackExpected
    ensures Weight(v.core.chain) < Weight(w.core.chain) + FULL_LOAD
    ensures !Promise(w.p.sender, w.core.chain, 0, limit)
    ensures Promise(v.p.sender, v.core.chain, Expiries(limit), limit)
    ensures forall k: nat {:trigger Promise(v.p.sender, v.core.chain, k, limit)} ::
      Promise(w.p.sender, w.core.chain, k + 1, limit) ==> Promise(v.p.sender, v.core.chain, k, limit)
  {
    hide P.Inv, P.Next, CoreOk, Inv, Turn, SenderCalls, Promise, Verified, SeqOf, S.TimedOut, P.SenderSent, Load;
    hide Resent, S.Sends, Expiries;
    TurnParts(w, ch, st, horizon, v);
    InvOf(w);
    SenderStep(w.p, st, v.p);
    PopOk(w.core);
    TimerMeansOpen(w.p);
    PromiseComesFirst(w.core, w.p.sender, limit);
    var c, s, t := Pop(w.core), w.p.sender, v.p.sender;
    var fates := ch.fates[..|st.down|];
    ExpireStep(s, t, st.down);
    SenderCallsDo(c, st.down, fates, limit);
    var pkts := t.built[s.ackExpected..];
    ResentAfter(c, pkts, fates, limit);
    ResentPromises(t, v.core, c.chain, c.now, limit);
    forall k: nat {:trigger Promise(t, v.core.chain, k, limit)} | Promise(s, w.core.chain, k + 1, limit)
      ensures Promise(t, v.core.chain, k, limit)
    {
      PromiseComesNearer(s, w.core.chain, t, v.core, c.now, pkts, k, limit);
    }
  }

  // ----- All turns

  /** The turns that each packet still unacknowledged may take. */
  function Share(limit: Delay): nat {
    FULL_LOAD * (Expiries(limit) + 2)
  }

  ghost function Remaining(w: World): nat
    requires Inv(w)
  {
    P.RemainingAtLeast(w.p);
    |Payloads(w.p.sender.msgs)| - w.p.sender.ackExpected
  }

  function Times(a: nat, b: nat): nat {
    a * b
  }

  /** How many turns can follow: each one makes this smaller. */
  ghost function Bound(w: World, limit: Delay): nat
    requires Inv(w)
  {
    Times(Share(limit), Remaining(w))
    + FULL_LOAD * Broken(w.p.sender, w.core.chain, Expiries(limit) + 1, limit)
    + Weight(w.core.chain)
  }

  lemma ShareEach(share: nat, n: nat, m: nat)
    requires m < n
    ensures share * m + share <= share * n
  {
    assert share * n == share * m + share * (n - m);
    MulAtLeastOne(share, n - m);
  }

  lemma MulAtLeastOne(a: nat, b: nat)
    requires b >= 1
    ensures a * b >= a
  {
    assert a * b == a * (b - 1) + a;
  }

  /** Either something new is acknowledged, or the timer is that much nearer to no longer expiring in
      vain, or there is less on the chain. */
  lemma TurnDecreases(w: World, ch: Choice, st: P.Step, horizon: real, v: World, limit: Delay)
    requires Inv(w) && Inv(v) && Quiet(w.core.chain)
    requires Turn(w, ch, st, horizon, v) && AllPrompt(st, ch.fates, limit)
    ensures Quiet(v.core.chain) && Bound(v, limit) < Bound(w, limit)
    ensures v.p.sender.msgs == w.p.sender.msgs && w.p.data <= v.p.data && w.p.acks <= v.p.acks
    ensures forall x {:trigger x in v.core.chain} :: x in v.core.chain ==>
      x in w.core.chain || New(x, v.p.data, v.p.acks)
  {
    hide Inv, P.Next, Payloads, Promise, Weight, AllPrompt, Expiries, Share;
    assert w.core.chain[0] in w.core.chain;
    var s, t, k := w.p.sender, v.p.sender, Expiries(limit);
    match w.core.chain[0].what
    case DataIn(_) =>
      DataTurn(w, ch, st, horizon, v, limit);
      NoMoreBroken(s, w.core.chain, v.core.chain, k + 1, limit);
    case AckIn(_) =>
      AckTurn(w, ch, st, horizon, v, limit);
      if s.ackExpected < t.ackExpected {
        ShareEach(Share(limit), Remaining(w), Remaining(v));
        ShareCovers(limit);
      } else {
        NoMoreBroken(s, w.core.chain, v.core.chain, k + 1, limit);
      }
    case Timeout =>
      TimeoutTurn(w, ch, st, horizon, v, limit);
      OneLessBroken(s, w.core.chain, t, v.core.chain, k, limit);
  }

  lemma ShareCovers(limit: Delay)
    ensures Share(limit) == FULL_LOAD * (Expiries(limit) + 1) + FULL_LOAD
  {
  }

  /** Turns one after another over prompt links. */
  ghost predicate PromptRun(worlds: seq<World>, choices: seq<Choice>, steps: seq<P.Step>, horizon: real, limit: real) {
    |worlds| == |choices| + 1 == |steps| + 1 &&
    forall i {:trigger steps[i]} :: 0 <= i < |steps| ==>
      Turn(worlds[i], choices[i], steps[i], horizon, worlds[i + 1]) && AllPrompt(steps[i], choices[i].fates, limit)
  }

  lemma {:induction false} PromptRunDecreases(worlds: seq<World>, choices: seq<Choice>, steps: seq<P.Step>,
                                              horizon: real, limit: Delay, n: nat)
    requires PromptRun(worlds, choices, steps, horizon, limit) && n <= |steps|
    requires Inv(worlds[0]) && Quiet(worlds[0].core.chain)
    ensures Inv(worlds[n]) && Quiet(worlds[n].core.chain) && Bound(worlds[n], limit) + n <= Bound(worlds[0], limit)
    ensures worlds[n].p.sender.msgs == worlds[0].p.sender.msgs
  {
    hide Inv, Quiet, Turn, AllPrompt, Bound;
    if n > 0 {
      PromptRunDecreases(worlds, choices, steps, horizon, limit, n - 1);
      TurnKeepsInv(worlds[n - 1], choices[n - 1], steps[n - 1], horizon, worlds[n]);
      TurnDecreases(worlds[n - 1], choices[n - 1], steps[n - 1], horizon, worlds[n], limit);
    }
  }

  lemma {:induction false} WeightBelow(chain: seq<Entry>)
    ensures Weight(chain) <= 2 * |chain|
  {
    if chain != [] {
      WeightBelow(chain[1..]);
    }
  }

  lemma BoundBelow(w: World, limit: Delay)
    requires Inv(w)
    ensures Bound(w, limit) <=
      FULL_LOAD * (Expiries(limit) + 2) * (Remaining(w) + 1) + 2 * |w.core.chain|
  {
    hide Inv, Remaining, Promise, Weight, Expiries;
    WeightBelow(w.core.chain);
    assert Share(limit) * (Remaining(w) + 1) == Share(limit) * Remaining(w) + Share(limit);
  }

  /** The main loop ends: without further arrivals and over links that take at most `limit` for a
      packet only so many turns can follow, however the packets overtake each other, however often
      the timer expires before an acknowledgement can be back, and whatever was lost before; and
      when the chain is empty everything submitted has been delivered. */
  lemma LoopEnds(worlds: seq<World>, choices: seq<Choice>, steps: seq<P.Step>, horizon: real, limit: Delay)
    requires PromptRun(worlds, choices, steps, horizon, limit) && Inv(worlds[0]) && Quiet(worlds[0].core.chain)
    ensures |steps| <=
      FULL_LOAD * (Expiries(limit) + 2) * (Remaining(worlds[0]) + 1) + 2 * |worlds[0].core.chain|
    ensures var w := worlds[|steps|];
      w.core.chain == [] ==> w.p.receiver.asm.delivered == worlds[0].p.sender.msgs && w.delivered == w.sent
  {
    hide PromptRun, Inv, Bound, Remaining, Payloads, Expiries;
    RunLengths(worlds, choices, steps, horizon, limit);
    PromptRunDecreases(worlds, choices, steps, horizon, limit, |steps|);
    BoundBelow(worlds[0], limit);
    if worlds[|steps|].core.chain == [] {
      NothingLeft(worlds[|steps|]);
    }
  }

  lemma RunLengths(worlds: seq<World>, choices: seq<Choice>, steps: seq<P.Step>, horizon: real, limit: real)
    requires PromptRun(worlds, choices, steps, horizon, limit)
    ensures |worlds| == |choices| + 1 == |steps| + 1
  {
    hide Turn, AllPrompt;
  }

  // ----- Until the chain is empty there is a next turn

  /** Packets under way whose checksum is right were really sent. */
  ghost predicate Genuine(w: World) {
    forall e {:trigger e in w.core.chain} :: e in w.core.chain ==>
      match e.what
      case DataIn(p) => Verified(p) ==> p in w.p.data
      case AckIn(p) => Verified(p) ==> p in w.p.acks
      case _ => true
  }

  /** Links that lose nothing and take no time. */
  function DownFates(calls: seq<S.Call>): (fates: seq<Fate>)
    ensures |fates| == |calls| && DownPrompt(calls, fates, 0.0)
  {
    seq(|calls|, i requires 0 <= i < |calls| => if calls[i].ToLower? then Arrives(calls[i].pkt, 0.0) else Lost)
  }

  function UpFates(calls: seq<R.Call>): (fates: seq<Fate>)
    ensures |fates| == |calls| && UpPrompt(calls, fates, 0.0)
  {
    seq(|calls|, i requires 0 <= i < |calls| => if calls[i].ToLower? then Arrives(calls[i].pkt, 0.0) else Lost)
  }

  lemma CanTurn(w: World, horizon: real) returns (ch: Choice, st: P.Step, v: World)
    requires Inv(w) && Quiet(w.core.chain) && Genuine(w) && w.core.chain != []
    ensures Turn(w, ch, st, horizon, v) && AllPrompt(st, ch.fates, 0.0)
  {
    hide P.Inv, P.Next, CoreOk, Verified, Pop, Calls, Recur, UpperTotal, DownPrompt, UpPrompt;
    var e, b := w.core.chain[0], w.p;
    assert e in w.core.chain;
    match e.what {
      case DataIn(p) => st, b := P.CanReceive(w.p, p);
      case AckIn(p) => st, b := P.CanTakeAck(w.p, p);
      case Timeout =>
        PopOk(w.core);
        st, b := P.CanExpire(w.p);
    }
    ch := Choice([], 0.0, DownFates(st.down) + UpFates(st.up));
    assert ch.fates[..|st.down|] == DownFates(st.down) && ch.fates[|st.down|..] == UpFates(st.up);
    var c := Recur(Calls(Pop(w.core), st, ch.fates), e, ch.gap, horizon);
    v := World(b, c, w.sent, w.delivered + UpperTotal(st.up));
  }

  lemma StaysGenuine(w: World, v: World)
    requires Genuine(w) && w.p.data <= v.p.data && w.p.acks <= v.p.acks
    requires forall x {:trigger x in v.core.chain} :: x in v.core.chain ==>
      x in w.core.chain || New(x, v.p.data, v.p.acks)
    ensures Genuine(v)
  {
    hide Verified;
  }

  /** So from every such state the loop can be run until it ends. */
  lemma {:induction false} CanRunOut(w: World, horizon: real)
    returns (worlds: seq<World>, choices: seq<Choice>, steps: seq<P.Step>)
    requires Inv(w) && Quiet(w.core.chain) && Genuine(w)
    ensures PromptRun(worlds, choices, steps, horizon, 0.0) && worlds[0] == w && worlds[|steps|].core.chain == []
    decreases Bound(w, 0.0)
  {
    hide Inv, Quiet, Genuine, P.Next, Calls, Recur, DownPrompt, UpPrompt, Bound;
    if w.core.chain == [] {
      return [w], [], [];
    }
    var ch, st, v := CanTurn(w, horizon);
    TurnKeepsInv(w, ch, st, horizon, v);
    TurnDecreases(w, ch, st, horizon, v, 0.0);
    StaysGenuine(w, v);
    worlds, choices, steps := CanRunOut(v, horizon);
    TurnInFront(w, ch, st, worlds, choices, steps, horizon);
    worlds, choices, steps := [w] + worlds, [ch] + choices, [st] + steps;
  }

  lemma TurnInFront(w: World, ch: Choice, st: P.Step, worlds: seq<World>, choices: seq<Choice>, steps: seq<P.Step>,
                    horizon: real)
    requires PromptRun(worlds, choices, steps, horizon, 0.0)
    requires Turn(w, ch, st, horizon, worlds[0]) && AllPrompt(st, ch.fates, 0.0)
    ensures PromptRun([w] + worlds, [ch] + choices, [st] + steps, horizon, 0.0)
    ensures ([w] + worlds)[|steps| + 1] == worlds[|steps|]
  {
    hide P.Next, Calls, Recur, DownPrompt, UpPrompt;
  }

  // ----- When the arrivals stop

  /** There is never more than one arrival on the chain. */
  ghost predicate OneArrival(chain: seq<Entry>) {
    forall x, y :: x in chain && y in chain && x.what.Arrival? && y.what.Arrival? ==> x.id == y.id
  }

  lemma SenderCallAdds(c: Core, call: S.Call, fate: Fate)
    ensures forall x {:trigger x in SenderCall(c, call, fate).chain} ::
      x in SenderCall(c, call, fate).chain && x.what.Arrival? ==> x in c.chain
  {
    hide Weight, Insert, Remove, Schedule, Simulation.StopTimer;
    StopTimerDoes(c);
    var s := Simulation.StopTimer(c);
    ScheduleDoes(s.(nextId := s.nextId + 1), Entry(s.nextId, s.now + TIMEOUT, Timeout));
    if call.ToLower? && fate.Arrives? {
      ScheduleDoes(c.(nextId := c.nextId + 1), Entry(c.nextId, c.now + fate.delay, DataIn(fate.bytes)));
    }
  }

  lemma {:induction false} SenderCallsAdd(c: Core, calls: seq<S.Call>, fates: seq<Fate>)
    requires |fates| == |calls|
    ensures forall x {:trigger x in SenderCalls(c, calls, fates).chain} ::
      x in SenderCalls(c, calls, fates).chain && x.what.Arrival? ==> x in c.chain
    ensures SenderCalls(c, calls, fates).now == c.now
    decreases |calls|
  {
    hide SenderCall;
    if calls != [] {
      var last := |calls| - 1;
      SenderCallsAdd(c, calls[..last], fates[..last]);
      var d := SenderCalls(c, calls[..last], fates[..last]);
      SenderCallAdds(d, calls[last], fates[last]);
      SenderCallNow(d, calls[last], fates[last]);
    }
  }

  lemma SenderCallNow(c: Core, call: S.Call, fate: Fate)
    ensures SenderCall(c, call, fate).now == c.now
  {
    hide Insert, Remove;
  }

  lemma {:induction false} ReceiverCallsAdd(c: Core, calls: seq<R.Call>, fates: seq<Fate>)
    requires |fates| == |calls|
    ensures forall x {:trigger x in ReceiverCalls(c, calls, fates).chain} ::
      x in ReceiverCalls(c, calls, fates).chain && x.what.Arrival? ==> x in c.chain
    ensures ReceiverCalls(c, calls, fates).now == c.now
    decreases |calls|
  {
    hide Schedule, Insert;
    if calls != [] {
      var last := |calls| - 1;
      ReceiverCallsAdd(c, calls[..last], fates[..last]);
      var d := ReceiverCalls(c, calls[..last], fates[..last]);
      if calls[last].ToLower? && fates[last].Arrives? {
        var n := Entry(d.nextId, d.now + fates[last].delay, AckIn(fates[last].bytes));
        ScheduleDoes(d.(nextId := d.nextId + 1), n);
        ScheduleNow(d.(nextId := d.nextId + 1), n);
      }
    }
  }

  /** What a turn makes of the arrivals: only one taken from the chain before the time `horizon` comes
      back. */
  lemma TurnArrivals(w: World, ch: Choice, st: P.Step, horizon: real, v: World)
    requires CoreOk(w.core) && Turn(w, ch, st, horizon, v)
    ensures var e := w.core.chain[0];
      forall x {:trigger x in v.core.chain} :: x in v.core.chain && x.what.Arrival? ==>
        x in w.core.chain[1..] || (e.what.Arrival? && e.time < horizon && x.id == e.id)
  {
    hide P.Next, Schedule, SenderCalls, ReceiverCalls, CoreOk;
    var c0, e, n := Pop(w.core), w.core.chain[0], |st.down|;
    var c1 := SenderCalls(c0, st.down, ch.fates[..n]);
    SenderCallsAdd(c0, st.down, ch.fates[..n]);
    ReceiverCallsAdd(c1, st.up, ch.fates[n..]);
    var c2 := ReceiverCalls(c1, st.up, ch.fates[n..]);
    ScheduleDoes(c2, e.(time := c2.now + ch.gap));
  }

  lemma OneArrivalStays(w: World, ch: Choice, st: P.Step, horizon: real, v: World)
    requires CoreOk(w.core) && OneArrival(w.core.chain) && Turn(w, ch, st, horizon, v)
    ensures OneArrival(v.core.chain)
    ensures w.core.chain[0].what.Arrival? && horizon <= w.core.chain[0].time ==> Quiet(v.core.chain)
  {
    hide Turn, TimerEntry, TimerInChain;
    TurnArrivals(w, ch, st, horizon, v);
    TurnHasEvent(w, ch, st, horizon, v);
    TailOk(w.core.chain);
    assert w.core.chain[0] in w.core.chain;
  }

  lemma TurnHasEvent(w: World, ch: Choice, st: P.Step, horizon: real, v: World)
    requires Turn(w, ch, st, horizon, v)
    ensures w.core.chain != []
  {
    hide P.Next;
  }

  /** In every run there is at most one arrival on the chain, and the first one that comes at the time
      `horizon` or later is the last. */
  lemma {:induction false} ArrivalsStop(worlds: seq<World>, choices: seq<Choice>, steps: seq<P.Step>, horizon: real,
                                        i: nat)
    requires Run(worlds, choices, steps, horizon) && i < |steps|
    ensures OneArrival(worlds[i].core.chain) && worlds[i].core.chain != []
    ensures worlds[i].core.chain[0].what.Arrival? && horizon <= worlds[i].core.chain[0].time ==>
      Quiet(worlds[i + 1].core.chain)
  {
    hide Turn, OneArrival, Quiet, CoreOk, P.Inv;
    RunInv(worlds, choices, steps, horizon, i);
    if i == 0 {
      StartArrival();
    } else {
      ArrivalsStop(worlds, choices, steps, horizon, i - 1);
      RunInv(worlds, choices, steps, horizon, i - 1);
      OneArrivalStays(worlds[i - 1], choices[i - 1], steps[i - 1], horizon, worlds[i]);
    }
    TurnHasEvent(worlds[i], choices[i], steps[i], horizon, worlds[i + 1]);
    OneArrivalStays(worlds[i], choices[i], steps[i], horizon, worlds[i + 1]);
  }

  /** The turns from `i` on. */
  ghost predicate PromptFrom(choices: seq<Choice>, steps: seq<P.Step>, i: nat, limit: real)
    requires |choices| == |steps|
  {
    forall j {:trigger steps[j]} :: i <= j < |steps| ==>
      |choices[j].fates| == |steps[j].down| + |steps[j].up| && AllPrompt(steps[j], choices[j].fates, limit)
  }

  lemma RestOfRun(worlds: seq<World>, choices: seq<Choice>, steps: seq<P.Step>, horizon: real, i: nat, limit: real)
    requires Run(worlds, choices, steps, horizon) && i <= |steps| && PromptFrom(choices, steps, i, limit)
    ensures PromptRun(worlds[i..], choices[i..], steps[i..], horizon, limit)
  {
    hide Turn, AllPrompt;
  }

  /** So every run ends: behind the arrival that came at the time `horizon` or later, over links that from
      then on take at most `limit` for a packet, only so many turns follow. */
  lemma RunEnds(worlds: seq<World>, choices: seq<Choice>, steps: seq<P.Step>, horizon: real, i: nat, limit: Delay)
    requires Run(worlds, choices, steps, horizon) && i < |steps| && PromptFrom(choices, steps, i + 1, limit)
    requires worlds[i].core.chain != [] && worlds[i].core.chain[0].what.Arrival?
    requires horizon <= worlds[i].core.chain[0].time
    ensures var w := worlds[i + 1];
      Inv(w) && |steps| <= i + 1 + FULL_LOAD * (Expiries(limit) + 2) * (Remaining(w) + 1) + 2 * |w.core.chain|
    ensures var w := worlds[|steps|];
      w.core.chain == [] ==> w.p.receiver.asm.delivered == worlds[i + 1].p.sender.msgs && w.delivered == w.sent
  {
    hide Turn, Quiet, AllPrompt, PromptFrom, PromptRun, Inv, Remaining, Expiries;
    ArrivalsStop(worlds, choices, steps, horizon, i);
    RunInv(worlds, choices, steps, horizon, i + 1);
    RestOfRun(worlds, choices, steps, horizon, i + 1, limit);
    LoopEnds(worlds[i + 1..], choices[i + 1..], steps[i + 1..], horizon, limit);
  }

  lemma StartArrival()
    ensures OneArrival(Simulation.START.core.chain)
  {
  }
}
