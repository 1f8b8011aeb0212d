/** `rdt/rdt_receiver.cc`: the receiving endpoint. As for the sender, a handler returns the
    calls it makes into the simulator, in order. */
module ReceiverSide {
  import opened Bytes
  import opened Packets
  import opened Fragments

  const WINDOWS_SIZE := 10

  datatype Call = ToUpper(msg: Message) | ToLower(pkt: Packet)

  // ----- Specification

  /** The receiver seen from outside: the next packet it expects, the later packets it holds
      by number, and the state of reassembly. */
  datatype Receiver = Receiver(expected: nat, held: map<int, Packet>, asm: Assembly)

  const WAITING := Receiver(0, map[], START)

  /** Held packets are filed under their own number and lie inside the window. */
  ghost predicate Sound(r: Receiver) {
    forall s {:trigger r.held[s]} :: s in r.held ==>
      r.expected < s < r.expected + WINDOWS_SIZE && SeqOf(r.held[s]) == s
  }

  predicate GoodPayload(a: Assembly, p: Packet) {
    0 <= SizeOf(p) <= MAX_PAYLOAD_SIZE && Acceptable(a, PayloadOf(p))
  }

  /** `p` is the expected packet and is taken. */
  function Take(r: Receiver, p: Packet): Receiver
    requires GoodPayload(r.asm, p)
  {
    Receiver(r.expected + 1, r.held, Accept(r.asm, PayloadOf(p)))
  }

  /** The held packet that is now expected, taken out of the ring. */
  function Release(r: Receiver): Receiver {
    r.(held := r.held - {r.expected})
  }

  lemma HeldShrinks(held: map<int, Packet>, s: int)
    requires s in held
    ensures |held - {s}| < |held|
  {
    assert (held - {s}).Keys == held.Keys - {s};
  }

  /** Taking `p` and every held packet that follows on never leaves the buffers. */
  predicate Drainable(r: Receiver, p: Packet)
    decreases |r.held|
  {
    GoodPayload(r.asm, p) &&
    var t := Take(r, p);
    t.expected in t.held ==> (HeldShrinks(t.held, t.expected); Drainable(Release(t), t.held[t.expected]))
  }

  function Drain(r: Receiver, p: Packet): Receiver
    requires Drainable(r, p)
    decreases |r.held|
  {
    var t := Take(r, p);
    if t.expected in t.held then
      HeldShrinks(t.held, t.expected);
      Drain(Release(t), t.held[t.expected])
    else t
  }

  lemma {:induction false} DrainAdvances(r: Receiver, p: Packet)
    requires Drainable(r, p)
    ensures r.expected < Drain(r, p).expected
    decreases |r.held|
  {
    var t := Take(r, p);
    if t.expected in t.held {
      HeldShrinks(t.held, t.expected);
      DrainAdvances(Release(t), t.held[t.expected]);
    }
  }

  /** Every packet after the expected one up to `last` is held. */
  predicate Unbroken(r: Receiver, last: int) {
    r.expected <= last && forall s {:trigger s in r.held} :: r.expected < s <= last ==> s in r.held
  }

  function PayloadOrNone(p: Packet): seq<byte> {
    if 0 <= SizeOf(p) <= MAX_PAYLOAD_SIZE then PayloadOf(p) else []
  }

  /** The payload of `p` and those of the held packets after it up to `last`, in order. */
  function Chained(r: Receiver, p: Packet, last: int): (fs: seq<seq<byte>>)
    requires Unbroken(r, last)
    decreases last - r.expected
  {
    if last == r.expected then [PayloadOrNone(p)]
    else Chained(r, p, last - 1) + [PayloadOrNone(r.held[last])]
  }

  lemma {:induction false} ChainedCons(r: Receiver, p: Packet, u: Receiver, last: int)
    requires Unbroken(r, last) && u.expected == r.expected + 1 <= last
    requires u.held == r.held - {u.expected}
    ensures Unbroken(u, last) && Chained(r, p, last) == [PayloadOrNone(p)] + Chained(u, r.held[u.expected], last)
    decreases last - r.expected
  {
    hide PayloadOrNone;
    if last > u.expected {
      ChainedCons(r, p, u, last - 1);
    }
  }

  /** The packets of `held` numbered above `end`. */
  function Behind(held: map<int, Packet>, end: int): map<int, Packet> {
    map s | s in held && end < s :: held[s]
  }

  /** One turn of the loop: it ends, or goes on with the next held packet. */
  lemma DrainStep(r: Receiver, p: Packet)
    requires Drainable(r, p)
    ensures GoodPayload(r.asm, p)
    ensures var t := Take(r, p);
      if t.expected in t.held then
        Drainable(Release(t), t.held[t.expected]) && Drain(r, p) == Drain(Release(t), t.held[t.expected])
      else Drain(r, p) == t
  {
    hide GoodPayload, Accept;
  }

  /** The other way: what the next turn can take, this one can lead to. */
  lemma DrainableStep(r: Receiver, p: Packet)
    requires GoodPayload(r.asm, p)
    requires var t := Take(r, p); t.expected in t.held ==> Drainable(Release(t), t.held[t.expected])
    ensures Drainable(r, p)
  {
    hide GoodPayload, Accept;
  }

  /** Draining takes the packet and exactly the unbroken run of held packets after it, and keeps
      the rest of the ring as it was. */
  lemma {:induction false} DrainTakesRun(r: Receiver, p: Packet)
    requires Sound(r) && Drainable(r, p)
    ensures var t := Drain(r, p);
      && Unbroken(r, t.expected - 1) && t.expected !in r.held && Sound(t)
      && t.held == Behind(r.held, t.expected)
    decreases |r.held|
  {
    hide GoodPayload, Accept, SeqOf, Sound, Unbroken, Drain, Drainable, Behind;
    DrainStep(r, p);
    var t := Take(r, p);
    if t.expected in t.held {
      HeldShrinks(t.held, t.expected);
      var u, q := Release(t), t.held[t.expected];
      ReleaseSound(r, p);
      DrainTakesRun(u, q);
      DrainAdvances(u, q);
      OneMoreTaken(r, u, Drain(u, q).expected);
    } else {
      NoneTaken(r, p);
    }
  }

  /** The run from `r` is one packet longer than that from `u`; what lies behind it is the same. */
  lemma OneMoreTaken(r: Receiver, u: Receiver, end: int)
    requires u.expected == r.expected + 1 < end && u.expected in r.held && u.held == r.held - {u.expected}
    requires Unbroken(u, end - 1)
    ensures Unbroken(r, end - 1) && (end in r.held <==> end in u.held)
    ensures Behind(u.held, end) == Behind(r.held, end)
  {
    forall s {:trigger s in r.held} | r.expected < s <= end - 1 ensures s in r.held {
      assert s == u.expected || s in u.held;
    }
  }

  lemma NoneTaken(r: Receiver, p: Packet)
    requires Sound(r) && GoodPayload(r.asm, p) && r.expected + 1 !in r.held
    ensures Unbroken(r, r.expected) && Sound(Take(r, p))
    ensures r.held == Behind(r.held, r.expected + 1)
  {
    hide SeqOf, GoodPayload, Accept;
    assert forall s :: s in r.held ==> r.expected + 1 < s;
  }

  /** Reassembly is fed the payloads of that run, in order. */
  lemma {:induction false} DrainReassembles(r: Receiver, p: Packet)
    requires Sound(r) && Drainable(r, p)
    ensures var t := Drain(r, p);
      && Unbroken(r, t.expected - 1)
      && AcceptableAll(r.asm, Chained(r, p, t.expected - 1))
      && t.asm == AcceptAll(r.asm, Chained(r, p, t.expected - 1))
    decreases |r.held|
  {
    hide SizeOf, PayloadOf, SeqOf, Acceptable, Accept, Sound;
    DrainTakesRun(r, p);
    var t := Take(r, p);
    assert PayloadOrNone(p) == PayloadOf(p);
    if t.expected in t.held {
      HeldShrinks(t.held, t.expected);
      var u, q := Release(t), t.held[t.expected];
      assert Sound(u) by { ReleaseSound(r, p); }
      DrainReassembles(u, q);
      var last := Drain(r, p).expected - 1;
      DrainAdvances(u, q);
      ChainedCons(r, p, u, last);
      assert Chained(r, p, last)[1..] == Chained(u, q, last);
    } else {
      assert Chained(r, p, r.expected) == [PayloadOf(p)];
    }
  }

  lemma ReleaseSound(r: Receiver, p: Packet)
    requires Sound(r) && GoodPayload(r.asm, p)
    ensures Sound(Release(Take(r, p)))
  {
    hide SeqOf, GoodPayload, Accept;
  }

  /** What the handler demands of the packet it is given: the payloads it will consume fit. */
  predicate Digestible(r: Receiver, p: Packet) {
    Verified(p) && SeqOf(p) == r.expected ==> Drainable(r, p)
  }

  /** The receiver after a packet arrives: corrupted packets change nothing, later packets
      inside the window are filed unless the slot is taken, the expected one is taken. */
  function Receive(r: Receiver, p: Packet): Receiver
    requires Digestible(r, p)
  {
    if !Verified(p) then r
    else if r.expected < SeqOf(p) < r.expected + WINDOWS_SIZE then
      if SeqOf(p) in r.held then r else r.(held := r.held[SeqOf(p) := p])
    else if SeqOf(p) != r.expected then r
    else Drain(r, p)
  }

  /** The receiver has packet `n`: it took it or holds it. */
  predicate Got(r: Receiver, n: int) {
    n < r.expected || n in r.held
  }

  /** What an arrival changes: besides what it had, the receiver has the packet that arrived, unless that
      is corrupted or ten or more numbers ahead. Everything without a gap before it has been taken, and
      what is held is what arrived. */
  lemma ReceiveGets(r: Receiver, p: Packet)
    requires Sound(r) && Digestible(r, p)
    ensures var t := Receive(r, p);
      && Sound(t) && r.expected <= t.expected && t.expected !in t.held
      && (forall n: int {:trigger n in t.held} {:trigger n in r.held} ::
            (n < t.expected || n in t.held) <==>
            n < r.expected || n in r.held || (Verified(p) && n == SeqOf(p) < r.expected + 10))
      && (forall n: int {:trigger t.held[n]} :: n in t.held ==> t.held[n] == if n in r.held then r.held[n] else p)
      && (!Verified(p) ==> t == r)
  {
    hide SeqOf, Verified, Drain, Drainable, Accept, GoodPayload;
    if Verified(p) && SeqOf(p) == r.expected {
      DrainTakesRun(r, p);
      DrainAdvances(r, p);
      RunGets(r, Drain(r, p));
    }
  }

  /** After the unbroken run from `r` has been taken. */
  lemma RunGets(r: Receiver, t: Receiver)
    requires r.expected < t.expected && Unbroken(r, t.expected - 1) && t.expected !in r.held && Sound(r)
    requires t.held == Behind(r.held, t.expected)
    ensures forall n: int {:trigger n in t.held} {:trigger n in r.held} ::
      (n < t.expected || n in t.held) <==> n <= r.expected || n in r.held
    ensures forall n: int {:trigger t.held[n]} :: n in t.held ==> n in r.held && t.held[n] == r.held[n]
    ensures t.expected !in t.held
  {
    hide SeqOf;
  }

  function Uppers(msgs: seq<Message>): seq<Call> {
    if msgs == [] then [] else Uppers(msgs[..|msgs| - 1]) + [ToUpper(msgs[|msgs| - 1])]
  }

  lemma UppersAppend(msgs: seq<Message>, m: Message)
    ensures Uppers(msgs + [m]) == Uppers(msgs) + [ToUpper(m)]
  {
    assert (msgs + [m])[..|msgs|] == msgs;
  }

  lemma UppersFew(msgs: seq<Message>)
    ensures |msgs| == 0 ==> Uppers(msgs) == []
    ensures |msgs| == 1 ==> Uppers(msgs) == [ToUpper(msgs[0])]
  {
  }

  lemma PayloadIs(p: Packet)
    requires 0 <= SizeOf(p) <= MAX_PAYLOAD_SIZE
    ensures PayloadOf(p) == p[HEADER_SIZE..HEADER_SIZE + SizeOf(p)]
    ensures SizeOf(p) >= 4 ==>
      && PayloadOf(p)[..4] == p[HEADER_SIZE..HEADER_SIZE + 4]
      && PayloadOf(p)[4..] == p[HEADER_SIZE + 4..HEADER_SIZE + SizeOf(p)]
  {
  }

  lemma {:induction false} UppersConcat(a: seq<Message>, b: seq<Message>)
    ensures Uppers(a + b) == Uppers(a) + Uppers(b)
    decreases b
  {
    if b == [] {
      assert a + b == a;
    } else {
      var last := |b| - 1;
      assert a + b == (a + b[..last]) + [b[last]];
      UppersConcat(a, b[..last]);
      UppersAppend(a + b[..last], b[last]);
    }
  }

  lemma UppersFurther(a: seq<Message>, b: seq<Message>, c: seq<Message>)
    requires a <= b <= c
    ensures Uppers(c[|a|..]) == Uppers(b[|a|..]) + Uppers(c[|b|..])
  {
    UppersConcat(b[|a|..], c[|b|..]);
    assert c[|a|..] == b[|a|..] + c[|b|..];
  }

  function Completed(r: Receiver, t: Receiver): seq<Call>
    requires r.asm.delivered <= t.asm.delivered
  {
    Uppers(t.asm.delivered[|r.asm.delivered|..])
  }

  /** Newly completed messages go up in order; then one acknowledgement of everything before
      the packet expected next. */
  ghost predicate Answers(r: Receiver, p: Packet, t: Receiver, calls: seq<Call>) {
    r.asm.delivered <= t.asm.delivered &&
    if !Verified(p) then calls == []
    else exists a: Packet :: IsAck(a, t.expected - 1) && calls == Completed(r, t) + [ToLower(a)]
  }

  // ----- The ring

  /** The packets a ring of ten slots holds when `expected` is expected. */
  function HeldIn(valid: seq<bool>, window: seq<Packet>, expected: int): map<int, Packet>
    requires |valid| == |window| == WINDOWS_SIZE
  {
    map s | expected < s < expected + WINDOWS_SIZE && valid[s % WINDOWS_SIZE] :: window[s % WINDOWS_SIZE]
  }

  lemma HeldStore(valid: seq<bool>, window: seq<Packet>, e: int, s: int, p: Packet)
    requires |valid| == |window| == WINDOWS_SIZE && e < s < e + WINDOWS_SIZE
    ensures (s in HeldIn(valid, window, e)) == valid[s % WINDOWS_SIZE]
    ensures var i := s % WINDOWS_SIZE;
      HeldIn(valid[i := true], window[i := p], e) == HeldIn(valid, window, e)[s := p]
  {
    SlotsDistinct(e, s);
  }

  lemma SlotsDistinct(e: int, s: int)
    requires e < s <= e + WINDOWS_SIZE
    ensures forall k :: e < k <= e + WINDOWS_SIZE && k != s ==> k % WINDOWS_SIZE != s % WINDOWS_SIZE
  {
    forall k | e < k <= e + WINDOWS_SIZE && k != s ensures k % WINDOWS_SIZE != s % WINDOWS_SIZE {
      SlotsDiffer(if k < s then k else s, if k < s then s else k, WINDOWS_SIZE);
    }
  }

  lemma HeldAdvance(valid: seq<bool>, window: seq<Packet>, e: int)
    requires |valid| == |window| == WINDOWS_SIZE && !valid[e % WINDOWS_SIZE]
    ensures var held, i := HeldIn(valid, window, e), (e + 1) % WINDOWS_SIZE;
      if valid[i] then
        e + 1 in held && held[e + 1] == window[i] && HeldIn(valid[i := false], window, e + 1) == held - {e + 1}
      else e + 1 !in held && HeldIn(valid, window, e + 1) == held
  {
    var held, i := HeldIn(valid, window, e), (e + 1) % WINDOWS_SIZE;
    SlotsDistinct(e, e + 1);
    assert (e + WINDOWS_SIZE) % WINDOWS_SIZE == e % WINDOWS_SIZE;
    var next := HeldIn(valid[i := false], window, e + 1);
    assert next.Keys == held.Keys - {e + 1};
    if !valid[i] {
      assert valid[i := false] == valid;
    }
  }

  // ----- The program

  class ReceiverEndpoint {
    var curSize: int
    var curData: array<byte>
    var cursor: nat
    var expected: nat
    const window: array<Packet>
    const validChecks: array<bool>
    ghost var delivered: seq<Message>

    ghost function Asm(): Assembly
      requires cursor <= curData.Length
      reads `curSize, `curData, `cursor, `delivered, curData
    {
      Assembly(delivered, if cursor == 0 then 0 else curSize, curData[..cursor])
    }

    /** Inside a message the buffer has that message's size and is not full. */
    ghost predicate AsmValid()
      reads `curSize, `curData, `cursor
    {
      cursor <= curData.Length && (cursor > 0 ==> cursor < curSize == curData.Length)
    }

    ghost predicate Shaped()
      reads `curSize, `curData, `cursor
    {
      AsmValid() && window.Length == validChecks.Length == WINDOWS_SIZE
    }

    ghost function View(): Receiver
      requires Shaped()
      reads this, curData, window, validChecks
    {
      Receiver(expected, HeldIn(validChecks[..], window[..], expected), Asm())
    }

    ghost predicate Apart()
      reads `curData
    {
      curData as object != window as object && curData as object != validChecks as object
    }

    ghost predicate Valid()
      reads this, curData, window, validChecks
    {
      && Shaped() && Apart()
      && !validChecks[expected % WINDOWS_SIZE]
      && expected + WINDOWS_SIZE < TWO_TO_THE_31
      && Sound(View())
    }

    constructor ()
      ensures Valid() && View() == WAITING && window.Length == 10 == validChecks.Length
      ensures fresh(curData) && fresh(window) && fresh(validChecks)
    {
      curSize := 0;
      curData := new byte[0];
      cursor := 0;
      expected := 0;
      window := new Packet[WINDOWS_SIZE](_ => seq(RDT_PKTSIZE, _ => 0));
      validChecks := new bool[WINDOWS_SIZE](_ => false);
      delivered := [];
    }

    /** `Receiver_Ack` */
    method Acknowledge(ack: int) returns (pkt: Packet)
      requires IsInt32(ack)
      ensures IsAck(pkt, ack)
    {
      var buf := new byte[RDT_PKTSIZE];
      CopyBytes(buf, CHECKSUM_SIZE, IntBytes(ack));
      ghost var body := buf[CHECKSUM_SIZE..];
      assert body[..4] == buf[4..8];
      AddChecksum(buf);
      pkt := buf[..];
      assert pkt[4..] == body;
      assert pkt[4..8] == body[..4];
      IntRoundTrip(ack);
    }

    /** Takes the payload of one packet in sequence (lines 105-128). */
    method AcceptPacket(pkt: Packet) returns (calls: seq<Call>)
      requires AsmValid() && GoodPayload(Asm(), pkt)
      modifies `curSize, `curData, `cursor, `delivered, curData
      ensures AsmValid() && (curData == old(curData) || fresh(curData))
      ensures Asm() == Accept(old(Asm()), PayloadOf(pkt))
      ensures old(delivered) <= delivered && calls == Uppers(delivered[|old(delivered)|..])
    {
      hide BytesInt, Uppers, SizeOf, PayloadOf;
      var payloadSize := SizeOf(pkt);
      ghost var f := PayloadOf(pkt);
      PayloadIs(pkt);
      if cursor == 0 {
        curSize := BytesInt(pkt[HEADER_SIZE..HEADER_SIZE + 4]);
        curData := new byte[curSize];
        CopyBytes(curData, 0, pkt[HEADER_SIZE + 4..HEADER_SIZE + payloadSize]);
        cursor := cursor + payloadSize - 4;
        assert curData[..cursor] == f[4..];
      } else {
        ghost var before := curData[..cursor];
        CopyBytes(curData, cursor, pkt[HEADER_SIZE..HEADER_SIZE + payloadSize]);
        assert curData[..cursor + payloadSize] == before + f;
        cursor := cursor + payloadSize;
      }
      calls := [];
      if curSize == cursor {
        calls := [ToUpper(curData[..cursor])];
        delivered := delivered + [curData[..cursor]];
        cursor := 0;
      }
      UppersFew(delivered[|old(delivered)|..]);
    }

    /** Files a packet that came early, unless its slot is taken (lines 88-93). */
    method FilePacket(pkt: Packet)
      requires Valid() && expected < SeqOf(pkt) < expected + WINDOWS_SIZE
      modifies window, validChecks
      ensures Valid()
      ensures var r, s := old(View()), SeqOf(pkt);
        View() == if s in r.held then r else r.(held := r.held[s := pkt])
    {
      hide SeqOf, Verified;
      ghost var r, valid, slots := View(), validChecks[..], window[..];
      var s := SeqOf(pkt);
      var i := s % WINDOWS_SIZE;
      HeldStore(valid, slots, expected, s, pkt);
      if !validChecks[i] {
        window[i] := pkt;
        validChecks[i] := true;
        assert window[..] == slots[i := pkt] && validChecks[..] == valid[i := true];
        SlotsDiffer(expected, s, WINDOWS_SIZE);
        assert Asm() == r.asm;
      }
    }

    /** Looks for the packet now expected among the held ones and takes it out (lines 130-138). */
    method NextHeld(ghost held: map<int, Packet>) returns (found: bool, pkt: Packet)
      requires window.Length == validChecks.Length == WINDOWS_SIZE
      requires !validChecks[(expected - 1) % WINDOWS_SIZE] && held == HeldIn(validChecks[..], window[..], expected - 1)
      modifies validChecks
      ensures !validChecks[expected % WINDOWS_SIZE]
      ensures found == (expected in held)
      ensures found ==> pkt == held[expected]
      ensures HeldIn(validChecks[..], window[..], expected) == if found then held - {expected} else held
    {
      ghost var valid := validChecks[..];
      HeldAdvance(valid, window[..], expected - 1);
      var i := expected % WINDOWS_SIZE;
      pkt := window[i];
      found := validChecks[i];
      if found {
        validChecks[i] := false;
        assert validChecks[..] == valid[i := false];
      }
    }

    /** One turn of the loop at lines 103-140, with the expected packet in hand. */
    method TakePacket(pkt: Packet) returns (calls: seq<Call>, found: bool, next: Packet)
      requires Valid() && GoodPayload(View().asm, pkt)
      requires expected + 1 + WINDOWS_SIZE < TWO_TO_THE_31
      modifies `expected, `curSize, `curData, `cursor, `delivered, curData, validChecks
      ensures Valid() && (curData == old(curData) || fresh(curData))
      ensures var t := Take(old(View()), pkt);
        && found == (t.expected in t.held)
        && View() == (if found then Release(t) else t)
        && (found ==> next == t.held[t.expected])
      ensures old(delivered) <= delivered && calls == Uppers(delivered[|old(delivered)|..])
    {
      hide SeqOf, Verified, GoodPayload, Accept;
      ghost var r := View();
      ghost var t := Take(r, pkt);
      expected := expected + 1;
      calls := AcceptPacket(pkt);
      assert Asm() == t.asm;
      found, next := NextHeld(t.held);
      assert Asm() == t.asm;
    }

    /** The loop at lines 103-140, entered with the expected packet. */
    method DrainFrom(first: Packet) returns (calls: seq<Call>, lastSeq: int)
      requires Valid() && SeqOf(first) == expected && Drainable(View(), first)
      requires Drain(View(), first).expected + WINDOWS_SIZE < TWO_TO_THE_31
      modifies `expected, `curSize, `curData, `cursor, `delivered, curData, validChecks
      ensures Valid() && (curData == old(curData) || fresh(curData))
      ensures View() == Drain(old(View()), first)
      ensures old(delivered) <= delivered && calls == Uppers(delivered[|old(delivered)|..])
      ensures lastSeq == expected - 1
    {
      hide SeqOf, Verified, GoodPayload, Accept, HeldIn, Drain, Drainable, Asm;
      var pkt := first;
      lastSeq := SeqOf(pkt);
      calls := [];
      ghost var goal := Drain(View(), first);
      while true
        invariant Valid() && (curData == old(curData) || fresh(curData))
        invariant lastSeq == SeqOf(pkt) == expected
        invariant Drainable(View(), pkt) && Drain(View(), pkt) == goal
        invariant old(delivered) <= delivered && calls == Uppers(delivered[|old(delivered)|..])
        decreases |View().held|
      {
        DrainStep(View(), pkt);
        DrainAdvances(View(), pkt);
        ghost var t, d := Take(View(), pkt), delivered;
        var up, found, next := TakePacket(pkt);
        UppersFurther(old(delivered), d, delivered);
        calls := calls + up;
        if !found {
          break;
        }
        HeldShrinks(t.held, t.expected);
        pkt := next;
        lastSeq := SeqOf(pkt);
      }
    }

    /** `Receiver_FromLowerLayer` */
    method FromLower(pkt: Packet) returns (calls: seq<Call>)
      requires Valid() && Digestible(View(), pkt)
      requires Receive(View(), pkt).expected + WINDOWS_SIZE < TWO_TO_THE_31
      modifies this, curData, window, validChecks
      ensures Shaped() && Valid() && (curData == old(curData) || fresh(curData))
      ensures View() == Receive(old(View()), pkt)
      ensures Answers(old(View()), pkt, View(), calls)
    {
      hide SeqOf, Verified, GoodPayload, Accept, Drain, Drainable, Sound;
      calls := [];
      ghost var r := View();
      var ok := VerifyChecksum(pkt);
      if !ok {
        return;
      }
      var packetSeq := SeqOf(pkt);
      if packetSeq > expected && packetSeq < expected + WINDOWS_SIZE {
        FilePacket(pkt);
        var ack := Acknowledge(expected - 1);
        assert Completed(r, View()) == [];
        return [ToLower(ack)];
      } else if packetSeq != expected {
        var ack := Acknowledge(expected - 1);
        assert Completed(r, View()) == [];
        return [ToLower(ack)];
      }
      calls, packetSeq := DrainFrom(pkt);
      var ack := Acknowledge(packetSeq);
      calls := calls + [ToLower(ack)];
    }
  }
}
