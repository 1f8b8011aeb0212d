/** `rdt/rdt_sender.cc`: the sending endpoint.

    The handlers call into the simulator (start or stop the timer, pass a packet down).
    Here a handler returns those calls, in the order in which it makes them. */
module SenderSide {
  import opened Bytes
  import opened Packets
  import opened Fragments

  const MAX_BUFFER_SIZE := 1000
  const MAX_WINDOW_SIZE := 10

  datatype Call = StartTimer | StopTimer | ToLower(pkt: Packet)

  // ----- Specification

  /** The sender seen from outside: every message submitted so far, the first packet not yet
      acknowledged, and every packet ever built (packet `s` is `built[s]`). */
  datatype Sender = Sender(msgs: seq<Message>, ackExpected: nat, built: seq<Packet>)

  const IDLE := Sender([], 0, [])

  function Sends(pkts: seq<Packet>): seq<Call> {
    if pkts == [] then [] else Sends(pkts[..|pkts| - 1]) + [ToLower(pkts[|pkts| - 1])]
  }

  lemma {:induction false} SendsAt(pkts: seq<Packet>)
    ensures |Sends(pkts)| == |pkts| && forall i :: 0 <= i < |pkts| ==> Sends(pkts)[i] == ToLower(pkts[i])
  {
    if pkts != [] {
      SendsAt(pkts[..|pkts| - 1]);
    }
  }

  /** Packet `k` of `pkts` has number `k` and carries payload `k`. */
  ghost predicate CarryAll(pkts: seq<Packet>, payloads: seq<seq<byte>>) {
    |pkts| <= |payloads| &&
    forall k {:trigger Carries(pkts[k], k, payloads[k])} ::
      0 <= k < |pkts| ==> Carries(pkts[k], k, payloads[k])
  }

  lemma CarryAllExtends(pkts: seq<Packet>, payloads: seq<seq<byte>>, more: seq<seq<byte>>)
    requires CarryAll(pkts, payloads) && payloads <= more
    ensures CarryAll(pkts, more)
  {
    forall k | 0 <= k < |pkts| ensures Carries(pkts[k], k, more[k]) {
      assert Carries(pkts[k], k, payloads[k]);
    }
  }

  lemma CarryAllAppend(pkts: seq<Packet>, payloads: seq<seq<byte>>, p: Packet)
    requires CarryAll(pkts, payloads) && |pkts| < |payloads| && Carries(p, |pkts|, payloads[|pkts|])
    ensures CarryAll(pkts + [p], payloads)
  {
    forall k | 0 <= k < |pkts + [p]| ensures Carries((pkts + [p])[k], k, payloads[k]) {
      assert k < |pkts| ==> Carries(pkts[k], k, payloads[k]);
    }
  }

  /** The packets built so far are the first packets of the fragmentation of all messages,
      and at most a window of them is unacknowledged. */
  ghost predicate Sound(s: Sender) {
    && Fits(s.msgs)
    && s.ackExpected <= |s.built| <= s.ackExpected + MAX_WINDOW_SIZE
    && |s.built| <= |Payloads(s.msgs)|
    && CarryAll(s.built, Payloads(s.msgs))
  }

  /** Packets are added until the window is full or no message is left; none is changed. */
  ghost predicate Filled(s: Sender, t: Sender) {
    && t.msgs == s.msgs && t.ackExpected == s.ackExpected
    && s.built <= t.built
    && |t.built| == Min(s.ackExpected + MAX_WINDOW_SIZE, |Payloads(s.msgs)|)
    && Sound(t)
  }

  ghost predicate FromUpperLayer(s: Sender, m: Message, timerSet: bool, t: Sender, calls: seq<Call>) {
    var s1 := s.(msgs := s.msgs + [m]);
    if timerSet then t == s1 && calls == []
    else Filled(s1, t) && calls == [StartTimer] + Sends(t.built[|s.built|..])
  }

  ghost predicate FromLowerLayer(s: Sender, p: Packet, t: Sender, calls: seq<Call>) {
    var ack := SeqOf(p);
    if !Verified(p) then t == s && calls == []
    else if s.ackExpected <= ack < |s.built| then
      Filled(s.(ackExpected := ack + 1), t) &&
      calls == [StartTimer] + Sends(t.built[|s.built|..]) + (if ack == |t.built| - 1 then [StopTimer] else [])
    else t == s && calls == if ack == |s.built| - 1 then [StopTimer] else []
  }

  ghost predicate TimedOut(s: Sender, t: Sender, calls: seq<Call>)
    requires s.ackExpected <= |s.built|
  {
    Filled(s, t) && calls == [StartTimer] + Sends(t.built[s.ackExpected..])
  }

  lemma BuiltCarries(s: Sender, n: nat)
    requires Sound(s) && n < |s.built|
    ensures |s.built| <= |Payloads(s.msgs)| && Carries(s.built[n], n, Payloads(s.msgs)[n])
  {
    hide Payloads, Carries;
  }

  /** A packet as it is built, byte by byte: packet number `n`, fragment `i` of message `j`, has its number
      at byte 4, lowest byte first, the size of its payload at byte 8, and the payload, here byte `x` of
      it, from byte 9 on. */
  lemma OnTheWire(s: Sender, j: nat, i: nat, x: nat)
    requires Sound(s) && j < |s.msgs| && x < 119 && 119 * i + x < |s.msgs[j]| + 4
    requires |Payloads(s.msgs[..j])| + i < |s.built|
    ensures var m, n := s.msgs[j], |Payloads(s.msgs[..j])| + i;
      var p := s.built[n];
      && n == p[4] as int + 0x100 * p[5] as int + 0x1_0000 * p[6] as int + 0x100_0000 * p[7] as int
      && p[8] as int == Min(119, |m| + 4 - 119 * i)
      && (119 * i + x >= 4 ==> p[9 + x] == m[119 * i + x - 4])
  {
    hide Payloads, Carries, Sound;
    FragmentByte(s.msgs, j, i, x);
    var n := |Payloads(s.msgs[..j])| + i;
    BuiltCarries(s, n);
    CarriesMeans(s.built[n], n, Payloads(s.msgs)[n]);
    CarriedByte(s.built[n], n, Payloads(s.msgs)[n], x);
  }

  /** The payload of the first packet of a message starts with the size of the message. */
  lemma SizeOnTheWire(s: Sender, j: nat)
    requires Sound(s) && j < |s.msgs| && |Payloads(s.msgs[..j])| < |s.built|
    ensures var p := s.built[|Payloads(s.msgs[..j])|];
      |s.msgs[j]| == p[9] as int + 0x100 * p[10] as int + 0x1_0000 * p[11] as int + 0x100_0000 * p[12] as int
  {
    hide Payloads, Carries, CarryAll;
    assert s.msgs[j] in s.msgs;
    FragmentSize(s.msgs, j);
    var n := |Payloads(s.msgs[..j])|;
    var p, f := s.built[n], Payloads(s.msgs)[n];
    BuiltCarries(s, n);
    CarriedByte(p, n, f, 0);
    CarriedByte(p, n, f, 1);
    CarriedByte(p, n, f, 2);
    CarriedByte(p, n, f, 3);
  }

  /** A submission never changes what the packets already built must carry. */
  lemma SubmitKeepsSound(s: Sender, m: Message)
    requires Sound(s) && Fits(s.msgs + [m])
    ensures Sound(s.(msgs := s.msgs + [m]))
  {
    PayloadsAppend(s.msgs, m);
    CarryAllExtends(s.built, Payloads(s.msgs), Payloads(s.msgs + [m]));
  }

  lemma AckKeepsSound(s: Sender, ack: int)
    requires Sound(s) && s.ackExpected <= ack < |s.built|
    ensures Sound(s.(ackExpected := ack + 1))
  {
  }

  /** The window can always be filled. */
  lemma {:induction false} CanFill(s: Sender) returns (t: Sender)
    requires Sound(s)
    ensures Filled(s, t)
    decreases |Payloads(s.msgs)| - |s.built|
  {
    hide CarryAll, Carries, Payloads, Cut, Fits;
    var k, fs := |s.built|, Payloads(s.msgs);
    if k < s.ackExpected + MAX_WINDOW_SIZE && k < |fs| {
      FitsNumber(s.msgs, k);
      PayloadIsShort(s.msgs, k);
      MadeCarries(k, fs[k]);
      CarryAllAppend(s.built, fs, Made(k, fs[k]));
      t := CanFill(s.(built := s.built + [Made(k, fs[k])]));
    } else {
      t := s;
    }
  }

  lemma PayloadIsShort(msgs: seq<Message>, k: nat)
    requires k < |Payloads(msgs)|
    ensures |Payloads(msgs)[k]| <= MAX_PAYLOAD_SIZE
  {
    hide Payloads, Cut, Encoded;
    var j, i := Locate(msgs, k);
    PayloadAt(msgs, j, i);
    CutAt(Encoded(msgs[j]), i);
  }

  lemma SendsAppend(a: seq<Packet>, p: Packet)
    ensures Sends(a + [p]) == Sends(a) + [ToLower(p)]
  {
    assert (a + [p])[..|a|] == a;
  }

  /** The sender's cursor, `cursor` bytes into encoded message `cur`, stands where packet `s` starts. */
  ghost predicate CursorAt(msgs: seq<Message>, cur: nat, cursor: nat, s: nat) {
    && cur <= |msgs|
    && cursor % MAX_PAYLOAD_SIZE == 0
    && |Payloads(msgs[..cur])| + cursor / MAX_PAYLOAD_SIZE == s
    && (if cur < |msgs| then cursor < |msgs[cur]| + 4 else cursor == 0)
  }

  lemma CutCursor(e: seq<byte>, cursor: nat, i: nat)
    requires cursor == MAX_PAYLOAD_SIZE * i < |e|
    ensures i < |Cut(e)| && Cut(e)[i] == e[cursor..Min(cursor + MAX_PAYLOAD_SIZE, |e|)]
    ensures i + 1 == |Cut(e)| <==> |e| - cursor <= MAX_PAYLOAD_SIZE
  {
    CutLength(e);
    CutAt(e, i);
  }

  lemma CursorPayload(msgs: seq<Message>, cur: nat, cursor: nat, s: nat)
    requires CursorAt(msgs, cur, cursor, s) && cur < |msgs|
    ensures s < |Payloads(msgs)| && cursor < |msgs[cur]| + 4
    ensures Payloads(msgs)[s] == Encoded(msgs[cur])[cursor..Min(cursor + MAX_PAYLOAD_SIZE, |msgs[cur]| + 4)]
    ensures if |msgs[cur]| + 4 - cursor > MAX_PAYLOAD_SIZE then CursorAt(msgs, cur, cursor + MAX_PAYLOAD_SIZE, s + 1)
            else CursorAt(msgs, cur + 1, 0, s + 1)
  {
    hide Encoded, Payloads, Cut;
    var i := cursor / MAX_PAYLOAD_SIZE;
    CutCursor(Encoded(msgs[cur]), cursor, i);
    PayloadAt(msgs, cur, i);
  }

  lemma FitsNumber(msgs: seq<Message>, s: nat)
    requires Fits(msgs) && s < |Payloads(msgs)|
    ensures s < TWO_TO_THE_31
  {
  }

  lemma CursorDone(msgs: seq<Message>, cursor: nat, s: nat)
    requires CursorAt(msgs, |msgs|, cursor, s)
    ensures s == |Payloads(msgs)|
  {
    assert msgs[..|msgs|] == msgs;
  }

  lemma CursorExtends(msgs: seq<Message>, cur: nat, cursor: nat, s: nat, m: Message)
    requires CursorAt(msgs, cur, cursor, s)
    ensures CursorAt(msgs + [m], cur, cursor, s)
  {
    assert (msgs + [m])[..cur] == msgs[..cur];
  }

  // ----- The program

  /** Lays out packet `s` in `pkt`, as both branches of the source's loop do; the bytes after
      the payload keep whatever they held. */
  method FillPacket(pkt: array<byte>, s: nat, payload: seq<byte>)
    requires pkt.Length == RDT_PKTSIZE && s < TWO_TO_THE_31 && |payload| <= MAX_PAYLOAD_SIZE
    modifies pkt
    ensures Carries(pkt[..], s, payload)
  {
    CopyBytes(pkt, CHECKSUM_SIZE, IntBytes(s));
    pkt[HEADER_SIZE - 1] := |payload| as byte;
    ghost var head := pkt[..HEADER_SIZE];
    assert head[4..8] == pkt[4..8] == IntBytes(s);
    CopyBytes(pkt, HEADER_SIZE, payload);
    assert pkt[..HEADER_SIZE] == head && pkt[4..8] == head[4..8] && pkt[8] == head[8];
    ghost var body := pkt[CHECKSUM_SIZE..];
    assert body[..4] == pkt[4..8] && body[5..5 + |payload|] == pkt[9..9 + |payload|];
    AddChecksum(pkt);
    ghost var p: Packet := pkt[..];
    assert p[4..] == body;
    assert p[4..8] == body[..4] && p[8] == body[4] && p[9..9 + |payload|] == body[5..5 + |payload|];
    IntRoundTrip(s);
    ByteRoundTrip(|payload|);
  }

  /** `struct message`: a size and the bytes `data` points to. */
  datatype CMessage = CMessage(size: int, data: seq<byte>)

  class SenderEndpoint {
    const buffer: array<CMessage>
    var nextMessageSeq: nat
    var msgBufferNum: int
    var curMessageSeq: nat
    var cursorSender: nat
    const windows: array<Packet>
    var pktSeq: nat
    var nextPacketToSend: nat
    var ackExpected: nat
    var pktWindowNum: int
    ghost var msgs: seq<Message>
    ghost var built: seq<Packet>

    ghost function View(): Sender
      reads `msgs, `ackExpected, `built
    {
      Sender(msgs, ackExpected, built)
    }

    /** The message ring holds exactly the messages not yet cut up completely. */
    ghost predicate BufferValid()
      reads `nextMessageSeq, `curMessageSeq, `msgBufferNum, `msgs, buffer
    {
      && buffer.Length == MAX_BUFFER_SIZE
      && curMessageSeq <= nextMessageSeq == |msgs|
      && msgBufferNum == nextMessageSeq - curMessageSeq <= MAX_BUFFER_SIZE
      && forall j :: curMessageSeq <= j < nextMessageSeq ==>
        buffer[j % MAX_BUFFER_SIZE] == CMessage(|msgs[j]| + 4, Encoded(msgs[j]))
    }

    /** Slot `s % 10` holds packet `s` as it was built, for every unacknowledged `s`. */
    ghost predicate WindowValid()
      reads `msgs, `ackExpected, `built, `pktSeq, `pktWindowNum, windows
    {
      && windows.Length == MAX_WINDOW_SIZE
      && pktSeq == |built| && pktWindowNum == pktSeq - ackExpected
      && Sound(View())
      && forall s :: ackExpected <= s < pktSeq ==> windows[s % MAX_WINDOW_SIZE] == built[s]
    }

    ghost predicate Consistent()
      reads `nextMessageSeq, `curMessageSeq, `msgBufferNum, `cursorSender, buffer
      reads `msgs, `ackExpected, `built, `pktSeq, `pktWindowNum, windows
    {
      BufferValid() && WindowValid() && CursorAt(msgs, curMessageSeq, cursorSender, pktSeq)
    }

    ghost predicate Valid()
      reads this, buffer, windows
    {
      Consistent() && nextPacketToSend == pktSeq
    }

    constructor ()
      ensures Valid() && View() == IDLE && fresh(buffer) && fresh(windows)
      ensures buffer.Length == 1000 && windows.Length == 10
    {
      buffer := new CMessage[MAX_BUFFER_SIZE](_ => CMessage(0, []));
      nextMessageSeq := 0;
      msgBufferNum := 0;
      curMessageSeq := 0;
      cursorSender := 0;
      windows := new Packet[MAX_WINDOW_SIZE](_ => seq(RDT_PKTSIZE, _ => 0));
      pktSeq := 0;
      nextPacketToSend := 0;
      ackExpected := 0;
      pktWindowNum := 0;
      msgs, built := [], [];
    }

    /** Puts the packet just laid out into its slot and counts it. */
    method StorePacket(pkt: Packet)
      requires WindowValid() && pktWindowNum < MAX_WINDOW_SIZE
      requires pktSeq < |Payloads(msgs)| && Carries(pkt, pktSeq, Payloads(msgs)[pktSeq])
      modifies this`pktSeq, this`pktWindowNum, this`built, windows
      ensures WindowValid()
      ensures pktSeq == old(pktSeq) + 1 && pktWindowNum == old(pktWindowNum) + 1 && built == old(built) + [pkt]
    {
      hide CarryAll, Carries, Fits, Payloads;
      windows[pktSeq % MAX_WINDOW_SIZE] := pkt;
      forall s | ackExpected <= s < pktSeq ensures s % MAX_WINDOW_SIZE != pktSeq % MAX_WINDOW_SIZE {
        SlotsDiffer(s, pktSeq, MAX_WINDOW_SIZE);
      }
      CarryAllAppend(built, Payloads(msgs), pkt);
      built := built + [pkt];
      pktSeq := pktSeq + 1;
      pktWindowNum := pktWindowNum + 1;
    }

    /** The message under the cursor is cut up; on to the next one. */
    method FinishMessage()
      requires BufferValid() && curMessageSeq < nextMessageSeq
      modifies this`curMessageSeq, this`msgBufferNum, this`cursorSender
      ensures BufferValid()
      ensures curMessageSeq == old(curMessageSeq) + 1 && cursorSender == 0
    {
      msgBufferNum := msgBufferNum - 1;
      curMessageSeq := curMessageSeq + 1;
      cursorSender := 0;
    }

    /** A full packet from the middle of the current message (lines 67-78). */
    method CutFull(msg: CMessage, pkt: array<byte>)
      requires Consistent() && pktWindowNum < MAX_WINDOW_SIZE && curMessageSeq < nextMessageSeq == |msgs| && Fits(msgs)
      requires msg == CMessage(|msgs[curMessageSeq]| + 4, Encoded(msgs[curMessageSeq]))
      requires msg.size - cursorSender > MAX_PAYLOAD_SIZE
      requires pkt.Length == RDT_PKTSIZE && pkt as object != buffer && pkt as object != windows
      modifies `cursorSender, `pktSeq, `pktWindowNum, `built, windows, pkt
      ensures Consistent() && pktWindowNum == old(pktWindowNum) + 1
      ensures old(built) < built
    {
      hide BufferValid, WindowValid, CursorAt, Encoded, Payloads, Fits, CarryAll, Carries;
      CursorPayload(msgs, curMessageSeq, cursorSender, pktSeq);
      FitsNumber(msgs, pktSeq);
      FillPacket(pkt, pktSeq, msg.data[cursorSender..cursorSender + MAX_PAYLOAD_SIZE]);
      StorePacket(pkt[..]);
      cursorSender := cursorSender + MAX_PAYLOAD_SIZE;
    }

    /** The last packet of the current message (lines 83-101). */
    method CutLast(msg: CMessage, pkt: array<byte>)
      requires Consistent() && pktWindowNum < MAX_WINDOW_SIZE && curMessageSeq < nextMessageSeq == |msgs| && Fits(msgs)
      requires msg == CMessage(|msgs[curMessageSeq]| + 4, Encoded(msgs[curMessageSeq]))
      requires msg.size - cursorSender <= MAX_PAYLOAD_SIZE
      requires pkt.Length == RDT_PKTSIZE && pkt as object != buffer && pkt as object != windows
      modifies `curMessageSeq, `msgBufferNum, `cursorSender, `pktSeq, `pktWindowNum, `built, windows, pkt
      ensures Consistent() && pktWindowNum == old(pktWindowNum) + 1
      ensures old(built) < built
    {
      hide BufferValid, WindowValid, CursorAt, Encoded, Payloads, Fits, CarryAll, Carries;
      CursorPayload(msgs, curMessageSeq, cursorSender, pktSeq);
      FitsNumber(msgs, pktSeq);
      FillPacket(pkt, pktSeq, msg.data[cursorSender..msg.size]);
      StorePacket(pkt[..]);
      FinishMessage();
    }

    /** `Sender_ConstructPKT` */
    method ConstructPkt()
      requires Consistent()
      modifies `curMessageSeq, `msgBufferNum, `cursorSender, `pktSeq, `pktWindowNum, `built, windows
      ensures Consistent()
      ensures Filled(old(View()), View())
    {
      hide Encoded, Payloads, Fits, CarryAll, Carries;
      var msg := buffer[curMessageSeq % MAX_BUFFER_SIZE];
      var pkt := new byte[RDT_PKTSIZE];
      while pktWindowNum < MAX_WINDOW_SIZE && curMessageSeq < nextMessageSeq
        invariant Consistent()
        invariant old(built) <= built
        invariant curMessageSeq < nextMessageSeq ==> msg == buffer[curMessageSeq % MAX_BUFFER_SIZE]
        decreases MAX_WINDOW_SIZE - pktWindowNum
      {
        assert msg == CMessage(|msgs[curMessageSeq]| + 4, Encoded(msgs[curMessageSeq]));
        if msg.size - cursorSender > MAX_PAYLOAD_SIZE {
          CutFull(msg, pkt);
        } else if msg.size > cursorSender {
          CutLast(msg, pkt);
          if curMessageSeq < nextMessageSeq {
            msg := buffer[curMessageSeq % MAX_BUFFER_SIZE];
          }
        }
      }
      if curMessageSeq == |msgs| {
        CursorDone(msgs, cursorSender, pktSeq);
      }
    }

    /** `Sender_SendPKT` */
    method SendPkt() returns (calls: seq<Call>)
      requires nextPacketToSend <= pktSeq == |built| && windows.Length == MAX_WINDOW_SIZE
      requires forall s :: nextPacketToSend <= s < pktSeq ==> windows[s % MAX_WINDOW_SIZE] == built[s]
      modifies this`nextPacketToSend
      ensures nextPacketToSend == pktSeq
      ensures calls == Sends(built[old(nextPacketToSend)..])
    {
      calls := [];
      ghost var first := nextPacketToSend;
      while nextPacketToSend < pktSeq
        invariant first <= nextPacketToSend <= pktSeq
        invariant calls == Sends(built[first..nextPacketToSend])
      {
        SendsAppend(built[first..nextPacketToSend], built[nextPacketToSend]);
        assert built[first..nextPacketToSend + 1] == built[first..nextPacketToSend] + [built[nextPacketToSend]];
        calls := calls + [ToLower(windows[nextPacketToSend % MAX_WINDOW_SIZE])];
        nextPacketToSend := nextPacketToSend + 1;
      }
      assert built[first..pktSeq] == built[first..];
    }

    /** `Sender_FromUpperLayer`, for a caller that never has 1000 messages waiting. */
    method FromUpper(msg: Message, timerSet: bool) returns (calls: seq<Call>)
      requires Valid() && nextMessageSeq - curMessageSeq < MAX_BUFFER_SIZE && Fits(msgs + [msg])
      modifies this, buffer, windows
      ensures Valid()
      ensures FromUpperLayer(old(View()), msg, timerSet, View(), calls)
    {
      hide Payloads, Fits, CarryAll, CursorAt, Sends;
      SubmitKeepsSound(View(), msg);
      PayloadsAppend(msgs, msg);
      buffer[nextMessageSeq % MAX_BUFFER_SIZE] := CMessage(|msg| + 4, IntBytes(|msg|) + msg);
      forall j | curMessageSeq <= j < nextMessageSeq
        ensures j % MAX_BUFFER_SIZE != nextMessageSeq % MAX_BUFFER_SIZE
      {
        SlotsDiffer(j, nextMessageSeq, MAX_BUFFER_SIZE);
      }
      CursorExtends(msgs, curMessageSeq, cursorSender, pktSeq, msg);
      msgs := msgs + [msg];
      nextMessageSeq := nextMessageSeq + 1;
      msgBufferNum := msgBufferNum + 1;
      if timerSet {
        return [];
      }
      calls := [StartTimer];
      ConstructPkt();
      var sent := SendPkt();
      calls := calls + sent;
    }

    /** `Sender_FromLowerLayer` */
    method FromLower(pkt: Packet) returns (calls: seq<Call>)
      requires Valid()
      modifies this, windows
      ensures Valid()
      ensures FromLowerLayer(old(View()), pkt, View(), calls)
    {
      hide Verified, SeqOf, CarryAll, Fits, CursorAt, Encoded, Payloads, Sends;
      calls := [];
      var ok := VerifyChecksum(pkt);
      if !ok {
        return;
      }
      var ack := SeqOf(pkt);
      if ackExpected <= ack && ack < pktSeq {
        AckKeepsSound(View(), ack);
        calls := calls + [StartTimer];
        pktWindowNum := pktWindowNum - (ack - ackExpected + 1);
        ackExpected := ack + 1;
        ConstructPkt();
        var sent := SendPkt();
        calls := calls + sent;
      }
      if ack == pktSeq - 1 {
        calls := calls + [StopTimer];
      }
    }

    /** `Sender_Timeout` */
    method Timeout() returns (calls: seq<Call>)
      requires Valid()
      modifies this, windows
      ensures Valid()
      ensures TimedOut(old(View()), View(), calls)
    {
      hide CarryAll, Fits, CursorAt, Encoded, Payloads, Sends;
      calls := [StartTimer];
      nextPacketToSend := ackExpected;
      ConstructPkt();
      var sent := SendPkt();
      calls := calls + sent;
    }
  }
}
