/** What the wire carries for a sequence of messages, and how it is put together again,
    independently of windows, timers and the network. */
module Fragments {
  import opened Bytes
  import opened Packets

  type Message = seq<byte>

  /** A message as the sender buffers it: its size, then its bytes. */
  function Encoded(m: Message): (e: seq<byte>)
    ensures |e| == 4 + |m|
  {
    IntBytes(|m|) + m
  }

  function Cut(e: seq<byte>): (fs: seq<seq<byte>>)
    ensures |fs| > 0
    decreases |e|
  {
    if |e| <= MAX_PAYLOAD_SIZE then [e] else [e[..MAX_PAYLOAD_SIZE]] + Cut(e[MAX_PAYLOAD_SIZE..])
  }

  /** The payloads of all packets for `msgs`, in packet order. */
  function Payloads(msgs: seq<Message>): seq<seq<byte>> {
    if msgs == [] then []
    else Payloads(msgs[..|msgs| - 1]) + Cut(Encoded(msgs[|msgs| - 1]))
  }

  /** Every message size and every sequence number that occurs fits an `int`, including the
      receiver's `expected + WINDOWS_SIZE` and the sender's `size + sizeof(int)`. */
  predicate Fits(msgs: seq<Message>) {
    |Payloads(msgs)| + 10 < TWO_TO_THE_31 && forall m :: m in msgs ==> |m| + 4 < TWO_TO_THE_31
  }

  // ----- The shape of the payload sequence

  /** A message takes ceil((size + 4) / 119) packets. */
  lemma {:induction false} CutLength(e: seq<byte>)
    requires |e| > 0
    ensures |Cut(e)| == (|e| + MAX_PAYLOAD_SIZE - 1) / MAX_PAYLOAD_SIZE
    decreases |e|
  {
    if |e| > MAX_PAYLOAD_SIZE {
      CutLength(e[MAX_PAYLOAD_SIZE..]);
    }
  }

  /** Fragment `i` holds the 119 bytes from `119 * i`, or what is left. */
  lemma {:induction false} CutAt(e: seq<byte>, i: nat)
    requires |e| > 0 && i < |Cut(e)|
    ensures MAX_PAYLOAD_SIZE * i < |e|
    ensures Cut(e)[i] == e[MAX_PAYLOAD_SIZE * i..Min(MAX_PAYLOAD_SIZE * (i + 1), |e|)]
    ensures i + 1 == |Cut(e)| <==> |e| - MAX_PAYLOAD_SIZE * i <= MAX_PAYLOAD_SIZE
    decreases i
  {
    if |e| > MAX_PAYLOAD_SIZE && i > 0 {
      var rest := e[MAX_PAYLOAD_SIZE..];
      CutAt(rest, i - 1);
      var from, to := MAX_PAYLOAD_SIZE * (i - 1), Min(MAX_PAYLOAD_SIZE * i, |rest|);
      assert rest[from..to] == e[MAX_PAYLOAD_SIZE + from..MAX_PAYLOAD_SIZE + to];
    }
  }

  lemma PayloadsAppend(msgs: seq<Message>, m: Message)
    ensures Payloads(msgs + [m]) == Payloads(msgs) + Cut(Encoded(m))
  {
    assert (msgs + [m])[..|msgs|] == msgs;
  }

  lemma {:induction false} PayloadsPrefix(msgs: seq<Message>, j: nat)
    requires j <= |msgs|
    ensures Payloads(msgs[..j]) <= Payloads(msgs)
  {
    if j == |msgs| {
      assert msgs[..j] == msgs;
    } else {
      PayloadsPrefix(msgs[..|msgs| - 1], j);
      assert msgs[..|msgs| - 1][..j] == msgs[..j];
    }
  }

  /** Fragment `i` of message `j` is packet `|Payloads(msgs[..j])| + i`. */
  lemma PayloadAt(msgs: seq<Message>, j: nat, i: nat)
    requires j < |msgs| && i < |Cut(Encoded(msgs[j]))|
    ensures |Payloads(msgs[..j])| + i < |Payloads(msgs)|
    ensures Payloads(msgs)[|Payloads(msgs[..j])| + i] == Cut(Encoded(msgs[j]))[i]
    ensures |Payloads(msgs[..j + 1])| == |Payloads(msgs[..j])| + |Cut(Encoded(msgs[j]))|
  {
    hide Payloads, Cut, Encoded;
    PayloadsPrefix(msgs, j + 1);
    assert msgs[..j + 1] == msgs[..j] + [msgs[j]];
    PayloadsAppend(msgs[..j], msgs[j]);
  }

  lemma CutByte(e: seq<byte>, i: nat, x: nat)
    requires x < 119 && 119 * i + x < |e|
    ensures i < |Cut(e)| == (|e| + 118) / 119 && |Cut(e)[i]| == Min(119, |e| - 119 * i) > x
    ensures Cut(e)[i][x] == e[119 * i + x]
  {
    hide Cut;
    assert MAX_PAYLOAD_SIZE == 119;
    assert MAX_PAYLOAD_SIZE * i == 119 * i && MAX_PAYLOAD_SIZE * (i + 1) == 119 * i + 119;
    CutLength(e);
    CutAt(e, i);
  }

  /** Byte `x` of fragment `i` of message `j`: the fragments hold four bytes for the size and then the
      message, 119 bytes to a fragment; numbering runs on over the messages. */
  lemma FragmentByte(msgs: seq<Message>, j: nat, i: nat, x: nat)
    requires j < |msgs| && x < 119 && 119 * i + x < |msgs[j]| + 4
    ensures var m, n := msgs[j], |Payloads(msgs[..j])| + i;
      && n < |Payloads(msgs)| && |Payloads(msgs)[n]| == Min(119, |m| + 4 - 119 * i) > x
      && (119 * i + x >= 4 ==> Payloads(msgs)[n][x] == m[119 * i + x - 4])
    ensures |Payloads(msgs[..j + 1])| == |Payloads(msgs[..j])| + (|msgs[j]| + 4 + 118) / 119
  {
    hide Payloads, Cut, IntBytes;
    CutByte(Encoded(msgs[j]), i, x);
    PayloadAt(msgs, j, i);
  }

  /** The first four bytes of its first fragment are the size, lowest byte first. */
  lemma FragmentSize(msgs: seq<Message>, j: nat)
    requires j < |msgs| && |msgs[j]| < 0x8000_0000
    ensures |Payloads(msgs[..j])| < |Payloads(msgs)| && |Payloads(msgs)[|Payloads(msgs[..j])|]| >= 4
    ensures var f := Payloads(msgs)[|Payloads(msgs[..j])|];
      |msgs[j]| == f[0] as int + 0x100 * f[1] as int + 0x1_0000 * f[2] as int + 0x100_0000 * f[3] as int
  {
    hide Payloads, Cut, Encoded;
    var m, e := msgs[j], Encoded(msgs[j]);
    CutByte(e, 0, 3);
    PayloadAt(msgs, j, 0);
    SizeField(m);
    BytesIntIs(e[..4]);
    CutByte(e, 0, 0);
    CutByte(e, 0, 1);
    CutByte(e, 0, 2);
  }

  // ----- Reassembly, as the receiver does it one payload at a time

  /** Messages handed up so far, and the message being put together: its size (0 between
      messages) and the bytes received. */
  datatype Assembly = Assembly(delivered: seq<Message>, size: int, partial: seq<byte>)

  const START := Assembly([], 0, [])

  /** The payloads the receiver can take without leaving its buffers. */
  predicate Acceptable(a: Assembly, f: seq<byte>) {
    |f| <= MAX_PAYLOAD_SIZE &&
    if a.partial == [] then 4 <= |f| && |f| - 4 <= BytesInt(f[..4])
    else |a.partial| + |f| <= a.size
  }

  function Accept(a: Assembly, f: seq<byte>): Assembly
    requires Acceptable(a, f)
  {
    var size := if a.partial == [] then BytesInt(f[..4]) else a.size;
    var partial := if a.partial == [] then f[4..] else a.partial + f;
    if |partial| == size then Assembly(a.delivered + [partial], 0, [])
    else if partial == [] then Assembly(a.delivered, 0, [])
    else Assembly(a.delivered, size, partial)
  }

  predicate AcceptableAll(a: Assembly, fs: seq<seq<byte>>)
    decreases fs
  {
    fs == [] || (Acceptable(a, fs[0]) && AcceptableAll(Accept(a, fs[0]), fs[1..]))
  }

  function AcceptAll(a: Assembly, fs: seq<seq<byte>>): Assembly
    requires AcceptableAll(a, fs)
    decreases fs
  {
    if fs == [] then a else AcceptAll(Accept(a, fs[0]), fs[1..])
  }

  // ----- What reassembly must give after the first `k` payloads, said without running it

  function InMessage(msgs: seq<Message>, j: nat, i: nat): Assembly
    requires j < |msgs| && MAX_PAYLOAD_SIZE * i <= |msgs[j]| + 4
  {
    if i == 0 then Assembly(msgs[..j], 0, [])
    else Assembly(msgs[..j], |msgs[j]|, msgs[j][..MAX_PAYLOAD_SIZE * i - 4])
  }

  function Reassembly(msgs: seq<Message>, k: nat): Assembly
    requires k <= |Payloads(msgs)|
  {
    if k == |Payloads(msgs)| then Assembly(msgs, 0, [])
    else
      var last := |msgs| - 1;
      var before := |Payloads(msgs[..last])|;
      if k < before then Reassembly(msgs[..last], k)
      else
        CutAt(Encoded(msgs[last]), k - before);
        InMessage(msgs, last, k - before)
  }

  lemma {:induction false} ReassemblyAt(msgs: seq<Message>, j: nat, i: nat)
    requires j < |msgs| && i < |Cut(Encoded(msgs[j]))|
    ensures |Payloads(msgs[..j])| + i < |Payloads(msgs)|
    ensures MAX_PAYLOAD_SIZE * i <= |msgs[j]| + 4
    ensures Reassembly(msgs, |Payloads(msgs[..j])| + i) == InMessage(msgs, j, i)
  {
    hide Payloads, Cut, Encoded;
    PayloadAt(msgs, j, i);
    CutAt(Encoded(msgs[j]), i);
    var last := |msgs| - 1;
    if j < last {
      ReassemblyAt(msgs[..last], j, i);
      assert msgs[..last][..j] == msgs[..j];
      assert InMessage(msgs[..last], j, i) == InMessage(msgs, j, i);
    }
  }

  /** Packet `k` is some fragment `i` of some message `j`. */
  lemma {:induction false} Locate(msgs: seq<Message>, k: nat) returns (j: nat, i: nat)
    requires k < |Payloads(msgs)|
    ensures j < |msgs| && i < |Cut(Encoded(msgs[j]))|
    ensures k == |Payloads(msgs[..j])| + i
  {
    var last := |msgs| - 1;
    var before := |Payloads(msgs[..last])|;
    if k < before {
      j, i := Locate(msgs[..last], k);
      assert msgs[..last][..j] == msgs[..j];
    } else {
      j, i := last, k - before;
    }
  }

  lemma ReassemblyBetween(msgs: seq<Message>, j: nat)
    requires j <= |msgs|
    ensures |Payloads(msgs[..j])| <= |Payloads(msgs)|
    ensures Reassembly(msgs, |Payloads(msgs[..j])|) == Assembly(msgs[..j], 0, [])
  {
    PayloadsPrefix(msgs, j);
    if j < |msgs| {
      ReassemblyAt(msgs, j, 0);
    } else {
      assert msgs[..j] == msgs;
    }
  }

  lemma SizeField(m: Message)
    requires |m| < TWO_TO_THE_31
    ensures BytesInt(Encoded(m)[..4]) == |m| && Encoded(m)[4..] == m
  {
    assert Encoded(m)[..4] == IntBytes(|m|);
    IntRoundTrip(|m|);
  }

  /** Bytes `from` to `to` of an encoded message `e`, taken in its turn. */
  lemma AcceptSlice(delivered: seq<Message>, m: Message, e: seq<byte>, from: nat, to: nat)
    requires |e| == |m| + 4 && BytesInt(e[..4]) == |m| && e[4..] == m
    requires from < to <= |e| && to - from <= MAX_PAYLOAD_SIZE && (from == 0 ==> 4 <= to) && (from > 0 ==> 4 < from)
    ensures var a := if from == 0 then Assembly(delivered, 0, []) else Assembly(delivered, |m|, m[..from - 4]);
      Acceptable(a, e[from..to]) &&
      Accept(a, e[from..to]) == if to == |e| then Assembly(delivered + [m], 0, [])
                                else if to == 4 then Assembly(delivered, 0, [])
                                else Assembly(delivered, |m|, m[..to - 4])
  {
    hide BytesInt;
    var f := e[from..to];
    if from == 0 {
      assert f[..4] == e[..4];
      assert f[4..] == e[4..][..to - 4] == m[..to - 4];
    } else {
      assert f == e[4..][from - 4..to - 4] == m[from - 4..to - 4];
      assert m[..from - 4] + f == m[..to - 4];
    }
    assert m[..|m|] == m;
  }

  /** Where fragment `i` lies in the encoded message. */
  lemma SliceOf(e: seq<byte>, i: nat) returns (from: nat, to: nat)
    requires 4 <= |e| && i < |Cut(e)|
    ensures from == MAX_PAYLOAD_SIZE * i && from < to <= |e| && to - from <= MAX_PAYLOAD_SIZE
    ensures Cut(e)[i] == e[from..to]
    ensures if i + 1 == |Cut(e)| then to == |e| else to == MAX_PAYLOAD_SIZE * (i + 1) < |e|
    ensures (i == 0 ==> from == 0 && 4 <= to) && (i > 0 ==> 4 < from)
  {
    hide Cut;
    CutAt(e, i);
    from, to := MAX_PAYLOAD_SIZE * i, Min(MAX_PAYLOAD_SIZE * (i + 1), |e|);
  }

  lemma SizeFits(msgs: seq<Message>, j: nat)
    requires Fits(msgs) && j < |msgs|
    ensures |msgs[j]| < TWO_TO_THE_31
  {
  }

  lemma AcceptFragment(msgs: seq<Message>, j: nat, i: nat)
    requires Fits(msgs) && j < |msgs| && i < |Cut(Encoded(msgs[j]))|
    requires MAX_PAYLOAD_SIZE * i <= |msgs[j]| + 4
    ensures Acceptable(InMessage(msgs, j, i), Cut(Encoded(msgs[j]))[i])
    ensures var next := Accept(InMessage(msgs, j, i), Cut(Encoded(msgs[j]))[i]);
      if i + 1 == |Cut(Encoded(msgs[j]))| then next == Assembly(msgs[..j + 1], 0, [])
      else MAX_PAYLOAD_SIZE * (i + 1) <= |msgs[j]| + 4 && next == InMessage(msgs, j, i + 1)
  {
    hide Cut, Encoded, Payloads, Acceptable, Accept, Fits;
    var m, e := msgs[j], Encoded(msgs[j]);
    assert |m| < TWO_TO_THE_31 by { SizeFits(msgs, j); }
    SizeField(m);
    var from, to := SliceOf(e, i);
    assert msgs[..j + 1] == msgs[..j] + [m];
    AcceptSlice(msgs[..j], m, e, from, to);
  }

  /** The next payload is always acceptable, and taking it gives the next stage. */
  lemma ReassemblyStep(msgs: seq<Message>, k: nat)
    requires Fits(msgs) && k < |Payloads(msgs)|
    ensures Acceptable(Reassembly(msgs, k), Payloads(msgs)[k])
    ensures Accept(Reassembly(msgs, k), Payloads(msgs)[k]) == Reassembly(msgs, k + 1)
  {
    hide Cut, Encoded, Payloads, Reassembly, Fits, Acceptable, Accept;
    var j, i := Locate(msgs, k);
    CutAt(Encoded(msgs[j]), i);
    var a, f := InMessage(msgs, j, i), Cut(Encoded(msgs[j]))[i];
    assert Reassembly(msgs, k) == a && Payloads(msgs)[k] == f by {
      ReassemblyAt(msgs, j, i);
      PayloadAt(msgs, j, i);
    }
    assert Acceptable(a, f) && Accept(a, f) == Reassembly(msgs, k + 1) by {
      AcceptFragment(msgs, j, i);
      ReassemblyNext(msgs, j, i);
    }
  }

  lemma ReassemblyNext(msgs: seq<Message>, j: nat, i: nat)
    requires j < |msgs| && i < |Cut(Encoded(msgs[j]))|
    ensures |Payloads(msgs[..j])| + i < |Payloads(msgs)|
    ensures i + 1 == |Cut(Encoded(msgs[j]))| ==>
      Reassembly(msgs, |Payloads(msgs[..j])| + i + 1) == Assembly(msgs[..j + 1], 0, [])
    ensures i + 1 < |Cut(Encoded(msgs[j]))| ==>
      (MAX_PAYLOAD_SIZE * (i + 1) <= |msgs[j]| + 4 &&
      Reassembly(msgs, |Payloads(msgs[..j])| + i + 1) == InMessage(msgs, j, i + 1))
  {
    PayloadAt(msgs, j, i);
    if i + 1 == |Cut(Encoded(msgs[j]))| {
      ReassemblyBetween(msgs, j + 1);
    } else {
      ReassemblyAt(msgs, j, i + 1);
    }
  }

  lemma {:induction false} AcceptAllFrom(msgs: seq<Message>, k: nat, n: nat)
    requires Fits(msgs) && k <= n <= |Payloads(msgs)|
    ensures AcceptableAll(Reassembly(msgs, k), Payloads(msgs)[k..n])
    ensures AcceptAll(Reassembly(msgs, k), Payloads(msgs)[k..n]) == Reassembly(msgs, n)
    decreases n - k
  {
    if k < n {
      ReassemblyStep(msgs, k);
      AcceptAllFrom(msgs, k + 1, n);
      assert Payloads(msgs)[k..n][1..] == Payloads(msgs)[k + 1..n];
    }
  }

  /** Reassembling the fragments of any messages gives back those messages. */
  lemma RoundTrip(msgs: seq<Message>)
    requires Fits(msgs)
    ensures AcceptableAll(START, Payloads(msgs))
    ensures AcceptAll(START, Payloads(msgs)) == Assembly(msgs, 0, [])
  {
    ReassemblyBetween(msgs, 0);
    assert Payloads(msgs[..0]) == [];
    assert msgs[..0] == [];
    AcceptAllFrom(msgs, 0, |Payloads(msgs)|);
    assert Payloads(msgs)[0..|Payloads(msgs)|] == Payloads(msgs);
  }

  /** At every stage the delivered messages are a prefix of `msgs` and the partial message
      is a proper prefix of the next one, whose true size is known. */
  lemma ReassemblyIsPrefix(msgs: seq<Message>, k: nat)
    requires k <= |Payloads(msgs)|
    ensures var a := Reassembly(msgs, k);
      a.delivered <= msgs &&
      (k < |Payloads(msgs)| <==> a.delivered != msgs) &&
      (a.partial != [] ==>
        |a.delivered| < |msgs| && a.size == |msgs[|a.delivered|]| && a.partial < msgs[|a.delivered|])
  {
    hide Payloads, Encoded, Cut, Reassembly;
    if k < |Payloads(msgs)| {
      var j, i := Locate(msgs, k);
      ReassemblyAt(msgs, j, i);
      CutAt(Encoded(msgs[j]), i);
    } else {
      ReassemblyBetween(msgs, |msgs|);
      assert msgs[..|msgs|] == msgs;
    }
  }

  /** Later submissions do not change what earlier packets reassemble to. */
  lemma ReassemblyExtends(msgs: seq<Message>, m: Message, k: nat)
    requires k <= |Payloads(msgs)|
    ensures k <= |Payloads(msgs + [m])|
    ensures Reassembly(msgs + [m], k) == Reassembly(msgs, k)
  {
    PayloadsAppend(msgs, m);
    assert (msgs + [m])[..|msgs|] == msgs;
    if k == |Payloads(msgs)| {
      ReassemblyBetween(msgs + [m], |msgs|);
    }
  }
}
