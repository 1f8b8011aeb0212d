/** Assignment of forwarding streams to logical cores and to port and queue pairs
    (`dpdk/app/test-pmd/config.c`). */
module Forwarding {
  // `uint8_t` for lcore and port numbers, `uint16_t` for stream and queue numbers
  type LcoreId = n: nat | n < 0x100
  type PortId = n: nat | n < 0x100
  type QueueId = n: nat | n < 0x1_0000
  type StreamId = n: nat | n < 0x1_0000

  function ToStreamId(n: nat): StreamId {
    n % 0x1_0000
  }

  lemma ToStreamIdBelow(n: nat)
    ensures ToStreamId(n) <= n && (n < 0x1_0000 ==> ToStreamId(n) == n)
  {
  }

  // ----- Cores

  /** The streams `idx` to `idx + nb - 1`. */
  datatype Range = Range(idx: nat, nb: nat)

  class FwdLcore {
    var streamIdx: StreamId
    var streamNb: StreamId

    constructor ()
    {
      streamIdx, streamNb := 0, 0;
    }

    function Streams(): Range
      reads this
    {
      Range(streamIdx, streamNb)
    }
  }

  /** The streams each core gets; `Plain` cores get just this many, the others one more. */
  function Share(streams: nat, cores: nat): nat
    requires cores > 0 || streams == 0
  {
    if streams <= cores then 1 else streams / cores
  }

  function Plain(streams: nat, cores: nat): nat
    requires cores > 0 || streams == 0
  {
    if streams <= cores then cores else cores - streams % cores
  }

  function Block(share: nat, plain: nat, k: nat): Range {
    if k < plain then Range(k * share, share)
    else Range(plain * share + (k - plain) * (share + 1), share + 1)
  }

  ghost predicate Consecutive(ranges: seq<Range>) {
    forall k {:trigger ranges[k]} :: 0 < k < |ranges| ==> ranges[k].idx == ranges[k - 1].idx + ranges[k - 1].nb
  }

  /** The ranges follow each other from stream 0 to the last one, are never empty and differ in
      size by at most one. */
  ghost predicate Partition(streams: nat, ranges: seq<Range>) {
    && |ranges| > 0 && ranges[0].idx == 0
    && Consecutive(ranges)
    && ranges[|ranges| - 1].idx + ranges[|ranges| - 1].nb == streams
    && (forall k {:trigger ranges[k]} :: 0 <= k < |ranges| ==> ranges[k].nb > 0)
    && forall j, k :: 0 <= j < |ranges| && 0 <= k < |ranges| ==> ranges[j].nb <= ranges[k].nb + 1
  }

  function LcoreRanges(streams: nat, cores: nat): (ranges: seq<Range>)
    requires cores > 0 || streams == 0
    ensures |ranges| == cores
  {
    seq(cores, k requires 0 <= k < cores => Block(Share(streams, cores), Plain(streams, cores), k))
  }

  lemma BlocksMeet(share: nat, plain: nat, k: nat)
    ensures Block(share, plain, k).idx + Block(share, plain, k).nb == Block(share, plain, k + 1).idx
  {
    if k + 1 < plain {
      assert (k + 1) * share == k * share + share;
    } else if k + 1 == plain {
      assert plain * share == k * share + share;
    } else {
      assert (k + 1 - plain) * (share + 1) == (k - plain) * (share + 1) + (share + 1);
    }
  }

  lemma {:induction false} BlocksGrow(share: nat, plain: nat, j: nat, k: nat)
    requires j <= k
    ensures Block(share, plain, j).idx <= Block(share, plain, k).idx
    decreases k
  {
    if j < k {
      BlocksMeet(share, plain, k - 1);
      BlocksGrow(share, plain, j, k - 1);
    }
  }

  lemma BlocksEnd(streams: nat, cores: nat)
    requires cores >= 1
    ensures Plain(streams, cores) <= cores
    ensures Block(Share(streams, cores), Plain(streams, cores), cores).idx ==
      if streams <= cores then cores else streams
  {
    hide Block;
    if streams > cores {
      var share, extra := streams / cores, streams % cores;
      Euclid(streams, cores, share, extra);
      BlockAfter(share, cores - extra, extra);
    } else {
      BlockAfter(1, cores, 0);
    }
  }

  /** Behind `plain` plain blocks and `extra` longer ones. */
  lemma BlockAfter(share: nat, plain: nat, extra: nat)
    ensures Block(share, plain, plain + extra).idx == (plain + extra) * share + extra
  {
    Regroup(share, plain, extra);
  }

  lemma Regroup(share: nat, plain: nat, extra: nat)
    ensures plain * share + extra * (share + 1) == (plain + extra) * share + extra
  {
  }

  lemma SharePositive(streams: nat, cores: nat)
    requires cores >= 1
    ensures Share(streams, cores) >= 1
  {
    if streams > cores {
      assert streams / cores >= 1;
    }
  }

  /** The cores partition the streams if and only if there are no more cores than streams. */
  lemma PartitionIffClamped(streams: nat, cores: nat)
    requires streams >= 1 && cores >= 1
    ensures Partition(streams, LcoreRanges(streams, cores)) <==> cores <= streams
  {
    hide Share, Plain, Block;
    var ranges, share, plain := LcoreRanges(streams, cores), Share(streams, cores), Plain(streams, cores);
    BlocksEnd(streams, cores);
    SharePositive(streams, cores);
    BlockStart(share, plain);
    forall k {:trigger ranges[k]} | 0 <= k < cores
      ensures ranges[k].idx + ranges[k].nb == Block(share, plain, k + 1).idx && share <= ranges[k].nb <= share + 1
      ensures k > 0 ==> ranges[k].idx == ranges[k - 1].idx + ranges[k - 1].nb
    {
      BlockSize(share, plain, k);
      BlocksMeet(share, plain, k);
      if k > 0 {
        BlocksMeet(share, plain, k - 1);
      }
    }
  }

  /** The ranges by numbers: every core gets the whole quotient, and the last ones, as many as the
      remainder says, get one stream more. */
  lemma RangesAre(streams: nat, cores: nat, k: nat)
    requires k < cores <= streams
    ensures var range, share, plain := LcoreRanges(streams, cores)[k], streams / cores, cores - streams % cores;
      && range.nb == share + (if k >= plain then 1 else 0)
      && range.idx == k * share + (if k >= plain then k - plain else 0)
  {
    hide Block;
    var share, plain := streams / cores, cores - streams % cores;
    if streams == cores {
      Euclid(streams, cores, share, streams % cores);
      WholeDivision(cores);
    }
    assert Share(streams, cores) == share && Plain(streams, cores) == plain;
    BlockAt(share, plain, k);
  }

  lemma WholeDivision(n: nat)
    requires n > 0
    ensures n / n == 1 && n % n == 0
  {
  }

  lemma BlockAt(share: nat, plain: nat, k: nat)
    ensures Block(share, plain, k).nb == share + if k >= plain then 1 else 0
    ensures Block(share, plain, k).idx == k * share + if k >= plain then k - plain else 0
  {
    if k >= plain {
      BlockAfter(share, plain, k - plain);
    }
  }

  /** In a partition every stream belongs to exactly one core. */
  lemma {:induction false} PartitionCovers(streams: nat, ranges: seq<Range>, s: nat, n: nat) returns (k: nat)
    requires Partition(streams, ranges) && 0 < n <= |ranges|
    requires s < ranges[n - 1].idx + ranges[n - 1].nb
    ensures k < n && ranges[k].idx <= s < ranges[k].idx + ranges[k].nb
    decreases n
  {
    if ranges[n - 1].idx <= s {
      k := n - 1;
    } else {
      k := PartitionCovers(streams, ranges, s, n - 1);
    }
  }

  lemma {:induction false} PartitionDisjoint(ranges: seq<Range>, j: nat, k: nat)
    requires Consecutive(ranges) && j < k < |ranges|
    ensures ranges[j].idx + ranges[j].nb <= ranges[k].idx
    decreases k
  {
    if j < k - 1 {
      PartitionDisjoint(ranges, j, k - 1);
    }
  }

  ghost predicate DistinctLcores(lcores: seq<FwdLcore>) {
    forall i, j :: 0 <= i < j < |lcores| ==> lcores[i] != lcores[j]
  }

  /** `setup_fwd_config_of_each_lcore`. Without cores the division in the source is undefined
      unless there are no streams either. */
  method SetupEachLcore(lcores: seq<FwdLcore>, nbFs: StreamId, nbFc: LcoreId)
    requires nbFc <= |lcores| && DistinctLcores(lcores) && (nbFc > 0 || nbFs == 0)
    modifies lcores
    ensures forall k {:trigger lcores[k]} :: 0 <= k < nbFc ==> lcores[k].Streams() == LcoreRanges(nbFs, nbFc)[k]
    ensures forall k {:trigger lcores[k]} :: nbFc <= k < |lcores| ==> unchanged(lcores[k])
  {
    hide Share, Plain, Block;
    ghost var share, plain := Share(nbFs, nbFc), Plain(nbFs, nbFc);
    var nbFsPerLcore, nbExtra := SplitStreams(nbFs, nbFc);
    var nbLc := nbFc - nbExtra;
    var smId := 0;
    BlockStart(share, plain);
    for lcId := 0 to nbLc
      invariant smId == Block(share, plain, lcId).idx
      invariant forall k {:trigger lcores[k]} :: 0 <= k < lcId ==> lcores[k].Streams() == Block(share, plain, k)
      invariant forall k {:trigger lcores[k]} :: lcId <= k < |lcores| ==> unchanged(lcores[k])
    {
      BlockFits(nbFs, nbFc, lcId);
      lcores[lcId].streamIdx := smId;
      lcores[lcId].streamNb := nbFsPerLcore;
      smId := ToStreamId(smId + nbFsPerLcore);
    }
    nbFsPerLcore := ToStreamId(1 + nbFsPerLcore as nat);
    for lcId := 0 to nbExtra
      invariant smId == Block(share, plain, nbLc + lcId).idx
      invariant forall k {:trigger lcores[k]} :: 0 <= k < nbLc + lcId ==> lcores[k].Streams() == Block(share, plain, k)
      invariant forall k {:trigger lcores[k]} :: nbLc + lcId <= k < |lcores| ==> unchanged(lcores[k])
    {
      BlockFits(nbFs, nbFc, nbLc + lcId);
      lcores[nbLc + lcId].streamIdx := smId;
      lcores[nbLc + lcId].streamNb := nbFsPerLcore;
      smId := ToStreamId(smId + nbFsPerLcore);
    }
  }

  /** Lines 1118-1124: streams for each core, and cores that get one more. */
  method SplitStreams(nbFs: StreamId, nbFc: LcoreId) returns (perLcore: StreamId, extra: LcoreId)
    requires nbFc > 0 || nbFs == 0
    ensures perLcore == Share(nbFs, nbFc) && nbFc - extra == Plain(nbFs, nbFc) && extra <= nbFc
    ensures extra > 0 ==> perLcore + 1 < 0x1_0000
  {
    if nbFs <= nbFc {
      perLcore, extra := 1, 0;
    } else {
      DivSmall(nbFs, nbFc);
      perLcore, extra := nbFs / nbFc, nbFs % nbFc;
    }
  }

  lemma DivSmall(n: nat, d: nat)
    requires d > 0
    ensures n / d <= n && n % d < d && (n % d > 0 ==> n / d < n)
  {
    MulAtLeast(d, n / d);
    Euclid(n, d, n / d, n % d);
  }

  lemma Euclid(n: nat, d: nat, q: nat, r: nat)
    requires d > 0 && q == n / d && r == n % d
    ensures n == d * q + r
  {
  }

  lemma {:induction false} MulAtLeast(d: nat, q: nat)
    requires d > 0
    ensures d * q >= q
  {
    if d > 1 {
      MulAtLeast(d - 1, q);
      assert d * q == (d - 1) * q + q;
    }
  }

  lemma BlockSize(share: nat, plain: nat, k: nat)
    ensures Block(share, plain, k).nb == if k < plain then share else share + 1
  {
  }

  lemma BlockStart(share: nat, plain: nat)
    ensures Block(share, plain, 0).idx == 0
  {
  }

  /** No cast to a stream number loses anything. */
  lemma BlockFits(nbFs: StreamId, nbFc: LcoreId, k: nat)
    requires k < nbFc
    ensures var b := Block(Share(nbFs, nbFc), Plain(nbFs, nbFc), k);
      && b.nb == (if k < Plain(nbFs, nbFc) then Share(nbFs, nbFc) else Share(nbFs, nbFc) + 1)
      && b.idx + b.nb == Block(Share(nbFs, nbFc), Plain(nbFs, nbFc), k + 1).idx < 0x1_0000
  {
    BlocksMeet(Share(nbFs, nbFc), Plain(nbFs, nbFc), k);
    BlocksGrow(Share(nbFs, nbFc), Plain(nbFs, nbFc), k + 1, nbFc);
    BlocksEnd(nbFs, nbFc);
  }

  // ----- Ports and queues

  datatype Topology = Paired | Chained | Loop

  /** `fwd_topology_tx_port_get`: the index of the port to send on, for packets from port `rxp`
      of `n`. With an odd number of paired ports the last one is paired with itself. */
  function TxPort(topology: Topology, n: nat, rxp: nat): nat
    requires rxp < n
  {
    match topology
    case Paired =>
      if rxp % 2 == 0 then (if rxp + 1 < n then rxp + 1 else rxp) else rxp - 1
    case Chained => (rxp + 1) % n
    case Loop => rxp
  }

  /** Every topology permutes the ports. */
  lemma TxPortPermutes(topology: Topology, n: nat, a: nat, b: nat)
    requires a < n && b < n
    ensures TxPort(topology, n, a) < n
    ensures TxPort(topology, n, a) == TxPort(topology, n, b) ==> a == b
  {
    if topology.Chained? {
      ChainedStep(n, a);
      ChainedStep(n, b);
    }
  }

  lemma ChainedStep(n: nat, a: nat)
    requires a < n
    ensures (a + 1) % n == if a + 1 == n then 0 else a + 1
  {
  }

  /** What `TxPort` says for each topology. */
  lemma TxPortIs(topology: Topology, n: nat, i: nat)
    requires i < n
    ensures topology == Paired && i % 2 == 1 ==> TxPort(topology, n, i) == i - 1
    ensures topology == Paired && i % 2 == 0 ==> TxPort(topology, n, i) == if i == n - 1 then i else i + 1
    ensures topology == Chained ==> TxPort(topology, n, i) == if i == n - 1 then 0 else i + 1
    ensures topology == Loop ==> TxPort(topology, n, i) == i
  {
    ChainedStep(n, i);
  }

  class FwdStream {
    var rxPort: PortId
    var rxQueue: QueueId
    var txPort: PortId
    var txQueue: QueueId
    var peerAddr: PortId

    constructor ()
    {
      rxPort, rxQueue, txPort, txQueue, peerAddr := 0, 0, 0, 0, 0;
    }

    function Path(): Route
      reads this
    {
      Route(rxPort, rxQueue, txPort, txQueue)
    }
  }

  datatype Route = Route(rxPort: PortId, rxQueue: QueueId, txPort: PortId, txQueue: QueueId)

  /** Stream `s` serves queue `s % queues` of port `s / queues`. */
  function RssRoute(topology: Topology, ports: seq<PortId>, queues: QueueId, s: nat): Route
    requires 0 < queues && s / queues < |ports|
  {
    TxPortPermutes(topology, |ports|, s / queues, s / queues);
    Route(ports[s / queues], s % queues, ports[TxPort(topology, |ports|, s / queues)], s % queues)
  }

  ghost predicate DistinctPorts(ports: seq<PortId>) {
    forall i, j :: 0 <= i < j < |ports| ==> ports[i] != ports[j]
  }

  /** Different streams never share a receive queue or a transmit queue. */
  lemma RssRoutesApart(topology: Topology, ports: seq<PortId>, queues: QueueId, s: nat, t: nat)
    requires DistinctPorts(ports) && 0 < queues && s / queues < |ports| && t / queues < |ports| && s != t
    ensures var a, b := RssRoute(topology, ports, queues, s), RssRoute(topology, ports, queues, t);
      (a.rxPort, a.rxQueue) != (b.rxPort, b.rxQueue) && (a.txPort, a.txQueue) != (b.txPort, b.txQueue)
  {
    hide TxPort;
    SamePlace(s, t, queues);
    TxPortPermutes(topology, |ports|, s / queues, t / queues);
    TxPortPermutes(topology, |ports|, t / queues, s / queues);
  }

  lemma SamePlace(s: nat, t: nat, queues: nat)
    requires queues > 0
    ensures s / queues == t / queues && s % queues == t % queues ==> s == t
  {
    Euclid(s, queues, s / queues, s % queues);
    Euclid(t, queues, t / queues, t % queues);
  }

  /** The number of streams for `queues` queues on each port. */
  function Pairs(queues: nat, ports: nat): nat {
    queues * ports
  }

  lemma PairsAre(queues: nat, ports: nat)
    ensures Pairs(queues, ports) == queues * ports && ToStreamId(Pairs(queues, ports)) == queues * ports % 0x1_0000
  {
  }

  /** The stream that serves queue `q` of port `p`. */
  function Place(p: nat, q: nat, queues: nat): nat {
    p * queues + q
  }

  lemma PlacesStart(queues: nat)
    ensures Place(0, 0, queues) == 0
  {
  }

  lemma NoPairs(ports: nat)
    ensures Pairs(0, ports) == 0
  {
  }

  lemma StreamOf(p: nat, q: nat, queues: nat)
    requires q < queues
    ensures (p * queues + q) / queues == p && (p * queues + q) % queues == q
  {
    DivUnique(p * queues + q, queues, p, q);
  }

  lemma DivUnique(n: nat, d: nat, q: nat, r: nat)
    requires d > 0 && n == q * d + r && r < d
    ensures n / d == q && n % d == r
  {
    Euclid(n, d, n / d, n % d);
    var k := q - n / d;
    assert k * d == n % d - r;
    if k >= 1 {
      MulAtLeast(k, d);
    }
  }

  /** Some stream below `streams` receives from queue `q` of port `p`. */
  ghost predicate Served(topology: Topology, ports: seq<PortId>, queues: QueueId, streams: nat, p: nat, q: nat)
    requires p < |ports|
  {
    exists s: nat :: s < streams && ServesPair(topology, ports, queues, s, p, q)
  }

  predicate ServesPair(topology: Topology, ports: seq<PortId>, queues: QueueId, s: nat, p: nat, q: nat)
    requires p < |ports|
  {
    && 0 < queues && s / queues < |ports|
    && var route := RssRoute(topology, ports, queues, s);
    route.rxPort == ports[p] && route.rxQueue == q
  }

  /** Only one stream can serve a queue of a port. */
  lemma PairOfStream(topology: Topology, ports: seq<PortId>, queues: QueueId, s: nat, p: nat, q: nat)
    requires DistinctPorts(ports) && p < |ports| && q < queues
    ensures ServesPair(topology, ports, queues, s, p, q) <==> s == Place(p, q, queues)
  {
    hide TxPort;
    StreamOf(p, q, queues);
    Euclid(s, queues, s / queues, s % queues);
  }

  /** Every queue of every port is served by some stream if and only if the number of streams
      fits the 16-bit stream number. Then streams and pairs correspond one to one. */
  lemma RssServesAllIffFits(topology: Topology, ports: seq<PortId>, queues: QueueId)
    requires DistinctPorts(ports)
    ensures (forall p: nat, q: nat :: p < |ports| && q < queues ==>
        Served(topology, ports, queues, ToStreamId(Pairs(queues, |ports|)), p, q))
      <==> Pairs(queues, |ports|) < 0x1_0000
  {
    hide ServesPair, Place, Pairs, ToStreamId, DistinctPorts;
    var streams, n := ToStreamId(Pairs(queues, |ports|)), |ports|;
    ToStreamIdBelow(Pairs(queues, n));
    if Pairs(queues, n) < 0x1_0000 {
      forall p: nat, q: nat | p < n && q < queues ensures Served(topology, ports, queues, streams, p, q) {
        LastPair(p, q, n, queues);
        PairOfStream(topology, ports, queues, Place(p, q, queues), p, q);
      }
    } else {
      EndPair(n, queues);
      if Served(topology, ports, queues, streams, n - 1, queues - 1) {
        var s: nat :| s < streams && ServesPair(topology, ports, queues, s, n - 1, queues - 1);
        PairOfStream(topology, ports, queues, s, n - 1, queues - 1);
      }
    }
  }

  lemma EndPair(ports: nat, queues: QueueId)
    requires Pairs(queues, ports) >= 0x1_0000
    ensures ports > 0 && queues > 0 && Place(ports - 1, queues - 1, queues) == Pairs(queues, ports) - 1
  {
    assert (ports - 1) * queues + queues == queues * ports;
  }

  lemma LastPair(p: nat, q: nat, ports: nat, queues: nat)
    requires p < ports && q < queues
    ensures Place(p, q, queues) < Pairs(queues, ports)
  {
    assert ports * queues == p * queues + (ports - p) * queues;
    MulAtLeast(ports - p, queues);
  }

  ghost predicate DistinctStreams(streams: seq<FwdStream>) {
    forall i, j :: 0 <= i < j < |streams| ==> streams[i] != streams[j]
  }

  ghost predicate Serves(fs: FwdStream, topology: Topology, ports: seq<PortId>, queues: QueueId, s: nat)
    reads fs
  {
    && 0 < queues && s / queues < |ports|
    && fs.Path() == RssRoute(topology, ports, queues, s) && fs.peerAddr == fs.txPort
  }

  /** What the fields of stream `i * queues + q` of an RSS or echo setup are. It receives from queue `q` of
      the port at index `i`, and sends on queue `q`: of the other port of its pair, of the next port, or
      of its own. */
  lemma ServesMeans(fs: FwdStream, topology: Topology, ports: seq<PortId>, queues: QueueId, i: nat, q: nat)
    requires q < queues && Serves(fs, topology, ports, queues, i * queues + q)
    ensures i < |ports| && fs.rxPort == ports[i] && fs.rxQueue == q == fs.txQueue && fs.peerAddr == fs.txPort
    ensures topology == Paired && i % 2 == 1 ==> fs.txPort == ports[i - 1]
    ensures topology == Paired && i % 2 == 0 ==> fs.txPort == if i == |ports| - 1 then ports[i] else ports[i + 1]
    ensures topology == Chained ==> fs.txPort == if i == |ports| - 1 then ports[0] else ports[i + 1]
    ensures topology == Loop ==> fs.txPort == ports[i]
  {
    hide TxPort;
    StreamOf(i, q, queues);
    TxPortIs(topology, |ports|, i);
  }

  /** Where the counters `rxp` and `rxq` stand at stream `s`, and where they go next. */
  lemma NextStream(s: nat, rxp: nat, rxq: nat, queues: nat, ports: nat)
    requires rxq < queues && s == Place(rxp, rxq, queues) && s < Pairs(queues, ports)
    ensures s / queues == rxp < ports && s % queues == rxq
    ensures s + 1 == if rxq + 1 == queues then Place(rxp + 1, 0, queues) else Place(rxp, rxq + 1, queues)
  {
    StreamOf(rxp, rxq, queues);
  }

  /** The stream loop of `rss_fwd_config_setup` (lines 1263-1284). */
  method SetupRssStreams(streams: seq<FwdStream>, nbFs: StreamId, nbQ: QueueId, ports: seq<PortId>, topology: Topology)
    requires DistinctStreams(streams) && nbFs <= |streams| && nbFs <= Pairs(nbQ, |ports|) && |ports| < 0x100
    modifies streams
    ensures forall s {:trigger streams[s]} :: 0 <= s < nbFs ==> Serves(streams[s], topology, ports, nbQ, s)
    ensures forall s {:trigger streams[s]} :: nbFs <= s < |streams| ==> unchanged(streams[s])
  {
    hide TxPort, Pairs, Place;
    var rxp: PortId, rxq: QueueId := 0, 0;
    if nbFs == 0 {
      return;
    }
    NoPairs(|ports|);
    PlacesStart(nbQ);
    for smId := 0 to nbFs
      invariant smId == Place(rxp, rxq, nbQ) && rxq < nbQ
      invariant forall s {:trigger streams[s]} :: 0 <= s < smId ==> Serves(streams[s], topology, ports, nbQ, s)
      invariant forall s {:trigger streams[s]} :: smId <= s < |streams| ==> unchanged(streams[s])
    {
      NextStream(smId, rxp, rxq, nbQ, |ports|);
      TxPortPermutes(topology, |ports|, rxp, rxp);
      var txp := TxPort(topology, |ports|, rxp);
      var fs := streams[smId];
      fs.rxPort := ports[rxp];
      fs.rxQueue := rxq;
      fs.txPort := ports[txp];
      fs.txQueue := rxq;
      fs.peerAddr := fs.txPort;
      if rxq as nat + 1 < nbQ {
        rxq := rxq + 1;
      } else {
        rxq := 0;
        rxp := rxp + 1;
      }
    }
  }

  /** `rss_fwd_config_setup`: the stream and core counts, the cores' ranges, the streams. */
  method RssFwdConfigSetup(nbRxq: QueueId, nbTxq: QueueId, nbFwdLcores: LcoreId, ports: seq<PortId>,
                           topology: Topology, lcores: seq<FwdLcore>, streams: seq<FwdStream>)
    returns (nbFs: StreamId, nbFc: LcoreId)
    requires |ports| < 0x100 && nbFwdLcores > 0
    requires DistinctLcores(lcores) && nbFwdLcores <= |lcores|
    requires DistinctStreams(streams)
    requires |streams| >= ToStreamId(Pairs(if nbRxq <= nbTxq then nbRxq else nbTxq, |ports|))
    modifies lcores, streams
    ensures nbFs == ((if nbRxq <= nbTxq then nbRxq else nbTxq) * |ports|) % 0x1_0000
    ensures nbFc == if nbFs < nbFwdLcores then nbFs else nbFwdLcores
    ensures forall k {:trigger lcores[k]} :: 0 <= k < nbFc ==> lcores[k].Streams() == LcoreRanges(nbFs, nbFc)[k]
    ensures nbFs > 0 ==> Partition(nbFs, seq(nbFc, k requires 0 <= k < nbFc reads lcores => lcores[k].Streams()))
    ensures forall s {:trigger streams[s]} :: 0 <= s < nbFs ==>
      Serves(streams[s], topology, ports, if nbRxq <= nbTxq then nbRxq else nbTxq, s)
  {
    hide Share, Plain, Block, TxPort, Partition, Serves, ToStreamId, Pairs;
    var nbQ := nbRxq;
    if nbQ > nbTxq {
      nbQ := nbTxq;
    }
    nbFc := nbFwdLcores;
    nbFs := ToStreamId(Pairs(nbQ, |ports|));
    ToStreamIdBelow(Pairs(nbQ, |ports|));
    PairsAre(nbQ, |ports|);
    if nbFs < nbFc {
      nbFc := nbFs;
    }
    SetupEachLcore(lcores, nbFs, nbFc);
    ghost var ranges := seq(nbFc, k requires 0 <= k < nbFc reads lcores => lcores[k].Streams());
    assert ranges == LcoreRanges(nbFs, nbFc);
    if nbFs > 0 {
      PartitionIffClamped(nbFs, nbFc);
    }
    SetupRssStreams(streams, nbFs, nbQ, ports, topology);
    assert seq(nbFc, k requires 0 <= k < nbFc reads lcores => lcores[k].Streams()) == ranges;
  }

  /** Sets one stream to echo on the queue it receives from. */
  method SetEcho(fs: FwdStream, port: PortId, queue: QueueId)
    modifies fs
    ensures fs.Path() == Route(port, queue, port, queue) && fs.peerAddr == fs.txPort
  {
    fs.rxPort := port;
    fs.rxQueue := queue;
    fs.txPort := fs.rxPort;
    fs.txQueue := queue;
    fs.peerAddr := fs.txPort;
  }

  lemma EchoServes(fs: FwdStream, ports: seq<PortId>, queues: QueueId, s: nat)
    requires 0 < queues && s / queues < |ports|
    requires fs.Path() == Route(ports[s / queues], s % queues, ports[s / queues], s % queues)
    requires fs.peerAddr == fs.txPort
    ensures Serves(fs, Loop, ports, queues, s)
  {
  }

  /** The inner loop (lines 1408-1426): streams `idx` to `idx + nb - 1` of one core. */
  method EchoStreams(streams: seq<FwdStream>, idx: StreamId, nb: StreamId, ports: seq<PortId>, queues: QueueId,
                     rxp: PortId, rxq: QueueId)
    returns (nextp: PortId, nextq: QueueId)
    requires DistinctStreams(streams) && idx + nb <= |streams| && idx + nb <= Pairs(queues, |ports|) && |ports| < 0x100
    requires idx == Place(rxp, rxq, queues) && rxq < queues
    requires forall s {:trigger streams[s]} :: 0 <= s < idx ==> Serves(streams[s], Loop, ports, queues, s)
    modifies streams
    ensures idx + nb == Place(nextp, nextq, queues) && nextq < queues
    ensures forall s {:trigger streams[s]} :: 0 <= s < idx + nb ==> Serves(streams[s], Loop, ports, queues, s)
  {
    hide Serves, RssRoute, TxPort, Pairs, Place;
    nextp, nextq := rxp, rxq;
    for smId := 0 to nb
      invariant idx + smId == Place(nextp, nextq, queues) && nextq < queues
      invariant forall s {:trigger streams[s]} :: 0 <= s < idx + smId ==> Serves(streams[s], Loop, ports, queues, s)
    {
      ghost var s := idx + smId;
      NextStream(s, nextp, nextq, queues, |ports|);
      SetEcho(streams[idx + smId], ports[nextp], nextq);
      EchoServes(streams[s], ports, queues, s);
      if nextq as nat + 1 == queues {
        nextq := 0;
        nextp := nextp + 1;
      } else {
        nextq := nextq + 1;
      }
    }
  }

  /** Echo streams send on the queue they receive from. Where they cover the queues of a port, they all
      send on configured transmit queues if and only if there are no more receive queues than those. */
  lemma EchoQueuesIff(ports: seq<PortId>, nbRxq: QueueId, nbTxq: QueueId, streams: nat)
    requires 0 < nbRxq <= streams <= Pairs(nbRxq, |ports|)
    ensures (forall s: nat {:trigger RssRoute(Loop, ports, nbRxq, s)} ::
        s < streams && s / nbRxq < |ports| ==> RssRoute(Loop, ports, nbRxq, s).txQueue < nbTxq)
      <==> nbRxq <= nbTxq
  {
    hide TxPort, Pairs;
    SomePort(nbRxq, |ports|);
    StreamOf(0, nbRxq - 1, nbRxq);
    var last := RssRoute(Loop, ports, nbRxq, nbRxq - 1);
    assert last.txQueue == nbRxq - 1;
  }

  lemma SomePort(queues: nat, ports: nat)
    requires 0 < Pairs(queues, ports)
    ensures 0 < ports
  {
  }

  /** `icmp_echo_config_setup`: the counts with their two clamps, the cores' ranges, and the
      streams, visited core by core. Because the ranges partition the streams the visit is in
      stream order, and every stream echoes on its own queue. */
  method IcmpEchoConfigSetup(nbRxq: QueueId, nbTxq: QueueId, nbFwdLcores: LcoreId, ports: seq<PortId>,
                             lcores: seq<FwdLcore>, streams: seq<FwdStream>)
    returns (nbFs: StreamId, nbFc: LcoreId)
    requires |ports| < 0x100 && nbFwdLcores > 0 && (Pairs(nbTxq, |ports|) > 0 || Pairs(nbRxq, |ports|) == 0)
    requires DistinctLcores(lcores) && nbFwdLcores <= |lcores|
    requires DistinctStreams(streams) && |streams| >= ToStreamId(Pairs(nbRxq, |ports|))
    modifies lcores, streams
    ensures nbFs == (nbRxq * |ports|) % 0x1_0000
    ensures nbFc <= nbFs && nbFc <= nbFwdLcores && nbFc <= nbTxq * |ports|
    ensures nbFc == nbFs || nbFc == nbFwdLcores || nbFc == nbTxq * |ports|
    ensures forall k {:trigger lcores[k]} :: 0 <= k < nbFc ==> lcores[k].Streams() == LcoreRanges(nbFs, nbFc)[k]
    ensures nbFs > 0 ==> Partition(nbFs, seq(nbFc, k requires 0 <= k < nbFc reads lcores => lcores[k].Streams()))
    ensures forall s {:trigger streams[s]} :: 0 <= s < nbFs ==> Serves(streams[s], Loop, ports, nbRxq, s)
  {
    hide Share, Plain, Block, Partition, Serves, RssRoute, TxPort, ToStreamId, Pairs, Place;
    nbFc := nbFwdLcores;
    if Pairs(nbTxq, |ports|) < nbFwdLcores {
      nbFc := Pairs(nbTxq, |ports|);
    }
    nbFs := ToStreamId(Pairs(nbRxq, |ports|));
    ToStreamIdBelow(Pairs(nbRxq, |ports|));
    PairsAre(nbRxq, |ports|);
    PairsAre(nbTxq, |ports|);
    NoPairs(|ports|);
    if nbFs < nbFc {
      nbFc := nbFs;
    }
    SetupEachLcore(lcores, nbFs, nbFc);
    if nbFs == 0 {
      return;
    }
    PlacesStart(nbRxq);
    ghost var ranges := LcoreRanges(nbFs, nbFc);
    PartitionIffClamped(nbFs, nbFc);
    RangeInside(nbFs, ranges, 0);
    var rxp: PortId, rxq: QueueId := 0, 0;
    ghost var done := 0;
    for lcId := 0 to nbFc
      invariant done == RangeStart(nbFs, ranges, lcId) == Place(rxp, rxq, nbRxq) && rxq < nbRxq && done <= nbFs
      invariant forall k {:trigger lcores[k]} :: 0 <= k < nbFc ==> lcores[k].Streams() == ranges[k]
      invariant forall s {:trigger streams[s]} :: 0 <= s < done ==> Serves(streams[s], Loop, ports, nbRxq, s)
    {
      RangeInside(nbFs, ranges, lcId);
      var lcore := lcores[lcId];
      rxp, rxq := EchoStreams(streams, lcore.streamIdx, lcore.streamNb, ports, nbRxq, rxp, rxq);
      done := done + ranges[lcId].nb;
    }
    assert seq(nbFc, k requires 0 <= k < nbFc reads lcores => lcores[k].Streams()) == ranges;
  }

  /** The first stream of core `k`; behind the last core, the number of streams. */
  ghost function RangeStart(streams: nat, ranges: seq<Range>, k: nat): nat
    requires k <= |ranges|
  {
    if k < |ranges| then ranges[k].idx else streams
  }

  lemma RangeInside(streams: nat, ranges: seq<Range>, k: nat)
    requires Partition(streams, ranges) && k < |ranges|
    ensures RangeStart(streams, ranges, 0) == 0
    ensures ranges[k].idx + ranges[k].nb == RangeStart(streams, ranges, k + 1) <= streams
  {
    hide Consecutive;
    if k + 1 < |ranges| {
      RangesMeet(ranges, k);
      PartitionDisjoint(ranges, k, |ranges| - 1);
    }
  }

  lemma RangesMeet(ranges: seq<Range>, k: nat)
    requires Consecutive(ranges) && k + 1 < |ranges|
    ensures ranges[k + 1].idx == ranges[k].idx + ranges[k].nb
  {
  }

  // ----- One queue a port

  /** Where `simple_fwd_config_setup` sends packets from port `s`: as `TxPort` says, except that
      the last of an odd number of paired ports is paired with the first, which is taken. */
  function SimpleTxPort(topology: Topology, n: nat, s: nat): nat
    requires s < n
  {
    if topology.Paired? && n % 2 == 1 && s == n - 1 then 0
    else if topology.Paired? && n % 2 == 1 && s == 0 then n - 1
    else TxPort(topology, n, s)
  }

  /** No two streams send on the same port, unless an odd number of ports, more than one, is
      paired: then the second and the last stream both send on the first port. */
  lemma SimpleTxPermutesIff(topology: Topology, n: nat)
    ensures (forall a: nat, b: nat :: a < b < n ==> SimpleTxPort(topology, n, a) != SimpleTxPort(topology, n, b))
      <==> !(topology.Paired? && n % 2 == 1 && n > 1)
  {
    if topology.Paired? && n % 2 == 1 && n > 1 {
      assert SimpleTxPort(topology, n, 1) == SimpleTxPort(topology, n, n - 1);
    } else {
      forall a: nat, b: nat | a < b < n ensures SimpleTxPort(topology, n, a) != SimpleTxPort(topology, n, b) {
        TxPortPermutes(topology, n, a, b);
      }
    }
  }

  /** Stream `s` after the loop has come to `i`, which is behind `n` once the last port of an odd
      number has been paired. */
  function SimpleRoute(topology: Topology, ports: seq<PortId>, i: nat, s: nat): Route
    requires s < |ports|
  {
    TxPortPermutes(topology, |ports|, s, s);
    var txp := if i <= |ports| then TxPort(topology, |ports|, s) else SimpleTxPort(topology, |ports|, s);
    Route(ports[s], 0, ports[txp], 0)
  }

  function NextPort(topology: Topology, n: nat, i: nat): (j: nat)
    requires i < n
    ensures j < n
  {
    ChainedStep(n, i);
    if topology.Loop? then i else (i + 1) % n
  }

  /** What one turn of the loop does to stream `s`. */
  lemma SimpleStep(topology: Topology, ports: seq<PortId>, i: nat, s: nat)
    requires i < |ports| && s < |ports| && (topology.Paired? ==> i % 2 == 0)
    requires s < i + if topology.Paired? then 2 else 1
    ensures var j := NextPort(topology, |ports|, i);
      SimpleRoute(topology, ports, i + if topology.Paired? then 2 else 1, s) ==
        if topology.Paired? && s == j then Route(ports[j], 0, ports[i], 0)
        else if s == i then Route(ports[i], 0, ports[j], 0)
        else SimpleRoute(topology, ports, i, s)
    ensures s < i || s == i || (topology.Paired? && s == NextPort(topology, |ports|, i))
  {
    ChainedStep(|ports|, i);
  }

  ghost predicate SimpleStream(fs: FwdStream, topology: Topology, ports: seq<PortId>, i: nat, s: nat)
    reads fs
  {
    s < |ports| && fs.Path() == SimpleRoute(topology, ports, i, s) && fs.peerAddr == fs.txPort
  }

  method SetStream(fs: FwdStream, rx: PortId, tx: PortId)
    modifies fs
    ensures fs.Path() == Route(rx, 0, tx, 0) && fs.peerAddr == fs.txPort
  {
    fs.rxPort := rx;
    fs.rxQueue := 0;
    fs.txPort := tx;
    fs.txQueue := 0;
    fs.peerAddr := fs.txPort;
  }

  /** The stream loop of `simple_fwd_config_setup` (lines 1178-1184 and 1210-1230). */
  method SetupSimpleStreams(streams: seq<FwdStream>, ports: seq<PortId>, topology: Topology) returns (ghost end: nat)
    requires DistinctStreams(streams) && |ports| <= |streams|
    requires |ports| < 0x100 && (topology.Paired? ==> |ports| < 0xFF)
    modifies streams
    ensures end >= |ports| && (end > |ports| <==> topology.Paired? && |ports| % 2 == 1)
    ensures forall s {:trigger streams[s]} :: 0 <= s < |ports| ==> SimpleStream(streams[s], topology, ports, end, s)
  {
    hide SimpleRoute, NextPort;
    var n := |ports|;
    var inc := if topology.Paired? then 2 else 1;
    var i: PortId := 0;
    while i < n
      invariant topology.Paired? ==> i % 2 == 0
      invariant i > n ==> topology.Paired? && i == n + 1
      invariant forall s {:trigger streams[s]} :: 0 <= s < i && s < n ==>
        SimpleStream(streams[s], topology, ports, i, s)
      decreases n - i
    {
      label LoopTop:
      var j := NextPort(topology, n, i);
      ghost var before := i;
      SetStream(streams[i], ports[i], ports[j]);
      if topology.Paired? {
        SetStream(streams[j], ports[j], ports[i]);
      }
      i := i + inc;
      forall s {:trigger streams[s]} | 0 <= s < i && s < n ensures SimpleStream(streams[s], topology, ports, i, s) {
        SimpleStep(topology, ports, before, s);
        assert s < before ==> old@LoopTop(SimpleStream(streams[s], topology, ports, before, s));
      }
    }
    end := i;
  }

  /** `simple_fwd_config_setup`: one stream a port; the cores partition the streams, and the
      streams go where `SimpleTxPort` says. */
  method SimpleFwdConfigSetup(nbFwdLcores: LcoreId, ports: seq<PortId>, topology: Topology,
                              lcores: seq<FwdLcore>, streams: seq<FwdStream>)
    returns (nbFc: LcoreId)
    requires |ports| < 0x100 && (topology.Paired? ==> |ports| < 0xFF) && nbFwdLcores > 0
    requires DistinctLcores(lcores) && nbFwdLcores <= |lcores|
    requires DistinctStreams(streams) && |ports| <= |streams|
    modifies lcores, streams
    ensures nbFc == if nbFwdLcores > |ports| then |ports| else nbFwdLcores
    ensures forall k {:trigger lcores[k]} :: 0 <= k < nbFc ==> lcores[k].Streams() == LcoreRanges(|ports|, nbFc)[k]
    ensures |ports| > 0 ==>
      Partition(|ports|, seq(nbFc, k requires 0 <= k < nbFc reads lcores => lcores[k].Streams()))
    ensures forall s {:trigger streams[s]} :: 0 <= s < |ports| ==>
      SimpleStream(streams[s], topology, ports, |ports| + 1, s)
  {
    hide Share, Plain, Block, Partition, SimpleStream, TxPort;
    nbFc := nbFwdLcores;
    if nbFc > |ports| {
      nbFc := |ports|;
    }
    SetupEachLcore(lcores, |ports|, nbFc);
    ghost var ranges := seq(nbFc, k requires 0 <= k < nbFc reads lcores => lcores[k].Streams());
    assert ranges == LcoreRanges(|ports|, nbFc);
    if |ports| > 0 {
      PartitionIffClamped(|ports|, nbFc);
    }
    ghost var end := SetupSimpleStreams(streams, ports, topology);
    forall s {:trigger streams[s]} | 0 <= s < |ports|
      ensures SimpleStream(streams[s], topology, ports, |ports| + 1, s)
    {
      SimpleEnd(streams[s], topology, ports, end, s);
    }
    assert seq(nbFc, k requires 0 <= k < nbFc reads lcores => lcores[k].Streams()) == ranges;
  }

  /** What the fields of stream `i` of a simple setup are. Of an odd number of paired ports the last is
      paired with the first, whose stream was set before and is overwritten. */
  lemma SimpleMeans(fs: FwdStream, topology: Topology, ports: seq<PortId>, i: nat)
    requires SimpleStream(fs, topology, ports, |ports| + 1, i)
    ensures i < |ports| && fs.rxPort == ports[i] && fs.rxQueue == 0 == fs.txQueue && fs.peerAddr == fs.txPort
    ensures var last := |ports| - 1;
      && (topology == Paired && i % 2 == 1 ==> fs.txPort == ports[i - 1])
      && (topology == Paired && 0 < i < last && i % 2 == 0 ==> fs.txPort == ports[i + 1])
      && (topology == Paired && i == last && i % 2 == 0 ==> fs.txPort == ports[0])
      && (topology == Paired && i == 0 ==> fs.txPort == if last % 2 == 1 then ports[1] else ports[last])
      && (topology == Chained ==> fs.txPort == if i == last then ports[0] else ports[i + 1])
      && (topology == Loop ==> fs.txPort == ports[i])
  {
    hide TxPort;
    TxPortIs(topology, |ports|, i);
  }

  lemma SimpleEnd(fs: FwdStream, topology: Topology, ports: seq<PortId>, end: nat, s: nat)
    requires SimpleStream(fs, topology, ports, end, s)
    requires end >= |ports| && (end > |ports| <==> topology.Paired? && |ports| % 2 == 1)
    ensures SimpleStream(fs, topology, ports, |ports| + 1, s)
  {
  }
}
