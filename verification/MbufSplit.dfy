/** Copying a packet into a chain of segments of given lengths
    (`dpdk/app/test-pmd/csumonly.c`). */
module MbufSplit {
  import opened Bytes

  const RTE_MAX_SEGS_PER_PKT := 255

  /** `uint16_t`, for the length of one segment. */
  type Seg = n: nat | n < 0x1_0000

  /** Offload information copied along with the packet. */
  datatype Offload = Offload(vlanTci: nat, vlanTciOuter: nat, olFlags: nat, txOffload: nat)

  /** `struct rte_mbuf`: `buf` is the room behind the data offset. */
  class Mbuf {
    const buf: array<byte>
    var dataLen: Seg
    var next: Mbuf?
    var pktLen: nat
    var nbSegs: nat
    var offload: Offload

    /** As `rte_pktmbuf_alloc` delivers it: empty and unlinked. */
    constructor (room: nat)
      ensures dataLen == 0 && next == null && buf.Length == room && fresh(buf)
    {
      buf := new byte[room];
      dataLen := 0;
      next := null;
      pktLen := 0;
      nbSegs := 1;
      offload := Offload(0, 0, 0, 0);
    }

    ghost function Data(): seq<byte>
      reads `dataLen, buf
    {
      if dataLen <= buf.Length then buf[..dataLen] else []
    }
  }

  /** A memory pool: mbufs of one size, a number of which are still available. `live` are the
      mbufs handed out and not freed. */
  class Pool {
    const room: nat
    var available: nat
    ghost var live: set<Mbuf>

    constructor (room: nat, available: nat)
      ensures this.room == room && this.available == available && live == {}
    {
      this.room := room;
      this.available := available;
      live := {};
    }

    /** `rte_pktmbuf_alloc` */
    method Alloc() returns (m: Mbuf?)
      modifies this
      ensures m == null <==> old(available) == 0
      ensures m == null ==> available == 0 && live == old(live)
      ensures m != null ==> available == old(available) - 1 && live == old(live) + {m} && m !in old(live)
      ensures m != null ==> fresh(m) && fresh(m.buf) && m.dataLen == 0 && m.next == null && m.buf.Length == room
    {
      m := null;
      if available > 0 {
        available := available - 1;
        m := new Mbuf(room);
        live := live + {m};
      }
    }

    /** `rte_pktmbuf_free_seg`, for an mbuf that has not been freed. */
    method Free(m: Mbuf)
      requires m in live
      modifies this
      ensures live == old(live) - {m} && available == old(available) + 1
    {
      available := available + 1;
      live := live - {m};
    }
  }

  // ----- Specification

  function Sum(ns: seq<nat>): nat {
    if ns == [] then 0 else Sum(ns[..|ns| - 1]) + ns[|ns| - 1]
  }

  function Concat(parts: seq<seq<byte>>): seq<byte> {
    if parts == [] then [] else Concat(parts[..|parts| - 1]) + parts[|parts| - 1]
  }

  function Lengths(parts: seq<seq<byte>>): (ns: seq<nat>)
    ensures |ns| == |parts| && forall i :: 0 <= i < |parts| ==> ns[i] == |parts[i]|
  {
    seq(|parts|, i requires 0 <= i < |parts| => |parts[i]|)
  }

  /** Source segments of lengths `lens` go into destination segments of capacities `caps` when
      a destination segment never holds bytes of two source segments. */
  predicate Fit(lens: seq<nat>, caps: seq<nat>)
    decreases |caps|
  {
    if lens == [] then true
    else if caps == [] then false
    else
      var n := Min(caps[0], lens[0]);
      Fit(if n == lens[0] then lens[1..] else [lens[0] - n] + lens[1..], caps[1..])
  }

  lemma SumFront(ns: seq<nat>)
    requires ns != []
    ensures Sum(ns) == ns[0] + Sum(ns[1..])
    decreases |ns|
  {
    if |ns| > 1 {
      var last := |ns| - 1;
      SumFront(ns[..last]);
      assert ns[..last][1..] == ns[1..][..last - 1];
    }
  }

  /** A packet in one piece fits exactly when the capacities add up to its length. */
  lemma {:induction false} OnePieceFits(n: nat, caps: seq<nat>)
    requires n > 0
    ensures Fit([n], caps) <==> n <= Sum(caps)
    decreases |caps|
  {
    if caps != [] {
      SumFront(caps);
      var m := Min(caps[0], n);
      assert [n][1..] == [];
      if m < n {
        assert [n - m] + [n][1..] == [n - m];
        OnePieceFits(n - m, caps[1..]);
      }
    }
  }

  /** Whatever its pieces, a packet that fits is no longer than the capacities together. */
  lemma {:induction false} FitNeedsRoom(lens: seq<nat>, caps: seq<nat>)
    requires Fit(lens, caps)
    ensures Sum(lens) <= Sum(caps)
    decreases |caps|
  {
    if lens != [] {
      SumFront(lens);
      SumFront(caps);
      var n := Min(caps[0], lens[0]);
      var rest := if n == lens[0] then lens[1..] else [lens[0] - n] + lens[1..];
      FitNeedsRoom(rest, caps[1..]);
      if n < lens[0] {
        SumFront(rest);
        assert rest[1..] == lens[1..];
      }
    }
  }

  /** The room in the segments from `a` up to `b`. */
  function Room(caps: seq<nat>, a: nat, b: nat): nat
    requires a <= b <= |caps|
  {
    Sum(caps[a..b])
  }

  lemma RoomFront(caps: seq<nat>, a: nat, b: nat)
    requires a < b <= |caps|
    ensures Room(caps, a, b) == caps[a] + Room(caps, a + 1, b)
  {
    SumFront(caps[a..b]);
    assert caps[a..b][1..] == caps[a + 1..b];
  }

  lemma RoomNone(caps: seq<nat>, a: nat)
    requires a <= |caps|
    ensures Room(caps, a, a) == 0
  {
  }

  lemma RoomBehind(caps: seq<nat>, a: nat, b: nat)
    requires a <= b < |caps|
    ensures Room(caps[1..], a, b) == Room(caps, a + 1, b + 1)
  {
    assert caps[1..][a..b] == caps[a + 1..b + 1];
  }

  lemma {:induction false} RoomGrows(caps: seq<nat>, a: nat, b: nat, c: nat)
    requires a <= b <= c <= |caps|
    ensures Room(caps, b, c) <= Room(caps, a, c)
    decreases b - a
  {
    if a < b {
      RoomFront(caps, a, c);
      RoomGrows(caps, a + 1, b, c);
    }
  }

  /** Segments `a` up to `b` hold `n` bytes. */
  predicate Holds(caps: seq<nat>, a: nat, b: nat, n: nat) {
    a < b <= |caps| && n <= Room(caps, a, b)
  }

  predicate GroupAt(lens: seq<nat>, caps: seq<nat>, cuts: seq<nat>, i: nat)
    requires i < |lens| && |cuts| == |lens| + 1
  {
    Holds(caps, cuts[i], cuts[i + 1], lens[i])
  }

  lemma HoldsBehind(caps: seq<nat>, a: nat, b: nat, n: nat)
    requires caps != []
    ensures Holds(caps[1..], a, b, n) == Holds(caps, a + 1, b + 1, n)
  {
    hide Room;
    if a < b < |caps| {
      RoomBehind(caps, a, b);
    }
  }

  /** One segment in front holds as much more as its room. */
  lemma HoldsMore(caps: seq<nat>, b: nat, n: nat)
    requires caps != [] && 0 < b
    ensures Holds(caps[1..], 0, b, n) == Holds(caps, 0, b + 1, caps[0] + n)
  {
    hide Room;
    if b < |caps| {
      RoomBehind(caps, 0, b);
      RoomFront(caps, 0, b + 1);
    }
  }

  lemma FirstHolds(caps: seq<nat>, n: nat)
    requires caps != []
    ensures Holds(caps, 0, 1, n) == (n <= caps[0])
  {
    hide Room;
    RoomFront(caps, 0, 1);
    RoomNone(caps, 1);
  }

  /** A group holds no less with more segments in front. */
  lemma HoldsEarlier(caps: seq<nat>, a: nat, b: nat, c: nat, n: nat)
    requires a <= b && Holds(caps, b, c, n)
    ensures Holds(caps, a, c, n)
  {
    hide Room;
    RoomGrows(caps, a, b, c);
  }

  /** `cuts` divides the first destination segments into one group for each source segment, and
      every group has room for its source segment. */
  ghost predicate Grouped(lens: seq<nat>, caps: seq<nat>, cuts: seq<nat>) {
    && |cuts| == |lens| + 1 && cuts[0] == 0
    && forall i: nat {:trigger GroupAt(lens, caps, cuts, i)} :: i < |lens| ==> GroupAt(lens, caps, cuts, i)
  }

  /** Taking the destination segments as they come is as good as any way to divide them up: the
      source fits if and only if there is some. */
  lemma FitIffGrouped(lens: seq<nat>, caps: seq<nat>)
    ensures Fit(lens, caps) <==> exists cuts :: Grouped(lens, caps, cuts)
  {
    hide Fit, Grouped;
    if Fit(lens, caps) {
      var cuts := FitGroups(lens, caps);
    }
    forall cuts | Grouped(lens, caps, cuts) ensures Fit(lens, caps) {
      GroupedFits(lens, caps, cuts);
    }
  }

  function Later(cuts: seq<nat>): (later: seq<nat>)
    ensures |later| == |cuts| && forall i :: 0 <= i < |cuts| ==> later[i] == cuts[i] + 1
  {
    seq(|cuts|, i requires 0 <= i < |cuts| => cuts[i] + 1)
  }

  function Sooner(cuts: seq<nat>): (sooner: seq<nat>)
    requires forall i :: 0 <= i < |cuts| ==> cuts[i] > 0
    ensures |sooner| == |cuts| && forall i :: 0 <= i < |cuts| ==> sooner[i] == cuts[i] - 1
  {
    seq(|cuts|, i requires 0 <= i < |cuts| => cuts[i] - 1)
  }

  lemma CutsRise(lens: seq<nat>, caps: seq<nat>, cuts: seq<nat>)
    requires Grouped(lens, caps, cuts)
    ensures forall i :: 0 <= i < |cuts| ==> cuts[i] >= i
    ensures lens != [] ==> caps != []
  {
    hide Room;
    var i: nat := 1;
    while i < |cuts|
      invariant 1 <= i <= |cuts| && forall k :: 0 <= k < i ==> cuts[k] >= k
      invariant i > 1 ==> caps != []
    {
      assert GroupAt(lens, caps, cuts, i - 1);
      i := i + 1;
    }
  }

  /** The source segments left when the first destination segment is full. */
  function Rest(lens: seq<nat>, cap: nat): seq<nat>
    requires lens != []
  {
    if lens[0] <= cap then lens[1..] else [lens[0] - cap] + lens[1..]
  }

  lemma FitStep(lens: seq<nat>, caps: seq<nat>)
    requires lens != [] && caps != []
    ensures Fit(lens, caps) == Fit(Rest(lens, caps[0]), caps[1..])
  {
  }

  /** One more destination segment in front holds the first source segment. */
  lemma GroupsBehindWhole(lens: seq<nat>, caps: seq<nat>, cuts: seq<nat>) returns (all: seq<nat>)
    requires lens != [] && caps != [] && lens[0] <= caps[0] && Grouped(lens[1..], caps[1..], cuts)
    ensures Grouped(lens, caps, all)
  {
    hide Holds;
    all := [0] + Later(cuts);
    forall i: nat | i < |lens| ensures GroupAt(lens, caps, all, i) {
      if i == 0 {
        FirstHolds(caps, lens[0]);
      } else {
        assert GroupAt(lens[1..], caps[1..], cuts, i - 1);
        HoldsBehind(caps, cuts[i - 1], cuts[i], lens[i]);
      }
    }
  }

  /** Or it holds a part of it. */
  lemma GroupsBehindPart(lens: seq<nat>, caps: seq<nat>, rest: seq<nat>, cuts: seq<nat>) returns (all: seq<nat>)
    requires lens != [] && caps != [] && caps[0] < lens[0] && rest == [lens[0] - caps[0]] + lens[1..]
    requires Grouped(rest, caps[1..], cuts)
    ensures Grouped(lens, caps, all)
  {
    CutsRise(rest, caps[1..], cuts);
    hide Holds;
    all := [0] + Later(cuts[1..]);
    forall i: nat | i < |lens| ensures GroupAt(lens, caps, all, i) {
      assert GroupAt(rest, caps[1..], cuts, i);
      if i == 0 {
        HoldsMore(caps, cuts[1], rest[0]);
      } else {
        HoldsBehind(caps, cuts[i], cuts[i + 1], lens[i]);
      }
    }
  }

  /** The groups left when the first destination segment has taken the first source segment. */
  lemma GroupsLeftWhole(lens: seq<nat>, caps: seq<nat>, cuts: seq<nat>) returns (left: seq<nat>)
    requires lens != [] && Grouped(lens, caps, cuts) && caps != []
    ensures Grouped(lens[1..], caps[1..], left)
  {
    CutsRise(lens, caps, cuts);
    hide Holds;
    left := [0] + Sooner(cuts[2..]);
    forall i: nat | i < |lens[1..]| ensures GroupAt(lens[1..], caps[1..], left, i) {
      assert GroupAt(lens, caps, cuts, i + 1);
      if i == 0 {
        HoldsEarlier(caps, 1, cuts[1], cuts[2], lens[1]);
        HoldsBehind(caps, 0, cuts[2] - 1, lens[1]);
      } else {
        HoldsBehind(caps, cuts[i + 1] - 1, cuts[i + 2] - 1, lens[i + 1]);
      }
    }
  }

  /** The groups left when it has taken a part of it. */
  lemma GroupsLeftPart(lens: seq<nat>, caps: seq<nat>, rest: seq<nat>, cuts: seq<nat>) returns (left: seq<nat>)
    requires lens != [] && Grouped(lens, caps, cuts) && caps != []
    requires caps[0] < lens[0] && rest == [lens[0] - caps[0]] + lens[1..]
    ensures Grouped(rest, caps[1..], left)
  {
    CutsRise(lens, caps, cuts);
    hide Holds;
    assert GroupAt(lens, caps, cuts, 0);
    FirstHolds(caps, lens[0]);
    left := [0] + Sooner(cuts[1..]);
    forall i: nat | i < |rest| ensures GroupAt(rest, caps[1..], left, i) {
      assert GroupAt(lens, caps, cuts, i);
      if i == 0 {
        HoldsMore(caps, cuts[1] - 1, rest[0]);
      } else {
        HoldsBehind(caps, cuts[i] - 1, cuts[i + 1] - 1, lens[i]);
      }
    }
  }

  lemma {:induction false} FitGroups(lens: seq<nat>, caps: seq<nat>) returns (cuts: seq<nat>)
    requires Fit(lens, caps)
    ensures Grouped(lens, caps, cuts)
    decreases |caps|
  {
    hide Grouped;
    if lens == [] {
      cuts := [0];
      assert Grouped(lens, caps, cuts) by { NoGroups(caps); }
    } else {
      FitStep(lens, caps);
      var rest := Rest(lens, caps[0]);
      cuts := FitGroups(rest, caps[1..]);
      if lens[0] <= caps[0] {
        cuts := GroupsBehindWhole(lens, caps, cuts);
      } else {
        cuts := GroupsBehindPart(lens, caps, rest, cuts);
      }
    }
  }

  lemma NoGroups(caps: seq<nat>)
    ensures Grouped([], caps, [0])
  {
  }

  lemma {:induction false} GroupedFits(lens: seq<nat>, caps: seq<nat>, cuts: seq<nat>)
    requires Grouped(lens, caps, cuts)
    ensures Fit(lens, caps)
    decreases |caps|
  {
    hide Grouped;
    if lens != [] {
      CutsRise(lens, caps, cuts);
      var rest, left := Rest(lens, caps[0]), [];
      if lens[0] <= caps[0] {
        left := GroupsLeftWhole(lens, caps, cuts);
      } else {
        left := GroupsLeftPart(lens, caps, rest, cuts);
      }
      GroupedFits(rest, caps[1..], left);
      FitStep(lens, caps);
    }
  }

  lemma {:induction false} ConcatLength(parts: seq<seq<byte>>)
    ensures |Concat(parts)| == Sum(Lengths(parts))
  {
    if parts != [] {
      var last := |parts| - 1;
      ConcatLength(parts[..last]);
      assert Lengths(parts)[..last] == Lengths(parts[..last]);
    }
  }

  lemma ConcatSnoc(parts: seq<seq<byte>>, part: seq<byte>)
    ensures Concat(parts + [part]) == Concat(parts) + part
  {
    assert (parts + [part])[..|parts|] == parts;
  }

  /** The bytes put together: byte `x` of part `j` comes behind the parts before. */
  lemma {:induction false} ConcatAt(parts: seq<seq<byte>>, j: nat, x: nat)
    requires j < |parts| && x < |parts[j]|
    ensures |Concat(parts[..j])| + x < |Concat(parts)| && Concat(parts)[|Concat(parts[..j])| + x] == parts[j][x]
    decreases |parts|
  {
    var front := parts[..|parts| - 1];
    if j < |front| {
      ConcatAt(front, j, x);
      assert front[..j] == parts[..j];
    }
  }

  lemma {:induction false} SumBelow(ns: seq<nat>, caps: seq<nat>, n: nat)
    requires |ns| <= n <= |caps| && forall i :: 0 <= i < |ns| ==> ns[i] <= caps[i]
    ensures Sum(ns) <= Sum(caps[..n])
    decreases n
  {
    if n > 0 {
      assert caps[..n][..n - 1] == caps[..n - 1];
      if |ns| == n {
        SumBelow(ns[..n - 1], caps, n - 1);
      } else {
        SumBelow(ns, caps, n - 1);
      }
    }
  }

  ghost function DataOf(ms: seq<Mbuf>): (parts: seq<seq<byte>>)
    reads ms`dataLen, Bufs(ms)
    ensures |parts| == |ms| && forall i :: 0 <= i < |ms| ==> parts[i] == ms[i].Data()
  {
    if ms == [] then [] else DataOf(ms[..|ms| - 1]) + [ms[|ms| - 1].Data()]
  }

  ghost function LinkOf(ms: seq<Mbuf>, i: nat): Mbuf? {
    if i < |ms| then ms[i] else null
  }

  /** A chain of mbufs, each with its data inside its buffer. */
  ghost predicate Chain(ms: seq<Mbuf>)
    reads ms`dataLen, ms`next
  {
    && |ms| > 0
    && (forall i {:trigger ms[i]} :: 0 <= i < |ms| ==>
          ms[i].dataLen <= ms[i].buf.Length && ms[i].next == LinkOf(ms, i + 1))
  }

  // ----- The program

  /** `memcpy` between different buffers. */
  method CopyMem(dst: array<byte>, at: nat, src: array<byte>, from: nat, len: nat)
    requires dst != src && at + len <= dst.Length && from + len <= src.Length
    modifies dst
    ensures dst[at..at + len] == src[from..from + len]
    ensures dst[..at] == old(dst[..at]) && dst[at + len..] == old(dst[at + len..])
  {
    forall i | 0 <= i < len {
      dst[at + i] := src[from + i];
    }
  }

  /** What has been taken from the source: segments `..si`, and of segment `si` all but `slen`. */
  function Taken(parts: seq<seq<byte>>, si: nat, slen: nat): seq<byte>
    requires si <= |parts| && (slen > 0 ==> si < |parts| && slen <= |parts[si]|)
  {
    if slen == 0 then Concat(parts[..si]) else Concat(parts[..si]) + parts[si][..|parts[si]| - slen]
  }

  function Left(lens: seq<nat>, si: nat, slen: nat): seq<nat>
    requires si <= |lens| && (slen > 0 ==> si < |lens|)
  {
    if slen == 0 then lens[si..] else [slen] + lens[si + 1..]
  }

  lemma TakenIs(parts: seq<seq<byte>>, si: nat, slen: nat, so: nat)
    requires si < |parts| && (if slen == 0 then so == 0 else slen + so == |parts[si]|)
    ensures Taken(parts, si, slen) == Concat(parts[..si]) + parts[si][..so]
  {
    hide Concat;
  }

  lemma TakenAll(parts: seq<seq<byte>>, si: nat)
    requires si < |parts|
    ensures Taken(parts, si + 1, 0) == Concat(parts[..si]) + parts[si]
  {
    hide Concat;
    assert parts[..si + 1] == parts[..si] + [parts[si]];
    ConcatSnoc(parts[..si], parts[si]);
  }

  /** All that is left of the current source segment is taken. */
  lemma TakeWhole(parts: seq<seq<byte>>, si: nat, slen: nat, so: nat)
    requires si < |parts| && so <= |parts[si]| && (if slen == 0 then so == 0 else slen + so == |parts[si]|)
    ensures Taken(parts, si + 1, 0) == Taken(parts, si, slen) + parts[si][so..]
  {
    hide Concat, Taken;
    TakenIs(parts, si, slen, so);
    TakenAll(parts, si);
    assert parts[si][..so] + parts[si][so..] == parts[si];
  }

  /** Some of it is taken. */
  lemma TakePart(parts: seq<seq<byte>>, si: nat, slen: nat, so: nat, n: nat)
    requires si < |parts| && so + n < |parts[si]| && (if slen == 0 then so == 0 else slen + so == |parts[si]|)
    ensures Taken(parts, si, |parts[si]| - so - n) == Taken(parts, si, slen) + parts[si][so..so + n]
  {
    hide Concat, Taken;
    TakenIs(parts, si, slen, so);
    TakenIs(parts, si, |parts[si]| - so - n, so + n);
    Lengthen(Concat(parts[..si]), parts[si], so, n);
  }

  lemma Lengthen(before: seq<byte>, part: seq<byte>, so: nat, n: nat)
    requires so + n <= |part|
    ensures before + part[..so] + part[so..so + n] == before + part[..so + n]
  {
    assert part[..so] + part[so..so + n] == part[..so + n];
  }

  /** One destination segment takes what it can from the current source segment. */
  lemma TakeStep(parts: seq<seq<byte>>, si: nat, slen: nat, cap: nat)
    requires si < |parts| && slen <= |parts[si]|
    ensures var have := if slen == 0 then |parts[si]| else slen;
      var n := Min(cap, have);
      var so, rest := |parts[si]| - have, have - n;
      Taken(parts, if rest == 0 then si + 1 else si, rest) == Taken(parts, si, slen) + parts[si][so..so + n]
  {
    hide Concat, Taken;
    var have := if slen == 0 then |parts[si]| else slen;
    var so := |parts[si]| - have;
    if have <= cap {
      TakeWhole(parts, si, slen, so);
      assert parts[si][so..] == parts[si][so..so + have];
    } else {
      TakePart(parts, si, slen, so, cap);
    }
  }

  /** What fits before that step is what fits after it. */
  lemma LeftStep(lens: seq<nat>, si: nat, slen: nat, cap: nat, caps: seq<nat>)
    requires si < |lens| && slen <= lens[si]
    ensures var have := if slen == 0 then lens[si] else slen;
      var rest := have - Min(cap, have);
      Fit(Left(lens, si, slen), [cap] + caps) == Fit(Left(lens, if rest == 0 then si + 1 else si, rest), caps)
  {
    var have := if slen == 0 then lens[si] else slen;
    var left := Left(lens, si, slen);
    assert left[0] == have && left[1..] == lens[si + 1..];
    assert ([cap] + caps)[1..] == caps;
  }

  /** Piece `k` of `copied` starts where the pieces before it end, inside source segment `j`, and takes
      as much of that segment as it has room for: it is full or ends the segment. */
  ghost predicate Piece(parts: seq<seq<byte>>, copied: seq<seq<byte>>, cap: nat, k: nat)
    requires k < |copied|
  {
    exists j: nat, so: nat :: PieceFrom(parts, copied, cap, k, j, so)
  }

  predicate PieceFrom(parts: seq<seq<byte>>, copied: seq<seq<byte>>, cap: nat, k: nat, j: nat, so: nat)
    requires k < |copied|
  {
    && j < |parts| && (so == 0 || so < |parts[j]|)
    && |Concat(copied[..k])| == |Concat(parts[..j])| + so
    && copied[k] == parts[j][so..so + Min(cap, |parts[j]| - so)]
  }

  ghost predicate Pieces(parts: seq<seq<byte>>, copied: seq<seq<byte>>, caps: seq<nat>) {
    |copied| <= |caps| && forall k {:trigger copied[k]} :: 0 <= k < |copied| ==> Piece(parts, copied, caps[k], k)
  }

  lemma NoPieces(parts: seq<seq<byte>>, caps: seq<nat>)
    ensures Pieces(parts, [], caps)
  {
  }

  lemma PieceKept(parts: seq<seq<byte>>, copied: seq<seq<byte>>, part: seq<byte>, cap: nat, k: nat)
    requires k < |copied| && Piece(parts, copied, cap, k)
    ensures Piece(parts, copied + [part], cap, k)
  {
    hide Concat;
    var j: nat, so: nat :| PieceFrom(parts, copied, cap, k, j, so);
    assert (copied + [part])[..k] == copied[..k];
    assert PieceFrom(parts, copied + [part], cap, k, j, so);
  }

  lemma OnePiece(parts: seq<seq<byte>>, copied: seq<seq<byte>>, cap: nat, j: nat, so: nat)
    requires j < |parts| && (so == 0 || so < |parts[j]|) && |Concat(copied)| == |Concat(parts[..j])| + so
    ensures Piece(parts, copied + [parts[j][so..so + Min(cap, |parts[j]| - so)]], cap, |copied|)
  {
    hide Concat;
    var all := copied + [parts[j][so..so + Min(cap, |parts[j]| - so)]];
    assert all[..|copied|] == copied;
    assert PieceFrom(parts, all, cap, |copied|, j, so);
  }

  lemma PiecesAppend(parts: seq<seq<byte>>, copied: seq<seq<byte>>, caps: seq<nat>, si: nat, slen: nat)
    requires Pieces(parts, copied, caps) && |copied| < |caps|
    requires si < |parts| && slen <= |parts[si]| && Concat(copied) == Taken(parts, si, slen)
    ensures var have := if slen == 0 then |parts[si]| else slen;
      var so := |parts[si]| - have;
      Pieces(parts, copied + [parts[si][so..so + Min(caps[|copied|], have)]], caps)
  {
    hide Concat, Taken, Piece;
    var have := if slen == 0 then |parts[si]| else slen;
    var so := |parts[si]| - have;
    TakenIs(parts, si, slen, so);
    OnePiece(parts, copied, caps[|copied|], si, so);
    var part := parts[si][so..so + Min(caps[|copied|], have)];
    forall k | 0 <= k < |copied| + 1 ensures Piece(parts, copied + [part], caps[k], k) {
      if k < |copied| {
        assert copied[k] == copied[k];
        PieceKept(parts, copied, part, caps[k], k);
      }
    }
  }

  /** Each new segment is full, or ends where a source segment ends. */
  lemma FullOrEnds(parts: seq<seq<byte>>, copied: seq<seq<byte>>, caps: seq<nat>, k: nat)
    requires Pieces(parts, copied, caps) && k < |copied|
    ensures |copied[k]| <= caps[k]
    ensures |copied[k]| < caps[k] ==>
      exists j: nat :: j <= |parts| && |Concat(copied[..k + 1])| == |Concat(parts[..j])|
  {
    hide Concat;
    assert copied[k] == copied[k];
    var j: nat, so: nat :| PieceFrom(parts, copied, caps[k], k, j, so);
    assert copied[..k + 1] == copied[..k] + [copied[k]] && parts[..j + 1] == parts[..j] + [parts[j]];
    ConcatSnoc(copied[..k], copied[k]);
    ConcatSnoc(parts[..j], parts[j]);
  }

  /** The copy of a packet in one piece has full segments up to the last, which holds the rest. */
  lemma {:induction false} OnePieceLengths(part: seq<byte>, copied: seq<seq<byte>>, caps: seq<nat>, k: nat)
    requires Pieces([part], copied, caps) && k < |copied| && Sum(caps[..k]) < |part|
    ensures |Concat(copied[..k])| == Sum(caps[..k]) && |copied[k]| == Min(caps[k], |part| - Sum(caps[..k]))
    decreases k
  {
    hide Sum, Concat;
    ConcatNone([part], copied);
    SumNone(caps);
    if k > 0 {
      SumNext(caps, k - 1);
      OnePieceLengths(part, copied, caps, k - 1);
      assert copied[..k] == copied[..k - 1] + [copied[k - 1]];
      ConcatSnoc(copied[..k - 1], copied[k - 1]);
    }
    assert copied[k] == copied[k];
    var j: nat, so: nat :| PieceFrom([part], copied, caps[k], k, j, so);
  }

  lemma ConcatNone(parts: seq<seq<byte>>, copied: seq<seq<byte>>)
    ensures Concat(parts[..0]) == [] == Concat(copied[..0])
  {
  }

  lemma SumNext(ns: seq<nat>, k: nat)
    requires k < |ns|
    ensures Sum(ns[..k + 1]) == Sum(ns[..k]) + ns[k]
  {
    assert ns[..k + 1][..k] == ns[..k];
  }

  /** One turn of the copy loop, on the source segments `parts` and the pieces copied so far. */
  lemma CopyStep(parts: seq<seq<byte>>, copied: seq<seq<byte>>, caps: seq<nat>, si: nat, slen: nat)
    requires Pieces(parts, copied, caps) && |copied| < |caps|
    requires si < |parts| && slen <= |parts[si]| && Concat(copied) == Taken(parts, si, slen)
    ensures var i, have := |copied|, if slen == 0 then |parts[si]| else slen;
      var so, rest := |parts[si]| - have, have - Min(caps[i], have);
      var next, piece := if rest == 0 then si + 1 else si, parts[si][so..so + Min(caps[i], have)];
      && Pieces(parts, copied + [piece], caps) && |Concat(copied + [piece])| == |Concat(copied)| + |piece|
      && Concat(copied + [piece]) == Taken(parts, next, rest)
      && Fit(Left(Lengths(parts), next, rest), caps[i + 1..]) == Fit(Left(Lengths(parts), si, slen), caps[i..])
  {
    hide Pieces, Concat, Taken, Fit, Left, Lengths;
    var i, have := |copied|, if slen == 0 then |parts[si]| else slen;
    var so, n := |parts[si]| - have, Min(caps[i], have);
    TakeStep(parts, si, slen, caps[i]);
    PiecesAppend(parts, copied, caps, si, slen);
    ConcatSnoc(copied, parts[si][so..so + n]);
    assert Lengths(parts)[si] == |parts[si]|;
    LeftStep(Lengths(parts), si, slen, caps[i], caps[i + 1..]);
    assert caps[i..] == [caps[i]] + caps[i + 1..];
  }

  const ENOBUFS := 105
  const EINVAL := 22

  /** The destination segments: distinct, with room for their share, and apart from the source. */
  ghost predicate Destination(dst: seq<Mbuf>, caps: seq<nat>, src: seq<Mbuf>)
  {
    && |dst| == |caps|
    && (forall i, j :: 0 <= i < j < |dst| ==> dst[i] != dst[j] && dst[i].buf != dst[j].buf)
    && (forall i {:trigger dst[i]} :: 0 <= i < |dst| ==> caps[i] <= dst[i].buf.Length)
    && (forall i, j :: 0 <= i < |dst| && 0 <= j < |src| ==> dst[i] != src[j] && dst[i].buf != src[j].buf)
  }

  ghost function Bufs(ms: seq<Mbuf>): set<object> {
    set m | m in ms :: m.buf
  }

  /** Fills destination segment `i` from the current source segment (lines 499-523). */
  method FillSegment(m: Mbuf, so: nat, slen: nat, d: Mbuf, cap: nat, next: Mbuf?) returns (len: nat)
    requires m != d && m.buf != d.buf && cap <= d.buf.Length && so + slen == m.dataLen <= m.buf.Length
    modifies d`dataLen, d`next, d.buf
    ensures len == Min(cap, slen)
    ensures d.dataLen == len && d.next == next && d.Data() == m.Data()[so..so + len]
  {
    var dlen := Min(cap, slen);
    d.dataLen := dlen;
    d.next := next;
    len := Min(slen, dlen);
    CopyMem(d.buf, 0, m.buf, so, len);
    assert d.Data() == d.buf[0..0 + len];
  }

  /** The first `i` destination segments are filled with `copied` and linked. */
  ghost predicate Filled(md: seq<Mbuf>, i: nat, copied: seq<seq<byte>>, caps: seq<nat>)
    requires |caps| == |md|
    reads md`dataLen, md`next, Bufs(md)
  {
    i == |copied| <= |md| &&
    forall k {:trigger md[k]} :: 0 <= k < i ==> FilledAt(md, k, copied[k], caps[k])
  }

  ghost predicate FilledAt(md: seq<Mbuf>, k: nat, part: seq<byte>, cap: nat)
    requires k < |md|
    reads md`dataLen, md`next, Bufs(md)
  {
    var d := md[k];
    d.dataLen <= d.buf.Length && d.next == LinkOf(md, k + 1) && d.Data() == part && |part| <= cap
  }

  /** `FillSegment` on segment `i` of the chain. */
  method FillNext(m: Mbuf, so: nat, slen: nat, d: Mbuf, md: seq<Mbuf>, i: nat, caps: seq<nat>,
                  ghost src: seq<Mbuf>, ghost copied: seq<seq<byte>>)
    returns (len: nat)
    requires Chain(src) && m in src && Destination(md, caps, src) && i < |md| && Filled(md, i, copied, caps)
    requires d == md[i] && so + slen == m.dataLen
    modifies d`dataLen, d`next, d.buf
    ensures Chain(src) && DataOf(src) == old(DataOf(src))
    ensures len == Min(caps[i], slen) && Filled(md, i + 1, copied + [old(m.Data())[so..so + len]], caps)
  {
    ghost var part := m.Data()[so..so + Min(caps[i], slen)];
    len := FillSegment(m, so, slen, d, caps[i], if i + 1 == |md| then null else md[i + 1]);
    forall k | 0 <= k < i ensures FilledAt(md, k, copied[k], caps[k]) {
      assert old(FilledAt(md, k, copied[k], caps[k]));
      assert md[k].buf[..] == old(md[k].buf[..]);
    }
    assert FilledAt(md, i, part, caps[i]);
    FilledMore(md, i, copied, part, caps);
  }

  lemma FilledMore(md: seq<Mbuf>, i: nat, copied: seq<seq<byte>>, part: seq<byte>, caps: seq<nat>)
    requires i == |copied| < |md| == |caps| && FilledAt(md, i, part, caps[i])
    requires forall k :: 0 <= k < i ==> FilledAt(md, k, copied[k], caps[k])
    ensures Filled(md, i + 1, copied + [part], caps)
  {
    hide FilledAt;
    forall k | 0 <= k < i + 1 ensures FilledAt(md, k, (copied + [part])[k], caps[k]) {
      assert k < i ==> (copied + [part])[k] == copied[k];
    }
  }

  /** The loop of `mbuf_copy_split` (lines 497-523): `m` and `i` tell where it stopped. */
  method CopyLoop(ms: Mbuf, md: seq<Mbuf>, caps: seq<nat>, ghost src: seq<Mbuf>)
    returns (m: Mbuf?, tlen: nat, ghost copied: seq<seq<byte>>)
    requires 0 < |src| && Chain(src) && ms == src[0] && |caps| == |md| && Destination(md, caps, src)
    modifies md`dataLen, md`next, Bufs(md)
    ensures Chain(src) && DataOf(src) == old(DataOf(src))
    ensures |copied| <= |md| && Filled(md, |copied|, copied, caps) && tlen == |Concat(copied)|
    ensures m == null <==> Fit(Lengths(DataOf(src)), caps)
    ensures m == null ==> Concat(copied) == Concat(DataOf(src))
    ensures Pieces(DataOf(src), copied, caps)
  {
    hide Destination, Chain, Filled, Fit, Concat, Taken, Left, Lengths, Mbuf.Data, DataOf, Pieces;
    ghost var parts := DataOf(src);
    ghost var si := 0;
    var slen: nat, so: nat, i: nat := 0, 0, 0;
    tlen, m, copied := 0, ms, [];
    assert Filled(md, 0, [], caps) && Chain(src) by { NothingFilled(md, caps); }
    ChainLinks(src, 0);
    Untaken(parts);
    NoPieces(parts, caps);
    while m != null && i != |md|
      invariant 0 <= i <= |md| && 0 <= si <= |src| && m == LinkOf(src, si)
      invariant slen > 0 ==> si < |src| && so + slen == |parts[si]|
      invariant Chain(src) && Destination(md, caps, src) && DataOf(src) == parts
      invariant |copied| == i && Filled(md, i, copied, caps)
      invariant Concat(copied) == Taken(parts, si, slen) && tlen == |Concat(copied)| && Pieces(parts, copied, caps)
      invariant Fit(Left(Lengths(parts), si, slen), caps[i..]) == Fit(Lengths(parts), caps)
      decreases |md| - i
    {
      CopyStep(parts, copied, caps, si, slen);
      ChainLinks(src, si);
      if slen == 0 {
        slen, so := m.dataLen, 0;
      }
      var len := FillNext(m, so, slen, md[i], md, i, caps, src, copied);
      copied := copied + [parts[si][so..so + len]];
      tlen, slen, so, i := tlen + len, slen - len, so + len, i + 1;
      ChainLinks(src, si);
      if slen == 0 {
        m := m.next;
        si := si + 1;
      }
    }
    AllTaken(parts, si, slen, caps[i..]);
  }

  lemma NothingFilled(md: seq<Mbuf>, caps: seq<nat>)
    requires |caps| == |md|
    ensures Filled(md, 0, [], caps)
  {
  }

  lemma ChainLinks(ms: seq<Mbuf>, i: nat)
    requires Chain(ms) && i < |ms|
    ensures ms[i].next == LinkOf(ms, i + 1) && |DataOf(ms)[i]| == ms[i].dataLen && DataOf(ms)[i] == ms[i].Data()
  {
  }

  lemma Untaken(parts: seq<seq<byte>>)
    ensures Taken(parts, 0, 0) == Concat([]) == [] && Left(Lengths(parts), 0, 0) == Lengths(parts)
  {
    assert parts[..0] == [];
  }

  /** The loop stopped because nothing is left, or because no segment is left. */
  lemma AllTaken(parts: seq<seq<byte>>, si: nat, slen: nat, caps: seq<nat>)
    requires si <= |parts| && (slen > 0 ==> si < |parts| && slen <= |parts[si]|)
    requires si == |parts| || caps == []
    ensures Fit(Left(Lengths(parts), si, slen), caps) <==> si == |parts|
    ensures si == |parts| ==> Taken(parts, si, slen) == Concat(parts)
  {
    assert parts[..|parts|] == parts;
  }

  /** `mbuf_copy_split`. It succeeds exactly when the source fits and its stated length is right;
      then the destination is a chain of all given segments with the same bytes. The caller
      has chosen no more segments than the length needs. */
  method CopySplit(ms: Mbuf, md: seq<Mbuf>, caps: seq<nat>, ghost src: seq<Mbuf>) returns (rc: int)
    requires 0 < |src| && Chain(src) && ms == src[0] && 0 < |md| == |caps| && Destination(md, caps, src)
    requires Sum(caps[..|caps| - 1]) < ms.pktLen
    modifies md, Bufs(md)
    ensures Chain(src) && DataOf(src) == old(DataOf(src))
    ensures rc == |md| <==> Fit(Lengths(DataOf(src)), caps) && |Concat(DataOf(src))| == ms.pktLen
    ensures rc != |md| ==> rc < 0
    ensures rc == |md| ==> Chain(md) && Concat(DataOf(md)) == Concat(DataOf(src))
    ensures rc == |md| ==> Pieces(DataOf(src), DataOf(md), caps)
    ensures rc == |md| ==> md[0].nbSegs == |md| && md[0].pktLen == ms.pktLen && md[0].offload == ms.offload
  {
    hide Fit, Concat, Sum, Destination, Filled, Chain, DataOf, Lengths, Pieces;
    var m, tlen, copied := CopyLoop(ms, md, caps, src);
    if m != null {
      return -ENOBUFS;
    } else if tlen != ms.pktLen {
      return -EINVAL;
    }
    FilledParts(md, copied, caps);
    AllUsed(copied, caps, tlen);
    md[0].nbSegs := |md|;
    md[0].pktLen := tlen;
    md[0].offload := ms.offload;
    rc := |md|;
    FilledChain(md, copied, caps);
  }

  lemma FilledParts(md: seq<Mbuf>, copied: seq<seq<byte>>, caps: seq<nat>)
    requires |caps| == |md| && Filled(md, |copied|, copied, caps)
    ensures forall k {:trigger copied[k]} :: 0 <= k < |copied| <= |caps| ==> |copied[k]| <= caps[k]
  {
    assert forall k :: 0 <= k < |copied| ==> FilledAt(md, k, copied[k], caps[k]);
  }

  lemma FilledChain(md: seq<Mbuf>, copied: seq<seq<byte>>, caps: seq<nat>)
    requires 0 < |md| == |copied| == |caps| && Filled(md, |md|, copied, caps)
    ensures Chain(md) && DataOf(md) == copied
  {
    assert forall k :: 0 <= k < |md| ==> FilledAt(md, k, copied[k], caps[k]);
  }

  /** Without the last segment the capacities fall short, so the last segment was used. */
  lemma AllUsed(copied: seq<seq<byte>>, caps: seq<nat>, tlen: nat)
    requires |copied| <= |caps| && forall k {:trigger copied[k]} :: 0 <= k < |copied| ==> |copied[k]| <= caps[k]
    requires caps != [] && tlen == |Concat(copied)| > Sum(caps[..|caps| - 1])
    ensures |copied| == |caps|
  {
    ConcatLength(copied);
    if |copied| < |caps| {
      SumBelow(Lengths(copied), caps, |caps| - 1);
    }
  }

  // ----- The caller

  /** How many of the configured segments a packet of length `n` needs: those before the last
      one used do not add up to `n`. */
  function Needed(lens: seq<Seg>, n: nat): (k: nat)
    ensures k <= |lens|
  {
    if lens == [] then 0
    else
      var last := |lens| - 1;
      var before := Needed(lens[..last], n);
      if before == last && Sum(lens[..last]) < n then |lens| else before
  }

  /** `n` as a 32-bit signed number, from unsigned 32-bit arithmetic. */
  function ToInt32(n: int): int {
    var u := n % 0x1_0000_0000;
    if u < 0x8000_0000 then u else u - 0x1_0000_0000
  }

  /** The last segment lengthened (modulo 0x10000) by what the packet has more than all. */
  function Lengthened(lens: seq<Seg>, n: nat): (caps: seq<Seg>)
    requires lens != []
    ensures |caps| == |lens|
  {
    var last, more := |lens| - 1, ToInt32(n - Sum(lens));
    if more >= 0 then lens[last := (lens[last] as int + more) % 0x1_0000] else lens
  }

  lemma NeededPositive(lens: seq<Seg>, n: nat)
    requires lens != [] && n > 0
    ensures 0 < Needed(lens, n) <= |lens|
  {
    if |lens| > 1 {
      NeededPositive(lens[..|lens| - 1], n);
    }
  }

  /** The lengths of the segments used for a packet of length `n`. */
  function Plan(lens: seq<Seg>, n: nat): (caps: seq<Seg>)
    requires lens != [] && n > 0
    ensures 0 < |caps| <= |lens|
  {
    NeededPositive(lens, n);
    Lengthened(lens[..Needed(lens, n)], n)
  }

  lemma {:induction false} NeededIs(lens: seq<Seg>, n: nat, k: nat)
    requires k <= |lens| && (k == |lens| || Sum(lens[..k]) >= n)
    requires forall j {:trigger lens[..j]} :: 0 <= j < k ==> Sum(lens[..j]) < n
    ensures Needed(lens, n) == k
  {
    if lens != [] {
      var last := |lens| - 1;
      var front := lens[..last];
      forall j | 0 <= j <= last ensures front[..j] == lens[..j] {
      }
      if k == |lens| {
        assert lens[..last] == front && Sum(front) < n;
        NeededIs(front, n, last);
      } else {
        NeededIs(front, n, k);
        assert k == last ==> front == lens[..k];
      }
    }
  }

  lemma PlanFallsShort(lens: seq<Seg>, n: nat)
    requires lens != [] && n > 0
    ensures var caps := Plan(lens, n); Sum(caps[..|caps| - 1]) < n
  {
    NeededPositive(lens, n);
    NeededShort(lens, n);
    var k := Needed(lens, n);
    assert Plan(lens, n)[..k - 1] == lens[..k - 1];
  }

  lemma {:induction false} NeededShort(lens: seq<Seg>, n: nat)
    requires lens != [] && n > 0
    ensures var k := Needed(lens, n); 0 < k <= |lens| && Sum(lens[..k - 1]) < n
  {
    NeededPositive(lens, n);
    var last, k := |lens| - 1, Needed(lens, n);
    if k < |lens| {
      NeededShort(lens[..last], n);
      assert lens[..last][..k - 1] == lens[..k - 1];
    }
  }

  lemma {:induction false} NeededReaches(lens: seq<Seg>, n: nat)
    ensures var k := Needed(lens, n); k <= |lens| && (k == |lens| || n <= Sum(lens[..k]))
  {
    if lens != [] {
      var last := |lens| - 1;
      var front, before := lens[..last], Needed(lens[..last], n);
      NeededReaches(front, n);
      assert front[..before] == lens[..before];
      assert lens[..last] == front;
    }
  }

  lemma {:induction false} SumsGrow(lens: seq<Seg>, k: nat)
    requires k <= |lens|
    ensures Sum(lens[..k]) <= Sum(lens) <= Sum(lens[..k]) + 0xFFFF * (|lens| - k)
    decreases |lens|
  {
    if k == |lens| {
      assert lens[..k] == lens;
    } else {
      var front := lens[..|lens| - 1];
      SumsGrow(front, k);
      assert front[..k] == lens[..k];
    }
  }

  lemma SumLast(lens: seq<Seg>, x: Seg)
    requires lens != []
    ensures Sum(lens[|lens| - 1 := x]) == Sum(lens) - lens[|lens| - 1] + x
  {
    assert lens[|lens| - 1 := x][..|lens| - 1] == lens[..|lens| - 1];
  }

  /** The last segment takes up what is missing if and only if its new length fits 16 bits. */
  lemma LengthenedReaches(lens: seq<Seg>, n: nat)
    requires 0 < |lens| <= RTE_MAX_SEGS_PER_PKT && n < 0x1_0000_0000
    ensures n <= Sum(Lengthened(lens, n)) <==> n <= Sum(lens) || lens[|lens| - 1] + n - Sum(lens) < 0x1_0000
  {
    hide ToInt32, Sum;
    var last, sum := |lens| - 1, Sum(lens);
    assert sum <= 0xFFFF * RTE_MAX_SEGS_PER_PKT by { SumsGrow(lens, 0); SumNone(lens); }
    SmallToInt32(n - sum);
    var more := ToInt32(n - sum);
    if more >= 0 {
      var longer := lens[last] as int + more;
      LastBits(longer);
      SumLast(lens, longer % 0x1_0000);
    }
  }

  lemma SumNone(lens: seq<nat>)
    ensures Sum(lens[..0]) == 0
  {
  }

  lemma SmallToInt32(n: int)
    requires -0x8000_0000 <= n < 0x1_0000_0000
    ensures ToInt32(n) == if n < 0x8000_0000 then n else n - 0x1_0000_0000
  {
  }

  lemma LastBits(n: nat)
    ensures n % 0x1_0000 == n <==> n < 0x1_0000
    ensures n >= 0x1_0000 ==> n % 0x1_0000 < n
  {
  }

  /** The plan covers a packet of length `n` if and only if the configured lengths reach `n`, or
      the last one can be lengthened to that without overflowing 16 bits. */
  lemma PlanCoversIff(lens: seq<Seg>, n: nat)
    requires 0 < |lens| <= RTE_MAX_SEGS_PER_PKT && 0 < n < 0x1_0000_0000
    ensures n <= Sum(Plan(lens, n)) <==> n <= Sum(lens) || lens[|lens| - 1] + n - Sum(lens) < 0x1_0000
  {
    hide Sum, Lengthened;
    var k := Needed(lens, n);
    NeededPositive(lens, n);
    NeededReaches(lens, n);
    SumsGrow(lens, k);
    LengthenedReaches(lens[..k], n);
    if k == |lens| {
      assert lens[..k] == lens;
    }
  }

  /** The plan segment by segment: the configured lengths up to the first that reaches `n`. When they
      all fall short the last one is lengthened by the rest, in 16 bits, and if that does not wrap around
      the plan adds up to `n` exactly. A rest of 2^31 or more reads as negative and changes nothing. */
  lemma PlanIs(lens: seq<Seg>, n: nat)
    requires 0 < |lens| <= RTE_MAX_SEGS_PER_PKT && 0 < n < 0x1_0000_0000
    ensures n <= Sum(lens) ==> Plan(lens, n) == lens[..|Plan(lens, n)|] && n <= Sum(Plan(lens, n))
    ensures Sum(lens) < n ==>
      var last, rest := |lens| - 1, n - Sum(lens);
      Plan(lens, n) == if rest < 0x8000_0000 then lens[last := (lens[last] + rest) % 0x1_0000] else lens
    ensures Sum(lens) < n && lens[|lens| - 1] + n - Sum(lens) < 0x1_0000 ==> Sum(Plan(lens, n)) == n
  {
    hide Sum, Needed, ToInt32;
    var k, last := Needed(lens, n), |lens| - 1;
    NeededPositive(lens, n);
    NeededReaches(lens, n);
    SumsGrow(lens, k);
    if n <= Sum(lens) {
      PlanCoversIff(lens, n);
      assert k == |lens| ==> lens[..k] == lens;
      NoMore(lens[..k], n);
    } else {
      assert lens[..k] == lens;
      SmallToInt32(n - Sum(lens));
      LastBits(lens[last] + n - Sum(lens));
      SumLast(lens, (lens[last] + n - Sum(lens)) % 0x1_0000);
    }
  }

  /** Segments that reach `n` are not lengthened. */
  lemma NoMore(lens: seq<Seg>, n: nat)
    requires 0 < |lens| <= RTE_MAX_SEGS_PER_PKT && n <= Sum(lens)
    ensures Lengthened(lens, n) == lens
  {
    hide Sum, ToInt32;
    var last := |lens| - 1;
    assert Sum(lens) <= 0xFFFF * RTE_MAX_SEGS_PER_PKT by { SumsGrow(lens, 0); SumNone(lens); }
    NegativeToInt32(n - Sum(lens));
    LastBits(lens[last]);
    assert lens[last := lens[last]] == lens;
  }

  lemma NegativeToInt32(n: int)
    requires -0x8000_0000 <= n <= 0
    ensures ToInt32(n) == n
  {
  }

  /** A packet in one piece is shorter than 0x10000 and always fits its plan. */
  lemma OnePieceFitsPlan(lens: seq<Seg>, n: Seg)
    requires 0 < |lens| <= RTE_MAX_SEGS_PER_PKT && 0 < n
    ensures Fit([n], Plan(lens, n))
  {
    hide Fit, Plan;
    LastInSum(lens);
    PlanCoversIff(lens, n);
    OnePieceFits(n, Plan(lens, n));
  }

  lemma LastInSum(lens: seq<Seg>)
    requires lens != []
    ensures lens[|lens| - 1] <= Sum(lens)
  {
  }

  /** When lengthening the last segment wraps around, the packet is refused, whatever its pieces. */
  lemma WrappedPlanRefuses(pieces: seq<nat>, lens: seq<Seg>, n: nat)
    requires 0 < |lens| <= RTE_MAX_SEGS_PER_PKT && 0 < n < 0x1_0000_0000 && Sum(pieces) == n
    requires Sum(lens) < n && lens[|lens| - 1] + n - Sum(lens) >= 0x1_0000
    ensures !Fit(pieces, Plan(lens, n))
  {
    hide Fit, Sum, Plan;
    PlanCoversIff(lens, n);
    if Fit(pieces, Plan(lens, n)) {
      FitNeedsRoom(pieces, Plan(lens, n));
    }
  }

  /** A plan that covers the packet may still refuse it when the source has several segments:
      one segment of 100 bytes cannot take a segment of 60 and one of 40. */
  lemma CoveringPlanMayRefuse()
    ensures Plan([100], 100) == [100] && Sum([60, 40]) == 100 <= Sum(Plan([100], 100))
    ensures !Fit([60, 40], Plan([100], 100))
  {
    assert [100][..1] == [100] && [100][..0] == [];
    assert [60, 40][..1] == [60] && [60][..0] == [];
    assert Needed([100][..0], 100) == 0;
    assert Needed([100], 100) == 1;
    assert [60, 40][1..] == [40] && [100][1..] == [];
  }

  /** Lines 560-577: the number of segments and their lengths. */
  method ChooseSegments(lens: seq<Seg>, pktLen: nat) returns (caps: seq<Seg>)
    requires 0 < |lens| <= RTE_MAX_SEGS_PER_PKT && pktLen > 0
    ensures caps == Plan(lens, pktLen)
  {
    var seglen := new Seg[|lens|](k requires 0 <= k < |lens| => lens[k]);
    var len: nat, i := 0, 0;
    while i != |lens| && len < pktLen
      invariant 0 <= i <= |lens| && len == Sum(lens[..i]) <= 0xFFFF * i
      invariant forall j {:trigger lens[..j]} :: 0 <= j < i ==> Sum(lens[..j]) < pktLen
    {
      assert lens[..i + 1][..i] == lens[..i];
      len := len + seglen[i];
      assert len < 0x1_0000_0000;
      i := i + 1;
    }
    NeededIs(lens, pktLen, i);
    NeededPositive(lens, pktLen);
    var n := ToInt32(pktLen - len);
    if n >= 0 {
      seglen[i - 1] := (seglen[i - 1] as int + n) % 0x1_0000;
    }
    caps := seglen[..i];
    assert caps == Lengthened(lens[..i], pktLen);
  }

  ghost predicate Separate(ms: seq<Mbuf>) {
    forall i, j :: 0 <= i < j < |ms| ==> ms[i] != ms[j] && ms[i].buf != ms[j].buf
  }

  /** Lines 578-597: segments are allocated from the last to the first, until the pool is empty
      or one is too small. `md` are the ones allocated. The source goes on when none is left to
      allocate: it does not notice that the first segment, allocated last, is too small. */
  method AllocSegments(pool: Pool, caps: seq<Seg>) returns (md: seq<Mbuf>, complete: bool)
    modifies pool
    ensures |md| <= |caps| && Separate(md)
    ensures forall m :: m in md ==> fresh(m) && fresh(m.buf) && m.buf.Length == pool.room && m.dataLen == 0
    ensures pool.live == old(pool.live) + (set m | m in md) && (set m | m in md) !! old(pool.live)
    ensures pool.available == old(pool.available) - |md|
    ensures complete <==>
      old(pool.available) >= |caps| && forall k {:trigger caps[k]} :: 0 < k < |caps| ==> caps[k] <= pool.room
    ensures complete ==> |md| == |caps|
  {
    md := [];
    var i := |caps|;
    while i != 0
      invariant 0 <= i <= |caps| && |md| == |caps| - i && Separate(md)
      invariant forall m :: m in md ==> fresh(m) && fresh(m.buf) && m.buf.Length == pool.room && m.dataLen == 0
      invariant pool.live == old(pool.live) + (set m | m in md) && (set m | m in md) !! old(pool.live)
      invariant pool.available == old(pool.available) - |md|
      invariant forall k {:trigger caps[k]} :: 0 < k < |caps| && i <= k ==> caps[k] <= pool.room
      decreases i
    {
      var p := pool.Alloc();
      if p == null {
        return md, false;
      }
      i := i - 1;
      md := [p] + md;
      if p.buf.Length - p.dataLen < caps[i] {
        return md, i == 0;
      }
    }
    complete := true;
  }

  /** Lines 613-616, for the segments from `i` on. */
  method FreeSegments(pool: Pool, md: seq<Mbuf>)
    requires Separate(md) && forall m :: m in md ==> m in pool.live
    modifies pool
    ensures pool.live == old(pool.live) - (set m | m in md)
    ensures pool.available == old(pool.available) + |md|
  {
    var i := 0;
    while i != |md|
      invariant 0 <= i <= |md|
      invariant pool.live == old(pool.live) - (set m | m in md[..i])
      invariant pool.available == old(pool.available) + i
    {
      assert md[..i + 1] == md[..i] + [md[i]];
      pool.Free(md[i]);
      i := i + 1;
    }
    assert md[..i] == md;
  }

  /** A packet in one piece fits its plan, so only the pool can be at fault when it is not copied. */
  lemma OnePieceSource(src: seq<Mbuf>, lens: seq<Seg>)
    requires |src| == 1 && Chain(src) && 0 < |lens| <= RTE_MAX_SEGS_PER_PKT && 0 < src[0].dataLen
    ensures Fit(Lengths(DataOf(src)), Plan(lens, src[0].dataLen)) && |Concat(DataOf(src))| == src[0].dataLen
  {
    hide Fit, Plan;
    assert DataOf(src)[..0] == [];
    assert Lengths(DataOf(src)) == [src[0].dataLen];
    OnePieceFitsPlan(lens, src[0].dataLen);
  }

  /** `pkt_copy_split`. The configured lengths are those of the segments it may use. It delivers
      a copy exactly when the pool can supply every segment, each large enough, and the data
      fit; nothing leaks and nothing is freed twice. */
  method PktCopySplit(pkt: Mbuf, ghost src: seq<Mbuf>, lens: seq<Seg>, pool: Pool)
    returns (r: Mbuf?, ghost chain: seq<Mbuf>)
    requires 0 < |src| && Chain(src) && pkt == src[0] && 0 < pkt.pktLen && 0 < |lens| <= RTE_MAX_SEGS_PER_PKT
    requires Plan(lens, pkt.pktLen)[0] <= pool.room
    modifies pool
    ensures var caps := Plan(lens, pkt.pktLen);
      r != null <==>
        old(pool.available) >= |caps| && (forall k :: 0 <= k < |caps| ==> caps[k] <= pool.room)
        && Fit(Lengths(DataOf(src)), caps) && |Concat(DataOf(src))| == pkt.pktLen
    ensures r == null ==> pool.live == old(pool.live) && pool.available == old(pool.available)
    ensures r != null ==> Chain(chain) && r == chain[0] && Separate(chain)
    ensures r != null ==> Concat(DataOf(chain)) == Concat(DataOf(src))
    ensures r != null ==> |chain| == |Plan(lens, pkt.pktLen)|
    ensures r != null ==> Pieces(DataOf(src), DataOf(chain), Plan(lens, pkt.pktLen))
    ensures r != null ==> r.pktLen == pkt.pktLen && r.nbSegs == |chain| && r.offload == pkt.offload
    ensures r != null ==> forall m :: m in chain ==> fresh(m)
    ensures r != null ==> pool.live == old(pool.live) + (set m | m in chain)
  {
    hide Plan, Fit, Concat, Chain, Sum, Lengths, DataOf, Pieces;
    var caps := ChooseSegments(lens, pkt.pktLen);
    PlanFallsShort(lens, pkt.pktLen);
    var md, complete := AllocSegments(pool, caps);
    chain := md;
    if complete {
      assert forall k :: 0 <= k < |md| ==> md[k] in md && caps[k] <= pool.room;
      assert Destination(md, caps, src);
      assert forall o :: o in Bufs(md) ==> fresh(o);
      var rc := CopySplit(pkt, md, caps, src);
      if rc >= 0 {
        return md[0], md;
      }
    }
    r := null;
    assert pool !in Bufs(src);
    FreeSegments(pool, md);
  }
}
