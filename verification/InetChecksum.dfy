/** The internet checksum (section 1 of RFC 1071) as `dpdk/app/test-pmd/flowgen.c` and
    `icmpecho.c` compute it, and its incremental update (section 3 of RFC 1624). */
module InetChecksum {
  /** `uint16_t`; headers are sequences of such words in the host's byte order. */
  type Word = w: nat | w < 0x1_0000

  function WordSum(ws: seq<Word>): nat {
    if ws == [] then 0 else WordSum(ws[..|ws| - 1]) + ws[|ws| - 1]
  }

  /** The one's complement sum that a plain sum `n` stands for: 0 only for 0, otherwise the
      number from 1 to 0xFFFF that is congruent to `n` modulo 0xFFFF. */
  function OnesSum(n: nat): Word {
    if n == 0 then 0 else (n - 1) % 0xFFFF + 1
  }

  /** A set of words with its checksum is intact when it sums to 0xFFFF. */
  predicate Intact(n: nat) {
    OnesSum(n) == 0xFFFF
  }

  lemma IntactMeansMultiple(n: nat)
    ensures Intact(n) <==> n > 0 && n % 0xFFFF == 0
  {
    if n > 0 {
      assert (n - 1) / 0xFFFF * 0xFFFF + (n - 1) % 0xFFFF == n - 1;
    }
  }

  /** `(sum & 0xFFFF) + (sum >> 16)` */
  function Fold(sum: nat): nat {
    sum % 0x1_0000 + sum / 0x1_0000
  }

  lemma FoldKeepsOnesSum(sum: nat)
    ensures OnesSum(Fold(sum)) == OnesSum(sum)
    ensures Fold(sum) <= sum && (sum >= 0x1_0000 ==> Fold(sum) < sum)
  {
    var h := sum / 0x1_0000;
    assert sum == Fold(sum) + 0xFFFF * h;
    if sum > 0 {
      AddMultiple(Fold(sum) - 1, h);
    }
  }

  lemma AddMultiple(a: nat, h: nat)
    ensures (a + 0xFFFF * h) % 0xFFFF == a % 0xFFFF
  {
  }

  lemma OnesSumAdd(a: nat, b: nat, w: nat)
    requires OnesSum(a) == OnesSum(b)
    ensures OnesSum(a + w) == OnesSum(b + w)
  {
    if a == 0 || b == 0 {
    } else {
      assert (a - 1) % 0xFFFF == (b - 1) % 0xFFFF;
      assert (a - 1 + w) % 0xFFFF == (b - 1 + w) % 0xFFFF;
    }
  }

  lemma OnesSumSmall(n: Word)
    ensures OnesSum(n) == n
  {
  }

  lemma OnesSumZero(n: nat)
    ensures OnesSum(n) == 0 <==> n == 0
  {
  }

  /** A sum and the complement of its one's complement sum are intact together. */
  lemma ComplementIntact(n: nat)
    ensures Intact(n + (0xFFFF - OnesSum(n)))
  {
    var o := OnesSum(n);
    OnesSumSmall(o);
    OnesSumAdd(n, o, 0xFFFF - o);
  }

  /** `ip_sum`: the complemented one's complement sum of the whole words in `hdrLen` bytes. The
      32-bit sum never overflows, and the result makes any even length intact. */
  method IpSum(hdr: seq<Word>, hdrLen: int) returns (r: Word)
    requires hdrLen / 2 <= |hdr|
    ensures var n := WordSum(hdr[..if hdrLen > 0 then hdrLen / 2 else 0]);
      r == 0xFFFF - OnesSum(n) && Intact(n + r) && (r == 0xFFFF <==> n == 0)
  {
    var sum: nat, left, next := 0, hdrLen, 0;
    ghost var n := if hdrLen > 0 then hdrLen / 2 else 0;
    while left > 1
      invariant 0 <= next <= n && left == hdrLen - 2 * next
      invariant sum < 0x8000_0000 && OnesSum(sum) == OnesSum(WordSum(hdr[..next]))
      decreases left
    {
      assert hdr[..next + 1][..next] == hdr[..next];
      OnesSumAdd(sum, WordSum(hdr[..next]), hdr[next]);
      sum := sum + hdr[next];
      assert sum < 0x1_0000_0000;
      next := next + 1;
      if sum >= 0x8000_0000 {
        FoldKeepsOnesSum(sum);
        sum := Fold(sum);
      }
      left := left - 2;
    }
    while sum >= 0x1_0000
      invariant OnesSum(sum) == OnesSum(WordSum(hdr[..n]))
      decreases sum
    {
      FoldKeepsOnesSum(sum);
      sum := Fold(sum);
    }
    OnesSumSmall(sum);
    OnesSumZero(WordSum(hdr[..n]));
    ComplementIntact(WordSum(hdr[..n]));
    r := 0xFFFF - sum;
  }

  // ----- The echo reply

  const IP_HDR_WORDS := 10
  const CKSUM := 5
  const SRC := 6
  const DST := 8

  /** The header words other than the checksum. */
  function SumWithoutChecksum(ip: seq<Word>): nat
    requires |ip| == IP_HDR_WORDS
  {
    ip[0] as nat + ip[1] as nat + ip[2] as nat + ip[3] as nat + ip[4] as nat
      + ip[6] as nat + ip[7] as nat + ip[8] as nat + ip[9] as nat
  }

  lemma HeaderSum(ip: seq<Word>)
    requires |ip| == IP_HDR_WORDS
    ensures WordSum(ip) == SumWithoutChecksum(ip) + ip[CKSUM]
  {
    assert ip[..10] == ip && ip[..10][..9] == ip[..9] && ip[..9][..8] == ip[..8] && ip[..8][..7] == ip[..7];
    assert ip[..7][..6] == ip[..6] && ip[..6][..5] == ip[..5] && ip[..5][..4] == ip[..4];
    assert ip[..4][..3] == ip[..3] && ip[..3][..2] == ip[..2] && ip[..2][..1] == ip[..1] && ip[..1][..0] == [];
    assert WordSum(ip[..1]) == ip[0];
    assert WordSum(ip[..2]) == ip[0] as nat + ip[1] as nat;
    assert WordSum(ip[..4]) == WordSum(ip[..2]) + ip[2] + ip[3];
    assert WordSum(ip[..6]) == WordSum(ip[..4]) + ip[4] + ip[5];
    assert WordSum(ip[..8]) == WordSum(ip[..6]) + ip[6] + ip[7];
    assert WordSum(ip[..10]) == WordSum(ip[..8]) + ip[8] + ip[9];
  }

  lemma TwoFolds(sum: nat)
    requires sum <= 9 * 0xFFFF
    ensures Fold(Fold(sum)) < 0x1_0000
  {
  }

  /** `ipv4_hdr_cksum`: two folds are enough, and the header is intact with the result in place. */
  method Ipv4HdrCksum(ip: seq<Word>) returns (r: Word)
    requires |ip| == IP_HDR_WORDS
    ensures Intact(WordSum(ip[CKSUM := r])) && r != 0
  {
    hide WordSum, OnesSum, Intact;
    var sum := SumWithoutChecksum(ip);
    ghost var n := sum;
    FoldKeepsOnesSum(sum);
    TwoFolds(sum);
    sum := Fold(sum);
    FoldKeepsOnesSum(sum);
    sum := Fold(sum);
    OnesSumSmall(sum);
    var cksum: nat := 0xFFFF - sum;
    r := if cksum == 0 then 0xFFFF else cksum;
    ComplementIntact(n);
    IntactMeansMultiple(n + cksum);
    IntactMeansMultiple(n + r);
    HeaderSum(ip[CKSUM := r]);
  }

  const ECHO_REQUEST: Word := 8 // type 8, code 0, as a little-endian word
  const ECHO_REPLY: Word := 0

  /** An address whose high word is `w` is a multicast address (224.0.0.0/4). */
  predicate IsMulticast(w: Word) {
    0xE0 <= w % 0x100 <= 0xEF
  }

  /** Last byte of the reply's source address when the request was multicast: the request's,
      with its two lowest bits replaced so that it differs. */
  function OtherHost(last: nat): nat
    requires last < 0x100
  {
    last / 4 * 4 + if last % 4 == 1 then 2 else 1
  }

  lemma {:induction false} SumUpdate(ws: seq<Word>, i: nat, w: Word)
    requires i < |ws|
    ensures WordSum(ws[i := w]) == WordSum(ws) - ws[i] + w
    decreases |ws|
  {
    var last := |ws| - 1;
    if i == last {
      assert ws[i := w][..last] == ws[..last];
    } else {
      assert ws[i := w][..last] == ws[..last][i := w];
      SumUpdate(ws[..last], i, w);
    }
  }

  /** The word sum of the reply's ICMP part is congruent to that of the request's. */
  lemma ReplyIntact(icmp: seq<Word>, cksum: Word)
    requires |icmp| >= 2 && icmp[0] == ECHO_REQUEST
    requires (cksum as nat - icmp[1] - ECHO_REQUEST) % 0xFFFF == 0
    ensures var reply := icmp[0 := ECHO_REPLY][1 := cksum];
      WordSum(reply) % 0xFFFF == WordSum(icmp) % 0xFFFF
  {
    SumUpdate(icmp, 0, ECHO_REPLY);
    SumUpdate(icmp[0 := ECHO_REPLY], 1, cksum);
    var d := cksum as nat - icmp[1] - ECHO_REQUEST;
    assert WordSum(icmp[0 := ECHO_REPLY][1 := cksum]) == WordSum(icmp) + d;
    assert d == d / 0xFFFF * 0xFFFF;
  }

  predicate AllZero(ws: seq<Word>) {
    forall k :: 0 <= k < |ws| ==> ws[k] == 0
  }

  lemma {:induction false} SumZero(ws: seq<Word>)
    ensures WordSum(ws) == 0 <==> AllZero(ws)
  {
    if ws != [] {
      var last := |ws| - 1;
      SumZero(ws[..last]);
      assert ws == ws[..last] + [ws[last]];
    }
  }

  /** A request without data, identifier or sequence number has only type and checksum. */
  lemma BareRequest(icmp: seq<Word>)
    requires |icmp| >= 2 && icmp[0] == ECHO_REQUEST && AllZero(icmp[2..])
    ensures WordSum(icmp) == ECHO_REQUEST as nat + icmp[1]
  {
    var typed: seq<Word> := icmp[0 := 0];
    var none: seq<Word> := typed[1 := 0];
    SumUpdate(icmp, 0, 0);
    SumUpdate(typed, 1, 0);
    assert forall k :: 2 <= k < |icmp| ==> none[k] == icmp[2..][k - 2];
    SumZero(none);
  }

  /** The updated checksum as a number, from the request's. */
  lemma UpdatedChecksum(cksum: Word)
    ensures var folded := Fold(Fold(0xFFFF - cksum as nat + (0xFFFF - ECHO_REQUEST) + ECHO_REPLY));
      folded == (if cksum < 0xFFF7 then 0xFFFF - (cksum as nat + ECHO_REQUEST) else 0xFFFF - (cksum as nat - 0xFFF7))
  {
  }

  /** An intact request gives an intact reply if and only if it carries something: of a bare
      request the reply is all zeros, checksum included. */
  lemma ReplyIntactIff(icmp: seq<Word>, reply: seq<Word>)
    requires |icmp| == |reply| >= 2 && icmp[0] == ECHO_REQUEST && reply[0] == ECHO_REPLY
    requires icmp[2..] == reply[2..] && Intact(WordSum(icmp))
    requires WordSum(reply) % 0xFFFF == 0
    requires reply[1] as nat == if icmp[1] < 0xFFF7 then icmp[1] as nat + ECHO_REQUEST else icmp[1] as nat - 0xFFF7
    ensures Intact(WordSum(reply)) <==> !AllZero(icmp[2..])
  {
    hide WordSum, Intact;
    IntactMeansMultiple(WordSum(reply));
    IntactMeansMultiple(WordSum(icmp));
    SumZero(reply);
    if AllZero(icmp[2..]) {
      BareRequest(icmp);
      assert forall k :: 2 <= k < |reply| ==> reply[k] == icmp[2..][k - 2];
    } else {
      var k :| 0 <= k < |icmp[2..]| && icmp[2..][k] != 0;
      assert reply[k + 2] == reply[2..][k];
    }
  }

  /** Lines 507-513: the type is set to reply and the ICMP checksum updated to match; one of the
      two folds is needed at most. */
  method UpdateIcmp(icmp: array<Word>)
    requires icmp.Length >= 2 && icmp[0] == 8
    modifies icmp
    ensures icmp[0] == 0 && icmp[2..] == old(icmp[2..])
    ensures icmp[1] == if old(icmp[1]) < 0xFFF7 then old(icmp[1]) + 8 else old(icmp[1]) - 0xFFF7
    ensures WordSum(icmp[..]) % 0xFFFF == WordSum(old(icmp[..])) % 0xFFFF
    ensures Intact(WordSum(old(icmp[..]))) ==> (Intact(WordSum(icmp[..])) <==> !AllZero(old(icmp[2..])))
  {
    ghost var was: seq<Word> := icmp[..];
    icmp[0] := ECHO_REPLY;
    var cksum: nat := 0xFFFF - icmp[1];
    cksum := cksum + (0xFFFF - ECHO_REQUEST);
    cksum := cksum + ECHO_REPLY;
    cksum := Fold(cksum);
    cksum := Fold(cksum);
    var updated: Word := 0xFFFF - cksum;
    icmp[1] := updated;
    ReplyIntact(was, updated);
    ghost var typed: seq<Word> := was[0 := ECHO_REPLY];
    assert icmp[..] == typed[1 := updated];
    assert was[2..] == old(icmp[2..]) == icmp[..][2..];
    UpdatedChecksum(was[1]);
    IntactMeansMultiple(WordSum(was));
    if Intact(WordSum(was)) {
      ReplyIntactIff(was, icmp[..]);
    }
  }

  lemma OtherHostNear(low: Word, other: nat)
    requires other == OtherHost(low / 0x100)
    ensures var w := other * 0x100 + low % 0x100;
      && w < 0x1_0000 && w % 0x100 == low % 0x100 && w / 0x100 / 4 == low / 0x100 / 4
      && w / 0x100 % 4 == if low / 0x100 % 4 == 1 then 2 else 1
  {
    var w := other * 0x100 + low % 0x100;
    assert other < 0x100 && w / 0x100 == other && w % 0x100 == low % 0x100;
  }

  /** Lines 491-506: the addresses of the reply, bytes in network order: words 6 and 7 are the source,
      8 and 9 the destination. A request whose destination starts with the byte 0xE0 is answered from
      the host next to the one that asked: the two lowest bits of its last byte are 2 if they were 1,
      and 1 otherwise. Any other request is answered from its destination. So a request from a unicast
      address is answered from a multicast address exactly when the source's test overlooks one. */
  method SetAddresses(ip: array<Word>)
    requires ip.Length == IP_HDR_WORDS
    modifies ip
    ensures ip[8] == old(ip[6]) && ip[9] == old(ip[7])
    ensures forall i :: 0 <= i < 5 ==> ip[i] == old(ip[i])
    ensures !IsMulticast(old(ip[6])) ==> (IsMulticast(ip[6]) <==> 0xE1 <= old(ip[8]) % 0x100 <= 0xEF)
    ensures old(ip[8]) % 0x100 == 0xE0 ==>
      && ip[6] == old(ip[6]) && ip[7] % 0x100 == old(ip[7]) % 0x100
      && ip[7] / 0x100 / 4 == old(ip[7]) / 0x100 / 4
      && ip[7] / 0x100 % 4 == (if old(ip[7]) / 0x100 % 4 == 1 then 2 else 1)
      && Intact(WordSum(ip[..]))
    ensures old(ip[8]) % 0x100 != 0xE0 ==> ip[6] == old(ip[8]) && ip[7] == old(ip[9])
    ensures old(ip[8]) % 0x100 != 0xE0 ==> ip[5] == old(ip[5]) && WordSum(ip[..]) == WordSum(old(ip[..]))
  {
    hide WordSum, Intact, OtherHost;
    ghost var was := ip[..];
    var src, srcLow := ip[SRC], ip[SRC + 1];
    if ip[DST] % 0x100 == 0xE0 {
      var other := OtherHost(srcLow / 0x100);
      OtherHostNear(srcLow, other);
      ip[SRC + 1] := other * 0x100 + srcLow % 0x100;
      ip[DST], ip[DST + 1] := src, srcLow;
      var cksum := Ipv4HdrCksum(ip[..]);
      ghost var header := ip[..];
      ip[CKSUM] := cksum;
      assert ip[..] == header[CKSUM := cksum];
    } else {
      ip[SRC], ip[SRC + 1] := ip[DST], ip[DST + 1];
      ip[DST], ip[DST + 1] := src, srcLow;
      HeaderSum(was);
      HeaderSum(ip[..]);
    }
  }

  /** The echo reply made from a request in place: if both checksums of the request were right,
      so are those of the reply (up to the two forms of zero in the ICMP part). */
  method MakeReply(ip: array<Word>, icmp: array<Word>)
    requires ip.Length == IP_HDR_WORDS && icmp.Length >= 4 && ip != icmp && icmp[0] == 8
    modifies ip, icmp
    ensures Intact(WordSum(old(ip[..]))) ==> Intact(WordSum(ip[..]))
    ensures WordSum(old(icmp[..])) % 0xFFFF == 0 ==> WordSum(icmp[..]) % 0xFFFF == 0
    ensures Intact(WordSum(old(icmp[..]))) ==> (Intact(WordSum(icmp[..])) <==> !AllZero(old(icmp[2..])))
    ensures icmp[0] == 0 && icmp[2..] == old(icmp[2..])
    ensures icmp[1] == if old(icmp[1]) < 0xFFF7 then old(icmp[1]) + 8 else old(icmp[1]) - 0xFFF7
    ensures ip[8] == old(ip[6]) && ip[9] == old(ip[7]) && forall i :: 0 <= i < 5 ==> ip[i] == old(ip[i])
    ensures !IsMulticast(old(ip[6])) ==> (IsMulticast(ip[6]) <==> 0xE1 <= old(ip[8]) % 0x100 <= 0xEF)
    ensures old(ip[8]) % 0x100 == 0xE0 ==>
      && ip[6] == old(ip[6]) && ip[7] % 0x100 == old(ip[7]) % 0x100
      && ip[7] / 0x100 / 4 == old(ip[7]) / 0x100 / 4
      && ip[7] / 0x100 % 4 == (if old(ip[7]) / 0x100 % 4 == 1 then 2 else 1)
    ensures old(ip[8]) % 0x100 != 0xE0 ==> ip[6] == old(ip[8]) && ip[7] == old(ip[9]) && ip[5] == old(ip[5])
  {
    hide WordSum, Intact;
    SetAddresses(ip);
    UpdateIcmp(icmp);
  }
}
