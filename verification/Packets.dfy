/** The 128-byte packet: checksum (4 bytes), sequence number (4), payload size (1),
    payload. Acknowledgements use the first two fields only. */
module Packets {
  import opened Bytes
  import Crc

  const RDT_PKTSIZE := 128
  const CHECKSUM_SIZE := 4
  const HEADER_SIZE := 9
  const MAX_PAYLOAD_SIZE := RDT_PKTSIZE - HEADER_SIZE

  type Packet = p: seq<byte> | |p| == RDT_PKTSIZE witness seq(RDT_PKTSIZE, _ => 0)

  function Checksum(body: seq<byte>): bv32 {
    Crc.Crc(Crc.INITIAL, Crc.Bits(body))
  }

  /** `*(uint32_t *)data` on a little-endian host. */
  function LoadWord(bs: seq<byte>): bv32
    requires |bs| == 4
  {
    (bs[0] as bv32) | ((bs[1] as bv32) << 8) | ((bs[2] as bv32) << 16) | ((bs[3] as bv32) << 24)
  }

  function StoreWord(w: bv32): (bs: seq<byte>)
    ensures |bs| == 4
  {
    [(w & 0xff) as byte, ((w >> 8) & 0xff) as byte, ((w >> 16) & 0xff) as byte, (w >> 24) as byte]
  }

  lemma LoadStore(w: bv32)
    ensures LoadWord(StoreWord(w)) == w
  {
  }

  lemma StoreLoad(bs: seq<byte>)
    requires |bs| == 4
    ensures StoreWord(LoadWord(bs)) == bs
  {
    StoreLoadBytes(bs[0], bs[1], bs[2], bs[3]);
    assert bs == [bs[0], bs[1], bs[2], bs[3]];
  }

  lemma StoreLoadBytes(a: byte, b: byte, c: byte, d: byte)
    ensures StoreWord(LoadWord([a, b, c, d])) == [a, b, c, d]
  {
  }

  predicate Verified(p: Packet) {
    Checksum(p[CHECKSUM_SIZE..]) == LoadWord(p[..CHECKSUM_SIZE])
  }

  function SeqOf(p: Packet): int {
    BytesInt(p[CHECKSUM_SIZE..CHECKSUM_SIZE + 4])
  }

  /** The payload size is a `char`, which is signed. */
  function SizeOf(p: Packet): int {
    var b := p[HEADER_SIZE - 1] as int;
    if b < 128 then b else b - 256
  }

  function PayloadOf(p: Packet): seq<byte>
    requires 0 <= SizeOf(p) <= MAX_PAYLOAD_SIZE
  {
    p[HEADER_SIZE..HEADER_SIZE + SizeOf(p)]
  }

  /** `RDT_AddChecksum`: writes the checksum of the body into the first four bytes. */
  method AddChecksum(pkt: array<byte>)
    requires pkt.Length == RDT_PKTSIZE
    modifies pkt
    ensures Verified(pkt[..])
    ensures pkt[CHECKSUM_SIZE..] == old(pkt[CHECKSUM_SIZE..])
  {
    var checksum := Crc.Crc32(pkt[CHECKSUM_SIZE..]);
    CopyBytes(pkt, 0, StoreWord(checksum));
    LoadStore(checksum);
    assert pkt[..][CHECKSUM_SIZE..] == pkt[CHECKSUM_SIZE..];
    assert pkt[..][..CHECKSUM_SIZE] == pkt[0..0 + 4];
  }

  /** `RDT_VerifyChecksum`. */
  method VerifyChecksum(pkt: Packet) returns (ok: bool)
    ensures ok == Verified(pkt)
  {
    var checksum := Crc.Crc32(pkt[CHECKSUM_SIZE..]);
    var headerChecksum := LoadWord(pkt[..CHECKSUM_SIZE]);
    ok := checksum == headerChecksum;
  }

  /** A packet of zeros never passes for a sent one. */
  lemma ZerosRefused()
    ensures !Verified(seq(RDT_PKTSIZE, _ => 0))
  {
    hide Crc.Crc, Crc.Bits;
    var p: Packet := seq(RDT_PKTSIZE, _ => 0);
    assert p[CHECKSUM_SIZE..] == seq(124, _ => 0);
    assert p[..CHECKSUM_SIZE] == [0, 0, 0, 0];
    Crc.ZerosNotZero(124);
    LoadZero();
  }

  lemma LoadZero()
    ensures LoadWord([0, 0, 0, 0]) == 0
  {
  }

  /** A verified packet with one burst of up to 32 bits flipped in its body, or with any
      change confined to its checksum field, no longer verifies. */
  lemma CorruptionDetected(p: Packet, q: Packet, at: nat, n: nat)
    requires Verified(p)
    requires (p[..CHECKSUM_SIZE] == q[..CHECKSUM_SIZE]
      && Crc.Burst(Crc.Bits(p[CHECKSUM_SIZE..]), Crc.Bits(q[CHECKSUM_SIZE..]), at, n))
      || (p[..CHECKSUM_SIZE] != q[..CHECKSUM_SIZE] && p[CHECKSUM_SIZE..] == q[CHECKSUM_SIZE..])
    ensures !Verified(q)
  {
    if p[..CHECKSUM_SIZE] == q[..CHECKSUM_SIZE] {
      Crc.BurstDetected(Crc.INITIAL, Crc.Bits(p[CHECKSUM_SIZE..]), Crc.Bits(q[CHECKSUM_SIZE..]), at, n);
    } else if Verified(q) {
      StoreLoad(p[..CHECKSUM_SIZE]);
      StoreLoad(q[..CHECKSUM_SIZE]);
    }
  }

  /** `p` is packet number `s` and carries `payload`; the bytes after the payload are arbitrary. */
  predicate Carries(p: Packet, s: int, payload: seq<byte>) {
    Verified(p) && SeqOf(p) == s && SizeOf(p) == |payload| <= MAX_PAYLOAD_SIZE && PayloadOf(p) == payload
  }

  /** Where the number, the size and the payload stand in the packet. */
  lemma CarriesMeans(p: Packet, s: nat, payload: seq<byte>)
    requires Carries(p, s, payload)
    ensures s == p[4] as int + 0x100 * p[5] as int + 0x1_0000 * p[6] as int + 0x100_0000 * p[7] as int
    ensures p[8] as int == |payload| <= 119 && p[9..9 + |payload|] == payload
  {
    hide Verified;
    BytesIntIs(p[4..8]);
  }

  lemma CarriedByte(p: Packet, s: nat, payload: seq<byte>, x: nat)
    requires Carries(p, s, payload) && x < |payload|
    ensures |payload| <= 119 && p[9 + x] == payload[x]
  {
    hide Carries;
    CarriesMeans(p, s, payload);
    assert p[9..9 + |payload|][x] == p[9 + x];
  }

  predicate IsAck(p: Packet, ack: int) {
    Verified(p) && SeqOf(p) == ack
  }

  /** Some packet number `s` with a given payload exists (the one whose spare bytes are zero). */
  function Made(s: int, payload: seq<byte>): Packet
    requires |payload| <= MAX_PAYLOAD_SIZE
  {
    var body := IntBytes(s) + [|payload| as byte] + payload + seq(MAX_PAYLOAD_SIZE - |payload|, _ => 0);
    StoreWord(Checksum(body)) + body
  }

  lemma MadeCarries(s: int, payload: seq<byte>)
    requires IsInt32(s) && |payload| <= MAX_PAYLOAD_SIZE
    ensures Carries(Made(s, payload), s, payload)
  {
    var p := Made(s, payload);
    var body := IntBytes(s) + [|payload| as byte] + payload + seq(MAX_PAYLOAD_SIZE - |payload|, _ => 0);
    assert p[..4] == StoreWord(Checksum(body)) && p[4..] == body && p[4..8] == IntBytes(s);
    assert p[8] == |payload| as byte && p[9..9 + |payload|] == payload;
    LoadStore(Checksum(body));
    IntRoundTrip(s);
    ByteRoundTrip(|payload|);
  }
}
