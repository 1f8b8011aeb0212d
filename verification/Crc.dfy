/** The checksum of `rdt/rdt_check.cc`: a table-driven loop, the bit-serial
    CRC-32 it implements, and the corruption it is certain to detect. */
module Crc {
  import opened Bytes

  const POLYNOMIAL: bv32 := 0xedb8_8320
  const INITIAL: bv32 := 0xffff_ffff

  // ----- Bit-serial definition: one register, one bit at a time, low bit of each byte first

  function ByteBits(b: byte): (bits: seq<bool>)
    ensures |bits| == 8
  {
    [b & 1 != 0, b & 2 != 0, b & 4 != 0, b & 8 != 0, b & 16 != 0, b & 32 != 0, b & 64 != 0, b & 128 != 0]
  }

  function Bits(bs: seq<byte>): (bits: seq<bool>)
    ensures |bits| == 8 * |bs|
  {
    if bs == [] then [] else ByteBits(bs[0]) + Bits(bs[1..])
  }

  /** Shifts one bit out of the reflected register. */
  function Shift(r: bv32): bv32 {
    if r & 1 == 1 then (r >> 1) ^ POLYNOMIAL else r >> 1
  }

  function BitWord(bit: bool): bv32 {
    if bit then 1 else 0
  }

  function Xor(a: bv32, b: bv32): bv32 {
    a ^ b
  }

  /** Feeds one bit to the register. */
  function Feed(r: bv32, bit: bool): bv32 {
    Shift(Xor(r, BitWord(bit)))
  }

  /** The register after it has been fed `bits`. */
  function Crc(r: bv32, bits: seq<bool>): bv32
    decreases bits
  {
    if bits == [] then r else Crc(Feed(r, bits[0]), bits[1..])
  }

  lemma {:induction false} CrcAppend(r: bv32, a: seq<bool>, b: seq<bool>)
    ensures Crc(r, a + b) == Crc(Crc(r, a), b)
    decreases a
  {
    if a == [] {
      assert a + b == b;
    } else {
      assert (a + b)[1..] == a[1..] + b;
      CrcAppend(Feed(r, a[0]), a[1..], b);
    }
  }

  lemma FeedInjective(r: bv32, s: bv32, bit: bool)
    ensures Feed(r, bit) == Feed(s, bit) ==> r == s
  {
  }

  lemma {:induction false} CrcInjective(r: bv32, s: bv32, bits: seq<bool>)
    requires Crc(r, bits) == Crc(s, bits)
    ensures r == s
    decreases bits
  {
    if bits != [] {
      FeedInjective(r, s, bits[0]);
      CrcInjective(Feed(r, bits[0]), Feed(s, bits[0]), bits[1..]);
    }
  }

  // ----- Shifting is linear and loses nothing

  function Shifts(n: nat, r: bv32): bv32 {
    if n == 0 then r else Shifts(n - 1, Shift(r))
  }

  lemma ShiftParts(r: bv32)
    ensures r & 1 == 1 ==> Shift(r) == (r >> 1) ^ POLYNOMIAL
    ensures r & 1 != 1 ==> Shift(r) == r >> 1
  {
  }

  lemma XorParts(a: bv32, b: bv32, p: bv32)
    ensures (a ^ b) >> 1 == (a >> 1) ^ (b >> 1)
    ensures (a ^ b) & 1 == 1 <==> ((a & 1 == 1) != (b & 1 == 1))
    ensures (a ^ p) ^ (b ^ p) == a ^ b
    ensures (a ^ p) ^ b == a ^ (b ^ p) == (a ^ b) ^ p
  {
  }

  lemma ShiftXor(a: bv32, b: bv32)
    ensures Shift(Xor(a, b)) == Xor(Shift(a), Shift(b))
  {
    XorParts(a, b, 0);
    XorParts(a >> 1, b >> 1, POLYNOMIAL);
    ShiftParts(a);
    ShiftParts(b);
    ShiftParts(a ^ b);
  }

  lemma XorLaws(a: bv32, b: bv32, c: bv32)
    ensures Xor(Xor(a, b), c) == Xor(a, Xor(b, c))
    ensures Xor(a, b) == Xor(a, c) ==> b == c
  {
  }

  lemma ShiftInjective(r: bv32, s: bv32)
    ensures Shift(r) == Shift(s) ==> r == s
  {
  }

  lemma {:induction false} ShiftsInjective(n: nat, r: bv32, s: bv32)
    requires Shifts(n, r) == Shifts(n, s)
    ensures r == s
  {
    if n > 0 {
      ShiftInjective(r, s);
      ShiftsInjective(n - 1, Shift(r), Shift(s));
    }
  }

  // ----- Up to 32 bits fed one by one are one word xored in at once

  function Up(w: bv32): bv32 {
    w << 1
  }

  function Prepend(bit: bool, w: bv32): bv32 {
    Xor(BitWord(bit), Up(w))
  }

  /** The word whose low bits are `bits`, first bit lowest. */
  function Word(bits: seq<bool>): bv32 {
    if bits == [] then 0 else Prepend(bits[0], Word(bits[1..]))
  }

  /** All bits from position `n` up. */
  function High(n: nat): bv32 {
    if n == 0 then 0xffff_ffff else Up(High(n - 1))
  }

  predicate Clear(w: bv32, mask: bv32) {
    w & mask == 0
  }

  predicate Within(inner: bv32, outer: bv32) {
    inner & outer == inner
  }

  lemma PrependClear(bit: bool, w: bv32, mask: bv32)
    ensures Clear(w, mask) ==> Clear(Prepend(bit, w), Up(mask))
  {
  }

  lemma WithinUp(inner: bv32, outer: bv32)
    requires Within(inner, outer)
    ensures Within(Up(inner), Up(outer))
  {
  }

  lemma ClearWithin(w: bv32, inner: bv32, outer: bv32)
    requires Within(inner, outer) && Clear(w, outer)
    ensures Clear(w, inner)
  {
    assert w & inner == w & (inner & outer) == (w & outer) & inner;
  }

  lemma WithinAll(inner: bv32)
    ensures Within(inner, 0xffff_ffff)
  {
  }

  lemma {:induction false} WordClear(bits: seq<bool>)
    ensures Clear(Word(bits), High(|bits|))
  {
    if bits != [] {
      WordClear(bits[1..]);
      PrependClear(bits[0], Word(bits[1..]), High(|bits| - 1));
    }
  }

  lemma {:induction false} HighNested(n: nat, m: nat)
    requires n <= m
    ensures Within(High(m), High(n))
  {
    if n == 0 {
      WithinAll(High(m));
    } else {
      HighNested(n - 1, m - 1);
      WithinUp(High(m - 1), High(n - 1));
    }
  }

  lemma HighTop()
    ensures High(31) == 0x8000_0000
  {
    assert High(8) == 0xffff_ff00;
    assert High(16) == 0xffff_0000;
    assert High(24) == 0xff00_0000;
  }

  lemma TopClear(bits: seq<bool>)
    requires |bits| <= 31
    ensures Clear(Word(bits), 0x8000_0000)
  {
    WordClear(bits);
    HighNested(|bits|, 31);
    HighTop();
    ClearWithin(Word(bits), High(31), High(|bits|));
  }

  lemma ShiftUp(w: bv32)
    requires Clear(w, 0x8000_0000)
    ensures Shift(Up(w)) == w
  {
  }

  /** Feeding `bit` and then xoring in `w` is xoring in both and then shifting. */
  lemma FeedThenXor(r: bv32, bit: bool, w: bv32)
    requires Clear(w, 0x8000_0000)
    ensures Xor(Feed(r, bit), w) == Shift(Xor(r, Prepend(bit, w)))
  {
    var b := BitWord(bit);
    XorLaws(r, b, Up(w));
    ShiftXor(Xor(r, b), Up(w));
    ShiftUp(w);
  }

  lemma {:induction false} CrcIsWordXor(r: bv32, bits: seq<bool>)
    requires |bits| <= 32
    ensures Crc(r, bits) == Shifts(|bits|, Xor(r, Word(bits)))
    decreases bits
  {
    if bits != [] {
      CrcIsWordXor(Feed(r, bits[0]), bits[1..]);
      TopClear(bits[1..]);
      FeedThenXor(r, bits[0], Word(bits[1..]));
    }
  }

  predicate Low(w: bv32) {
    w & 1 == 1
  }

  lemma PrependLow(bit: bool, w: bv32)
    ensures Low(Prepend(bit, w)) == bit
  {
  }

  lemma {:induction false} WordInjective(a: seq<bool>, b: seq<bool>)
    requires |a| == |b| <= 32 && Word(a) == Word(b)
    ensures a == b
  {
    if a != [] {
      TopClear(a[1..]);
      TopClear(b[1..]);
      PrependLow(a[0], Word(a[1..]));
      PrependLow(b[0], Word(b[1..]));
      XorLaws(BitWord(a[0]), Up(Word(a[1..])), Up(Word(b[1..])));
      ShiftUp(Word(a[1..]));
      ShiftUp(Word(b[1..]));
      WordInjective(a[1..], b[1..]);
      assert a == [a[0]] + a[1..];
      assert b == [b[0]] + b[1..];
    }
  }

  // ----- Bursts

  /** Two bit strings that differ, but only inside some 32 consecutive bits. */
  ghost predicate Burst(a: seq<bool>, b: seq<bool>, at: nat, n: nat) {
    |a| == |b| && n <= 32 && at + n <= |a| &&
    a[..at] == b[..at] && a[at + n..] == b[at + n..] && a != b
  }

  lemma BurstDetected(r: bv32, a: seq<bool>, b: seq<bool>, at: nat, n: nat)
    requires Burst(a, b, at, n)
    ensures Crc(r, a) != Crc(r, b)
  {
    hide Crc, Word, Shifts, Xor;
    var head, tail := a[..at], a[at + n..];
    var x, y := a[at..at + n], b[at..at + n];
    assert a == head + (x + tail) && b == head + (y + tail);
    if Crc(r, a) == Crc(r, b) {
      var s := Crc(r, head);
      CrcAppend(r, head, x + tail);
      CrcAppend(r, head, y + tail);
      CrcAppend(s, x, tail);
      CrcAppend(s, y, tail);
      CrcInjective(Crc(s, x), Crc(s, y), tail);
      CrcIsWordXor(s, x);
      CrcIsWordXor(s, y);
      ShiftsInjective(n, Xor(s, Word(x)), Xor(s, Word(y)));
      XorLaws(s, Word(x), Word(y));
      WordInjective(x, y);
    }
  }

  lemma {:induction false} BitsSlice(bs: seq<byte>, k: nat)
    requires k <= |bs|
    ensures Bits(bs)[..8 * k] == Bits(bs[..k])
    ensures Bits(bs)[8 * k..] == Bits(bs[k..])
  {
    if k > 0 {
      BitsSlice(bs[1..], k - 1);
      assert bs[..k][1..] == bs[1..][..k - 1];
      assert bs[1..][k - 1..] == bs[k..];
    }
  }

  lemma ByteBitsInjective(b: byte, c: byte)
    requires ByteBits(b) == ByteBits(c)
    ensures b == c
  {
    assert ByteBits(b)[0] == ByteBits(c)[0] && ByteBits(b)[1] == ByteBits(c)[1];
    assert ByteBits(b)[2] == ByteBits(c)[2] && ByteBits(b)[3] == ByteBits(c)[3];
    assert ByteBits(b)[4] == ByteBits(c)[4] && ByteBits(b)[5] == ByteBits(c)[5];
    assert ByteBits(b)[6] == ByteBits(c)[6] && ByteBits(b)[7] == ByteBits(c)[7];
  }

  lemma {:induction false} BitsInjective(a: seq<byte>, b: seq<byte>)
    requires |a| == |b| && Bits(a) == Bits(b)
    ensures a == b
  {
    if a != [] {
      assert Bits(a)[..8] == ByteBits(a[0]) && Bits(b)[..8] == ByteBits(b[0]);
      assert Bits(a)[8..] == Bits(a[1..]) && Bits(b)[8..] == Bits(b[1..]);
      ByteBitsInjective(a[0], b[0]);
      BitsInjective(a[1..], b[1..]);
    }
  }

  /** Buffers of one length that differ only within four consecutive bytes have
      different checksums. */
  lemma FourByteBurstDetected(a: seq<byte>, b: seq<byte>, at: nat)
    requires |a| == |b| && at + 4 <= |a|
    requires a[..at] == b[..at] && a[at + 4..] == b[at + 4..] && a != b
    ensures Crc(INITIAL, Bits(a)) != Crc(INITIAL, Bits(b))
  {
    hide Crc, Bits;
    BitsSlice(a, at);
    BitsSlice(b, at);
    BitsSlice(a, at + 4);
    BitsSlice(b, at + 4);
    if Bits(a) == Bits(b) {
      BitsInjective(a, b);
    }
    BurstDetected(INITIAL, Bits(a), Bits(b), 8 * at, 32);
  }

  // ----- The table

  /** `crc32_table`, eight entries to a row as in the source. */
  function TableRow(k: bv8): (row: seq<bv32>)
    requires k < 32
    ensures |row| == 8
  {
    if k < 16 then FirstRows(k) else LastRows(k)
  }

  function FirstRows(k: bv8): (row: seq<bv32>)
    requires k < 16
    ensures |row| == 8
  {
    match k
    case 0 => [0x0000_0000, 0x7707_3096, 0xee0e_612c, 0x9909_51ba, 0x076d_c419, 0x706a_f48f, 0xe963_a535, 0x9e64_95a3]
    case 1 => [0x0edb_8832, 0x79dc_b8a4, 0xe0d5_e91e, 0x97d2_d988, 0x09b6_4c2b, 0x7eb1_7cbd, 0xe7b8_2d07, 0x90bf_1d91]
    case 2 => [0x1db7_1064, 0x6ab0_20f2, 0xf3b9_7148, 0x84be_41de, 0x1ada_d47d, 0x6ddd_e4eb, 0xf4d4_b551, 0x83d3_85c7]
    case 3 => [0x136c_9856, 0x646b_a8c0, 0xfd62_f97a, 0x8a65_c9ec, 0x1401_5c4f, 0x6306_6cd9, 0xfa0f_3d63, 0x8d08_0df5]
    case 4 => [0x3b6e_20c8, 0x4c69_105e, 0xd560_41e4, 0xa267_7172, 0x3c03_e4d1, 0x4b04_d447, 0xd20d_85fd, 0xa50a_b56b]
    case 5 => [0x35b5_a8fa, 0x42b2_986c, 0xdbbb_c9d6, 0xacbc_f940, 0x32d8_6ce3, 0x45df_5c75, 0xdcd6_0dcf, 0xabd1_3d59]
    case 6 => [0x26d9_30ac, 0x51de_003a, 0xc8d7_5180, 0xbfd0_6116, 0x21b4_f4b5, 0x56b3_c423, 0xcfba_9599, 0xb8bd_a50f]
    case 7 => [0x2802_b89e, 0x5f05_8808, 0xc60c_d9b2, 0xb10b_e924, 0x2f6f_7c87, 0x5868_4c11, 0xc161_1dab, 0xb666_2d3d]
    case 8 => [0x76dc_4190, 0x01db_7106, 0x98d2_20bc, 0xefd5_102a, 0x71b1_8589, 0x06b6_b51f, 0x9fbf_e4a5, 0xe8b8_d433]
    case 9 => [0x7807_c9a2, 0x0f00_f934, 0x9609_a88e, 0xe10e_9818, 0x7f6a_0dbb, 0x086d_3d2d, 0x9164_6c97, 0xe663_5c01]
    case 10 => [0x6b6b_51f4, 0x1c6c_6162, 0x8565_30d8, 0xf262_004e, 0x6c06_95ed, 0x1b01_a57b, 0x8208_f4c1, 0xf50f_c457]
    case 11 => [0x65b0_d9c6, 0x12b7_e950, 0x8bbe_b8ea, 0xfcb9_887c, 0x62dd_1ddf, 0x15da_2d49, 0x8cd3_7cf3, 0xfbd4_4c65]
    case 12 => [0x4db2_6158, 0x3ab5_51ce, 0xa3bc_0074, 0xd4bb_30e2, 0x4adf_a541, 0x3dd8_95d7, 0xa4d1_c46d, 0xd3d6_f4fb]
    case 13 => [0x4369_e96a, 0x346e_d9fc, 0xad67_8846, 0xda60_b8d0, 0x4404_2d73, 0x3303_1de5, 0xaa0a_4c5f, 0xdd0d_7cc9]
    case 14 => [0x5005_713c, 0x2702_41aa, 0xbe0b_1010, 0xc90c_2086, 0x5768_b525, 0x206f_85b3, 0xb966_d409, 0xce61_e49f]
    case 15 => [0x5ede_f90e, 0x29d9_c998, 0xb0d0_9822, 0xc7d7_a8b4, 0x59b3_3d17, 0x2eb4_0d81, 0xb7bd_5c3b, 0xc0ba_6cad]
  }

  function LastRows(k: bv8): (row: seq<bv32>)
    requires 16 <= k < 32
    ensures |row| == 8
  {
    match k
    case 16 => [0xedb8_8320, 0x9abf_b3b6, 0x03b6_e20c, 0x74b1_d29a, 0xead5_4739, 0x9dd2_77af, 0x04db_2615, 0x73dc_1683]
    case 17 => [0xe363_0b12, 0x9464_3b84, 0x0d6d_6a3e, 0x7a6a_5aa8, 0xe40e_cf0b, 0x9309_ff9d, 0x0a00_ae27, 0x7d07_9eb1]
    case 18 => [0xf00f_9344, 0x8708_a3d2, 0x1e01_f268, 0x6906_c2fe, 0xf762_575d, 0x8065_67cb, 0x196c_3671, 0x6e6b_06e7]
    case 19 => [0xfed4_1b76, 0x89d3_2be0, 0x10da_7a5a, 0x67dd_4acc, 0xf9b9_df6f, 0x8ebe_eff9, 0x17b7_be43, 0x60b0_8ed5]
    case 20 => [0xd6d6_a3e8, 0xa1d1_937e, 0x38d8_c2c4, 0x4fdf_f252, 0xd1bb_67f1, 0xa6bc_5767, 0x3fb5_06dd, 0x48b2_364b]
    case 21 => [0xd80d_2bda, 0xaf0a_1b4c, 0x3603_4af6, 0x4104_7a60, 0xdf60_efc3, 0xa867_df55, 0x316e_8eef, 0x4669_be79]
    case 22 => [0xcb61_b38c, 0xbc66_831a, 0x256f_d2a0, 0x5268_e236, 0xcc0c_7795, 0xbb0b_4703, 0x2202_16b9, 0x5505_262f]
    case 23 => [0xc5ba_3bbe, 0xb2bd_0b28, 0x2bb4_5a92, 0x5cb3_6a04, 0xc2d7_ffa7, 0xb5d0_cf31, 0x2cd9_9e8b, 0x5bde_ae1d]
    case 24 => [0x9b64_c2b0, 0xec63_f226, 0x756a_a39c, 0x026d_930a, 0x9c09_06a9, 0xeb0e_363f, 0x7207_6785, 0x0500_5713]
    case 25 => [0x95bf_4a82, 0xe2b8_7a14, 0x7bb1_2bae, 0x0cb6_1b38, 0x92d2_8e9b, 0xe5d5_be0d, 0x7cdc_efb7, 0x0bdb_df21]
    case 26 => [0x86d3_d2d4, 0xf1d4_e242, 0x68dd_b3f8, 0x1fda_836e, 0x81be_16cd, 0xf6b9_265b, 0x6fb0_77e1, 0x18b7_4777]
    case 27 => [0x8808_5ae6, 0xff0f_6a70, 0x6606_3bca, 0x1101_0b5c, 0x8f65_9eff, 0xf862_ae69, 0x616b_ffd3, 0x166c_cf45]
    case 28 => [0xa00a_e278, 0xd70d_d2ee, 0x4e04_8354, 0x3903_b3c2, 0xa767_2661, 0xd060_16f7, 0x4969_474d, 0x3e6e_77db]
    case 29 => [0xaed1_6a4a, 0xd9d6_5adc, 0x40df_0b66, 0x37d8_3bf0, 0xa9bc_ae53, 0xdebb_9ec5, 0x47b2_cf7f, 0x30b5_ffe9]
    case 30 => [0xbdbd_f21c, 0xcaba_c28a, 0x53b3_9330, 0x24b4_a3a6, 0xbad0_3605, 0xcdd7_0693, 0x54de_5729, 0x23d9_67bf]
    case 31 => [0xb366_7a2e, 0xc461_4ab8, 0x5d68_1b02, 0x2a6f_2b94, 0xb40b_be37, 0xc30c_8ea1, 0x5a05_df1b, 0x2d02_ef8d]
  }

  function Table(i: bv8): bv32 {
    TableRow(i >> 3)[(i & 7) as int]
  }

  function ShiftByte(r: bv32): bv32 {
    Shift(Shift(Shift(Shift(Shift(Shift(Shift(Shift(r))))))))
  }

  lemma ShiftByteXor(a: bv32, b: bv32)
    ensures ShiftByte(Xor(a, b)) == Xor(ShiftByte(a), ShiftByte(b))
  {
    var a1, b1 := Shift(a), Shift(b);
    var a2, b2 := Shift(a1), Shift(b1);
    var a3, b3 := Shift(a2), Shift(b2);
    var a4, b4 := Shift(a3), Shift(b3);
    var a5, b5 := Shift(a4), Shift(b4);
    var a6, b6 := Shift(a5), Shift(b5);
    var a7, b7 := Shift(a6), Shift(b6);
    ShiftXor(a, b);
    ShiftXor(a1, b1);
    ShiftXor(a2, b2);
    ShiftXor(a3, b3);
    ShiftXor(a4, b4);
    ShiftXor(a5, b5);
    ShiftXor(a6, b6);
    ShiftXor(a7, b7);
  }

  /** The first row with `b` xored into each entry. */
  function XorRow(b: bv32): (row: seq<bv32>)
    ensures |row| == 8
  {
    [b, b ^ 0x7707_3096, b ^ 0xee0e_612c, b ^ 0x9909_51ba,
     b ^ 0x076d_c419, b ^ 0x706a_f48f, b ^ 0xe963_a535, b ^ 0x9e64_95a3]
  }

  /** Each row is the first row with its own first entry xored in. */
  lemma FirstRowsXor(k: bv8)
    requires k < 16
    ensures FirstRows(k) == XorRow(ShiftByte((8 * k) as bv32))
  {
    match k
    case 0 => assert FirstRows(0) == XorRow(ShiftByte(0));
    case 1 => assert FirstRows(1) == XorRow(ShiftByte(8));
    case 2 => assert FirstRows(2) == XorRow(ShiftByte(16));
    case 3 => assert FirstRows(3) == XorRow(ShiftByte(24));
    case 4 => assert FirstRows(4) == XorRow(ShiftByte(32));
    case 5 => assert FirstRows(5) == XorRow(ShiftByte(40));
    case 6 => assert FirstRows(6) == XorRow(ShiftByte(48));
    case 7 => assert FirstRows(7) == XorRow(ShiftByte(56));
    case 8 => assert FirstRows(8) == XorRow(ShiftByte(64));
    case 9 => assert FirstRows(9) == XorRow(ShiftByte(72));
    case 10 => assert FirstRows(10) == XorRow(ShiftByte(80));
    case 11 => assert FirstRows(11) == XorRow(ShiftByte(88));
    case 12 => assert FirstRows(12) == XorRow(ShiftByte(96));
    case 13 => assert FirstRows(13) == XorRow(ShiftByte(104));
    case 14 => assert FirstRows(14) == XorRow(ShiftByte(112));
    case 15 => assert FirstRows(15) == XorRow(ShiftByte(120));
  }

  lemma LastRowsXor(k: bv8)
    requires 16 <= k < 32
    ensures LastRows(k) == XorRow(ShiftByte((8 * k) as bv32))
  {
    match k
    case 16 => assert LastRows(16) == XorRow(ShiftByte(128));
    case 17 => assert LastRows(17) == XorRow(ShiftByte(136));
    case 18 => assert LastRows(18) == XorRow(ShiftByte(144));
    case 19 => assert LastRows(19) == XorRow(ShiftByte(152));
    case 20 => assert LastRows(20) == XorRow(ShiftByte(160));
    case 21 => assert LastRows(21) == XorRow(ShiftByte(168));
    case 22 => assert LastRows(22) == XorRow(ShiftByte(176));
    case 23 => assert LastRows(23) == XorRow(ShiftByte(184));
    case 24 => assert LastRows(24) == XorRow(ShiftByte(192));
    case 25 => assert LastRows(25) == XorRow(ShiftByte(200));
    case 26 => assert LastRows(26) == XorRow(ShiftByte(208));
    case 27 => assert LastRows(27) == XorRow(ShiftByte(216));
    case 28 => assert LastRows(28) == XorRow(ShiftByte(224));
    case 29 => assert LastRows(29) == XorRow(ShiftByte(232));
    case 30 => assert LastRows(30) == XorRow(ShiftByte(240));
    case 31 => assert LastRows(31) == XorRow(ShiftByte(248));
  }

  lemma XorRowEntry(b: bv32, j: bv8)
    requires j < 8
    ensures XorRow(b)[j as int] == Xor(b, ShiftByte(j as bv32))
  {
    match j
    case 0 => assert ShiftByte(0) == 0;
    case 1 => assert ShiftByte(1) == 0x7707_3096;
    case 2 => assert ShiftByte(2) == 0xee0e_612c;
    case 3 => assert ShiftByte(3) == 0x9909_51ba;
    case 4 => assert ShiftByte(4) == 0x076d_c419;
    case 5 => assert ShiftByte(5) == 0x706a_f48f;
    case 6 => assert ShiftByte(6) == 0xe963_a535;
    case 7 => assert ShiftByte(7) == 0x9e64_95a3;
  }

  lemma RowAndEntry(i: bv8)
    ensures i >> 3 < 32 && i & 7 < 8
    ensures Xor((8 * (i >> 3)) as bv32, (i & 7) as bv32) == i as bv32
  {
  }

  /** Entry `i` is what eight shifts make of `i`. */
  lemma TableEntry(i: bv8)
    ensures Table(i) == ShiftByte(i as bv32)
  {
    hide FirstRows, LastRows, XorRow, ShiftByte, Xor;
    var k, j := i >> 3, i & 7;
    RowAndEntry(i);
    if k < 16 {
      FirstRowsXor(k);
    } else {
      LastRowsXor(k);
    }
    XorRowEntry(ShiftByte((8 * k) as bv32), j);
    ShiftByteXor((8 * k) as bv32, j as bv32);
  }

  /** Bits above the lowest eight only move down. */
  lemma ShiftByteHigh(r: bv32)
    ensures ShiftByte(r & 0xffff_ff00) == r >> 8
  {
  }

  lemma SplitLow(r: bv32, b: byte)
    ensures ((r ^ (b as bv32)) & 0xff) as bv8 == LowByte(r) ^ b
    ensures Xor(r, b as bv32) == Xor((LowByte(r) ^ b) as bv32, r & 0xffff_ff00)
  {
  }

  function LowByte(r: bv32): bv8 {
    (r & 0xff) as bv8
  }

  /** One turn of the source's loop. */
  function TableStep(r: bv32, b: byte): bv32 {
    Xor(Table(((r ^ (b as bv32)) & 0xff) as bv8), r >> 8)
  }

  lemma TableStepShifts(r: bv32, b: byte)
    ensures TableStep(r, b) == ShiftByte(Xor(r, b as bv32))
  {
    var i := LowByte(r) ^ b;
    TableEntry(i);
    ShiftByteHigh(r);
    SplitLow(r, b);
    ShiftByteXor(i as bv32, r & 0xffff_ff00);
  }

  function ByteWord(b: byte): bv32 {
    Prepend(b & 1 != 0, Prepend(b & 2 != 0, Prepend(b & 4 != 0, Prepend(b & 8 != 0,
      Prepend(b & 16 != 0, Prepend(b & 32 != 0, Prepend(b & 64 != 0, Prepend(b & 128 != 0, 0))))))))
  }

  lemma ByteWordIsByte(b: byte)
    ensures ByteWord(b) == b as bv32
  {
  }

  lemma WordUnfolds(bits: seq<bool>)
    requires |bits| == 8
    ensures Word(bits) == Prepend(bits[0], Prepend(bits[1], Prepend(bits[2], Prepend(bits[3],
      Prepend(bits[4], Prepend(bits[5], Prepend(bits[6], Prepend(bits[7], 0))))))))
  {
    assert bits[1..][1..] == bits[2..] && bits[2..][1..] == bits[3..] && bits[3..][1..] == bits[4..];
    assert bits[4..][1..] == bits[5..] && bits[5..][1..] == bits[6..] && bits[6..][1..] == bits[7..];
    assert Word(bits[7..]) == Prepend(bits[7], 0);
    assert Word(bits[6..]) == Prepend(bits[6], Prepend(bits[7], 0));
    assert Word(bits[4..]) == Prepend(bits[4], Prepend(bits[5], Word(bits[6..])));
    assert Word(bits[2..]) == Prepend(bits[2], Prepend(bits[3], Word(bits[4..])));
  }

  lemma EightShifts(r: bv32)
    ensures Shifts(8, r) == ShiftByte(r)
  {
    var r2 := Shift(Shift(r));
    var r4 := Shift(Shift(r2));
    var r6 := Shift(Shift(r4));
    assert Shifts(8, r) == Shifts(7, Shift(r)) == Shifts(6, r2);
    assert Shifts(6, r2) == Shifts(5, Shift(r2)) == Shifts(4, r4);
    assert Shifts(4, r4) == Shifts(3, Shift(r4)) == Shifts(2, r6);
    assert Shifts(2, r6) == Shifts(1, Shift(r6)) == Shifts(0, Shift(Shift(r6)));
  }

  /** Feeding a byte bit by bit is one turn of the source's loop. */
  lemma TableStepIsCrc(r: bv32, b: byte)
    ensures TableStep(r, b) == Crc(r, ByteBits(b))
  {
    CrcIsWordXor(r, ByteBits(b));
    WordUnfolds(ByteBits(b));
    ByteWordIsByte(b);
    EightShifts(Xor(r, b as bv32));
    TableStepShifts(r, b);
  }

  lemma BitsSnoc(bs: seq<byte>, k: nat)
    requires k < |bs|
    ensures Bits(bs[..k + 1]) == Bits(bs[..k]) + ByteBits(bs[k])
  {
    var c := bs[..k + 1];
    BitsSlice(c, k);
    assert c[..k] == bs[..k] && c[k..] == [bs[k]];
    assert Bits([bs[k]]) == ByteBits(bs[k]);
    assert Bits(c) == Bits(c)[..8 * k] + Bits(c)[8 * k..];
  }

  // ----- Where the register starts

  const ONES: seq<byte> := [0xff, 0xff, 0xff, 0xff]

  /** The register one byte on. */
  lemma NextByte(bs: seq<byte>, k: nat, r: bv32, v: bv32)
    requires k < |bs| && Crc(INITIAL, Bits(bs[..k])) == r && ShiftByte(Xor(r, bs[k] as bv32)) == v
    ensures Crc(INITIAL, Bits(bs[..k + 1])) == v
  {
    hide Crc, ShiftByte, Xor;
    BitsSnoc(bs, k);
    CrcAppend(INITIAL, Bits(bs[..k]), ByteBits(bs[k]));
    TableStepIsCrc(r, bs[k]);
    TableStepShifts(r, bs[k]);
  }

  lemma NoByte(bs: seq<byte>)
    ensures Crc(INITIAL, Bits(bs[..0])) == 0xffff_ffff
  {
  }

  lemma OnesGiveZero()
    ensures Crc(INITIAL, Bits(ONES)) == 0
  {
    hide Crc, Bits;
    NoByte(ONES);
    NextByte(ONES, 0, 0xffff_ffff, 0x00ff_ffff);
    NextByte(ONES, 1, 0x00ff_ffff, 0x0000_ffff);
    NextByte(ONES, 2, 0x0000_ffff, 0x0000_00ff);
    NextByte(ONES, 3, 0x0000_00ff, 0);
    assert ONES[..4] == ONES;
  }

  /** Of all buffers of four bytes just that of ones has the checksum zero. */
  lemma ZeroIffOnes(buf: seq<byte>)
    requires |buf| == 4
    ensures Crc(INITIAL, Bits(buf)) == 0 <==> buf == [0xff, 0xff, 0xff, 0xff]
  {
    hide Crc, Bits;
    OnesGiveZero();
    if buf != ONES {
      FourByteBurstDetected(buf, ONES, 0);
    }
  }

  /** The check value that catalogues of checksums give for this one is that of the ASCII digits 1
      to 9; the source leaves out the final complement, so it has the complement of 0xCBF43926. */
  lemma CheckValue()
    ensures Crc(INITIAL, Bits([0x31, 0x32, 0x33, 0x34, 0x35, 0x36, 0x37, 0x38, 0x39])) == 0xcbf4_3926 ^ 0xffff_ffff
  {
    hide Crc, Bits;
    var digits: seq<byte> := [0x31, 0x32, 0x33, 0x34, 0x35, 0x36, 0x37, 0x38, 0x39];
    NoByte(digits);
    NextByte(digits, 0, 0xffff_ffff, 0x7c23_1048);
    NextByte(digits, 1, 0x7c23_1048, 0xb0ac_bb32);
    NextByte(digits, 2, 0xb0ac_bb32, 0x77b7_9c2d);
    NextByte(digits, 3, 0x77b7_9c2d, 0x641c_1f5c);
    NextByte(digits, 4, 0x641c_1f5c, 0x340a_c5e3);
    NextByte(digits, 5, 0x340a_c5e3, 0xf68d_2c9e);
    NextByte(digits, 6, 0xf68d_2c9e, 0xaffc_9660);
    NextByte(digits, 7, 0xaffc_9660, 0x651f_2550);
    NextByte(digits, 8, 0x651f_2550, 0x340b_c6d9);
    assert digits[..9] == digits;
  }

  /** Zero bits only shift the register. */
  lemma {:induction false} ZerosShift(n: nat, r: bv32)
    ensures Crc(r, seq(n, _ => false)) == Shifts(n, r)
    decreases n
  {
    if n > 0 {
      assert seq(n, _ => false)[1..] == seq(n - 1, _ => false);
      XorNone(r);
      ZerosShift(n - 1, Shift(r));
    }
  }

  lemma XorNone(r: bv32)
    ensures Xor(r, BitWord(false)) == r
  {
  }

  lemma {:induction false} ZeroShifts(n: nat)
    ensures Shifts(n, 0) == 0
  {
    if n > 0 {
      ZeroShifts(n - 1);
    }
  }

  lemma {:induction false} BitsOfZeros(n: nat)
    ensures Bits(seq(n, _ => 0)) == seq(8 * n, _ => false)
  {
    if n > 0 {
      assert seq(n, _ => 0 as byte)[1..] == seq(n - 1, _ => 0 as byte);
      BitsOfZeros(n - 1);
    }
  }

  /** The checksum of a buffer of zeros is not zero. */
  lemma ZerosNotZero(n: nat)
    ensures Crc(INITIAL, Bits(seq(n, _ => 0))) != 0
  {
    hide Crc, Bits, Shifts;
    BitsOfZeros(n);
    ZerosShift(8 * n, INITIAL);
    ZeroShifts(8 * n);
    if Shifts(8 * n, INITIAL) == 0 {
      ShiftsInjective(8 * n, INITIAL, 0);
    }
  }

  /** `crc32`: the source's loop over `size` bytes of `buf` computes the bit-serial CRC. */
  method Crc32(buf: seq<byte>) returns (result: bv32)
    ensures result == Crc(INITIAL, Bits(buf))
    ensures |buf| == 4 ==> (result == 0 <==> buf == [0xff, 0xff, 0xff, 0xff])
  {
    if |buf| == 4 {
      ZeroIffOnes(buf);
    }
    result := INITIAL;
    var size, next := |buf|, 0;
    while size != 0
      invariant 0 <= next <= |buf| && next + size == |buf|
      invariant result == Crc(INITIAL, Bits(buf[..next]))
      decreases size
    {
      size := size - 1;
      BitsSnoc(buf, next);
      TableStepIsCrc(result, buf[next]);
      CrcAppend(INITIAL, Bits(buf[..next]), ByteBits(buf[next]));
      result := TableStep(result, buf[next]);
      next := next + 1;
    }
    assert buf[..next] == buf;
  }
}
