/** What `RDT_VerifyChecksum` is certain to notice in a whole packet. The checksum stands in front of
    the body, so a burst may lie across the two. */
module Bursts {
  import opened Bytes
  import opened Crc
  import opened Packets

  // ----- Changes of the first body bits

  lemma {:induction false} ShiftsXor(n: nat, a: bv32, b: bv32)
    ensures Shifts(n, Xor(a, b)) == Xor(Shifts(n, a), Shifts(n, b))
  {
    if n > 0 {
      ShiftXor(a, b);
      ShiftsXor(n - 1, Shift(a), Shift(b));
    }
  }

  lemma {:induction false} ShiftsAdd(m: nat, n: nat, r: bv32)
    ensures Shifts(m + n, r) == Shifts(n, Shifts(m, r))
  {
    if m > 0 {
      ShiftsAdd(m - 1, n, Shift(r));
    }
  }

  lemma XorCommutes(a: bv32, b: bv32)
    ensures Xor(a, b) == Xor(b, a)
  {
  }

  lemma XorZero(a: bv32)
    ensures Xor(a, 0) == a && Xor(0, a) == a && Xor(a, a) == 0
  {
  }

  lemma XorTwice(a: bv32, b: bv32, c: bv32)
    ensures Xor(Xor(a, b), Xor(a, c)) == Xor(b, c) && Xor(Xor(b, a), Xor(c, a)) == Xor(b, c)
  {
    hide Xor;
    XorCommutes(a, b);
    XorCommutes(a, c);
    XorLaws(b, a, Xor(a, c));
    XorLaws(a, a, c);
    XorZero(a);
    XorZero(c);
  }

  /** A difference of two registers is only shifted on when both are fed the same bits. */
  lemma {:induction false} CrcXor(r: bv32, s: bv32, bits: seq<bool>)
    ensures Xor(Crc.Crc(r, bits), Crc.Crc(s, bits)) == Shifts(|bits|, Xor(r, s))
    decreases bits
  {
    hide Shift, Xor;
    if bits != [] {
      var b := BitWord(bits[0]);
      ShiftXor(Xor(r, b), Xor(s, b));
      XorTwice(b, r, s);
      CrcXor(Feed(r, bits[0]), Feed(s, bits[0]), bits[1..]);
    }
  }

  /** The checksums of bit strings that differ in their first 32 bits differ by the word of that
      difference, shifted through the whole length. */
  lemma CrcDifference(r: bv32, x: seq<bool>, y: seq<bool>, tail: seq<bool>)
    requires |x| == |y| == 32
    ensures Xor(Crc.Crc(r, x + tail), Crc.Crc(r, y + tail)) == Shifts(32 + |tail|, Xor(Word(x), Word(y)))
  {
    hide Crc.Crc, Word, Shifts, Xor;
    CrcAppend(r, x, tail);
    CrcAppend(r, y, tail);
    CrcXor(Crc.Crc(r, x), Crc.Crc(r, y), tail);
    CrcIsWordXor(r, x);
    CrcIsWordXor(r, y);
    ShiftsXor(32, Xor(r, Word(x)), Xor(r, Word(y)));
    XorTwice(r, Word(x), Word(y));
    ShiftsAdd(32, |tail|, Xor(Word(x), Word(y)));
  }

  function Ups(n: nat, w: bv32): bv32 {
    if n == 0 then w else Up(Ups(n - 1, w))
  }

  lemma UpXor(u: bv32, v: bv32)
    ensures Up(Xor(u, v)) == Xor(Up(u), Up(v))
  {
  }

  lemma PrependXor(bit: bool, u: bv32, v: bv32)
    ensures Prepend(bit, Xor(u, v)) == Xor(Prepend(bit, u), Up(v))
  {
    hide Up, Xor;
    UpXor(u, v);
    XorLaws(BitWord(bit), Up(u), Up(v));
  }

  lemma {:induction false} WordAppend(x: seq<bool>, rest: seq<bool>)
    ensures Word(x + rest) == Xor(Word(x), Ups(|x|, Word(rest)))
    decreases x
  {
    hide Prepend, Up;
    if x == [] {
      assert x + rest == rest;
      XorLaws(0, Word(rest), 0);
      assert Xor(0, Word(rest)) == Word(rest);
    } else {
      assert (x + rest)[1..] == x[1..] + rest;
      WordAppend(x[1..], rest);
      PrependXor(x[0], Word(x[1..]), Ups(|x| - 1, Word(rest)));
    }
  }

  lemma EightUps(w: bv32)
    ensures Ups(8, w) == w << 8
  {
    hide Up;
    assert Ups(2, w) == Up(Ups(1, w)) == Up(Up(w));
    assert Ups(4, w) == Up(Ups(3, w)) == Up(Up(Ups(2, w)));
    assert Ups(6, w) == Up(Ups(5, w)) == Up(Up(Ups(4, w)));
    assert Ups(8, w) == Up(Ups(7, w)) == Up(Up(Ups(6, w)));
    UpByte(w);
  }

  lemma UpByte(w: bv32)
    ensures Up(Up(Up(Up(Up(Up(Up(Up(w)))))))) == w << 8
  {
  }

  lemma WordByte(b: byte, rest: seq<bool>)
    ensures Word(ByteBits(b) + rest) == (b as bv32) ^ (Word(rest) << 8)
  {
    hide Word, ByteBits, Ups;
    WordAppend(ByteBits(b), rest);
    EightUps(Word(rest));
    assert Word(ByteBits(b)) == b as bv32 by { WordOfByte(b); }
  }

  lemma WordOfByte(b: byte)
    ensures Word(ByteBits(b)) == b as bv32
  {
    hide Word, Prepend;
    WordUnfolds(ByteBits(b));
    ByteWordIsByte(b);
  }

  /** Four bytes loaded as a word are the word of their bits. */
  lemma LoadIsWord(bs: seq<byte>)
    requires |bs| == 4
    ensures LoadWord(bs) == Word(Bits(bs))
  {
    hide Word, ByteBits;
    assert bs[1..][1..] == bs[2..] && bs[2..][1..] == bs[3..] && bs[3..][1..] == [];
    assert Bits(bs[3..]) == ByteBits(bs[3]) + [];
    WordByte(bs[3], []);
    WordByte(bs[2], Bits(bs[3..]));
    WordByte(bs[1], Bits(bs[2..]));
    WordByte(bs[0], Bits(bs[1..]));
    NoBits();
    FourBytes(bs[0] as bv32, bs[1] as bv32, bs[2] as bv32, bs[3] as bv32);
  }

  lemma NoBits()
    ensures Word([]) == 0
  {
  }

  lemma FourBytes(a: bv32, b: bv32, c: bv32, d: bv32)
    requires a < 0x100 && b < 0x100 && c < 0x100 && d < 0x100
    ensures a ^ ((b ^ ((c ^ ((d ^ (0 << 8)) << 8)) << 8)) << 8) == a | (b << 8) | (c << 16) | (d << 24)
  {
  }

  /** The change of a packet's checksum field, and that of the first four bytes of its body. */
  function FieldChange(p: Packet, q: Packet): bv32 {
    Xor(LoadWord(p[..4]), LoadWord(q[..4]))
  }

  function HeadChange(p: Packet, q: Packet): bv32 {
    Xor(LoadWord(p[4..8]), LoadWord(q[4..8]))
  }

  const BODY_BITS := 8 * (RDT_PKTSIZE - CHECKSUM_SIZE)

  /** A change of the first eight bytes passes if and only if the change of the checksum is that of
      the body, shifted through the whole body. */
  lemma HeadChangePassesIff(p: Packet, q: Packet)
    requires Verified(p) && p[8..] == q[8..]
    ensures Verified(q) <==> FieldChange(p, q) == Shifts(BODY_BITS, HeadChange(p, q))
  {
    hide Crc.Crc, Shifts, Word, Bits, LoadWord, Xor;
    var pb, qb := p[4..], q[4..];
    BitsSlice(pb, 4);
    BitsSlice(qb, 4);
    assert pb[..4] == p[4..8] && pb[4..] == p[8..] && qb[..4] == q[4..8] && qb[4..] == q[8..];
    var x, y, tail := Bits(p[4..8]), Bits(q[4..8]), Bits(p[8..]);
    assert Bits(pb) == x + tail && Bits(qb) == y + tail;
    CrcDifference(INITIAL, x, y, tail);
    LoadIsWord(p[4..8]);
    LoadIsWord(q[4..8]);
    SameDifference(LoadWord(p[..4]), LoadWord(q[..4]), Checksum(qb));
  }

  lemma SameDifference(a: bv32, b: bv32, c: bv32)
    ensures c == b <==> Xor(a, b) == Xor(a, c)
  {
    hide Xor;
    XorLaws(a, b, c);
  }

  // ----- Where single bits of the head go, and where single bits of the checksum come from

  function Shift32(w: bv32): bv32 {
    ShiftByte(ShiftByte(ShiftByte(ShiftByte(w))))
  }

  lemma NoShift(w: bv32)
    ensures Shifts(0, w) == w
  {
  }

  lemma OneShift(r: bv32)
    ensures Shifts(1, r) == Shift(r)
  {
    assert Shifts(1, r) == Shifts(0, Shift(r));
  }

  lemma Jump(r: bv32, n: nat, w: bv32, v: bv32)
    requires Shifts(n, r) == w && Shift32(w) == v
    ensures Shifts(n + 32, r) == v
  {
    hide Shifts, ShiftByte;
    var w1 := ShiftByte(w);
    var w2 := ShiftByte(w1);
    ShiftsAdd(n, 8, r);
    EightShifts(w);
    ShiftsAdd(n + 8, 8, r);
    EightShifts(w1);
    ShiftsAdd(n + 16, 8, r);
    EightShifts(w2);
    ShiftsAdd(n + 24, 8, r);
    EightShifts(ShiftByte(w2));
  }

  lemma BitOrbit0()
    ensures Shifts(256, 0x0000_0001) == 0xf1da_05aa
  {
    hide Shifts;
    NoShift(0x0000_0001);
    Jump(0x0000_0001, 0, 0x0000_0001, 0xb8bc_6765);
    Jump(0x0000_0001, 32, 0xb8bc_6765, 0xccaa_009e);
    Jump(0x0000_0001, 64, 0xccaa_009e, 0x9ba5_4c6f);
    Jump(0x0000_0001, 96, 0x9ba5_4c6f, 0xae68_9191);
    Jump(0x0000_0001, 128, 0xae68_9191, 0x6567_3b46);
    Jump(0x0000_0001, 160, 0x6567_3b46, 0x8125_6527);
    Jump(0x0000_0001, 192, 0x8125_6527, 0x01b5_fd1d);
    Jump(0x0000_0001, 224, 0x01b5_fd1d, 0xf1da_05aa);
  }

  lemma BitOrbit1()
    ensures Shifts(512, 0x0000_0001) == 0x8f35_2d95
  {
    hide Shifts;
    BitOrbit0();
    Jump(0x0000_0001, 256, 0xf1da_05aa, 0x9570_d495);
    Jump(0x0000_0001, 288, 0x9570_d495, 0xaf44_9247);
    Jump(0x0000_0001, 320, 0xaf44_9247, 0x2a28_3862);
    Jump(0x0000_0001, 352, 0x2a28_3862, 0x3db1_ecdc);
    Jump(0x0000_0001, 384, 0x3db1_ecdc, 0x69cc_fc0d);
    Jump(0x0000_0001, 416, 0x69cc_fc0d, 0x1d95_13d7);
    Jump(0x0000_0001, 448, 0x1d95_13d7, 0xcad3_8e8f);
    Jump(0x0000_0001, 480, 0xcad3_8e8f, 0x8f35_2d95);
  }

  lemma BitOrbit2()
    ensures Shifts(768, 0x0000_0001) == 0xdf06_8dc2
  {
    hide Shifts;
    BitOrbit1();
    Jump(0x0000_0001, 512, 0x8f35_2d95, 0x653d_9822);
    Jump(0x0000_0001, 544, 0x653d_9822, 0xae0b_5394);
    Jump(0x0000_0001, 576, 0xae0b_5394, 0x8e42_b13e);
    Jump(0x0000_0001, 608, 0x8e42_b13e, 0x1c27_9815);
    Jump(0x0000_0001, 640, 0x1c27_9815, 0x5a03_a0cf);
    Jump(0x0000_0001, 672, 0x5a03_a0cf, 0x57c5_4819);
    Jump(0x0000_0001, 704, 0x57c5_4819, 0x101a_2331);
    Jump(0x0000_0001, 736, 0x101a_2331, 0xdf06_8dc2);
  }

  /** What becomes of the lowest bit in 960 shifts. */
  lemma BitOrbit3()
    ensures Shifts(960, 0x0000_0001) == 0x910e_eec1
  {
    hide Shifts;
    BitOrbit2();
    Jump(0x0000_0001, 768, 0xdf06_8dc2, 0x759f_c69d);
    Jump(0x0000_0001, 800, 0x759f_c69d, 0x0cbe_c0ed);
    Jump(0x0000_0001, 832, 0x0cbe_c0ed, 0xc64a_c0b8);
    Jump(0x0000_0001, 864, 0xc64a_c0b8, 0x31f8_303f);
    Jump(0x0000_0001, 896, 0x31f8_303f, 0x0198_66e8);
    Jump(0x0000_0001, 928, 0x0198_66e8, 0x910e_eec1);
  }

  lemma SourceOrbit0()
    ensures Shifts(256, 0x1643_8de9) == 0xa06c_d294
  {
    hide Shifts;
    NoShift(0x1643_8de9);
    Jump(0x1643_8de9, 0, 0x1643_8de9, 0x6d1a_2ff6);
    Jump(0x1643_8de9, 32, 0x6d1a_2ff6, 0x1332_af98);
    Jump(0x1643_8de9, 64, 0x1332_af98, 0xc31e_c6b9);
    Jump(0x1643_8de9, 96, 0xc31e_c6b9, 0x2374_4737);
    Jump(0x1643_8de9, 128, 0x2374_4737, 0xf11d_96dd);
    Jump(0x1643_8de9, 160, 0xf11d_96dd, 0x1876_0b90);
    Jump(0x1643_8de9, 192, 0x1876_0b90, 0xdb1c_4863);
    Jump(0x1643_8de9, 224, 0xdb1c_4863, 0xa06c_d294);
  }

  lemma SourceOrbit1()
    ensures Shifts(512, 0x1643_8de9) == 0x6fef_6bf6
  {
    hide Shifts;
    SourceOrbit0();
    Jump(0x1643_8de9, 256, 0xa06c_d294, 0xa3b1_10ee);
    Jump(0x1643_8de9, 288, 0xa3b1_10ee, 0x9887_f8d0);
    Jump(0x1643_8de9, 320, 0x9887_f8d0, 0x1795_8e0b);
    Jump(0x1643_8de9, 352, 0x1795_8e0b, 0xb34f_4a13);
    Jump(0x1643_8de9, 384, 0xb34f_4a13, 0x1a28_419b);
    Jump(0x1643_8de9, 416, 0x1a28_419b, 0xbb26_d682);
    Jump(0x1643_8de9, 448, 0xbb26_d682, 0x5139_de12);
    Jump(0x1643_8de9, 480, 0x5139_de12, 0x6fef_6bf6);
  }

  lemma SourceOrbit2()
    ensures Shifts(768, 0x1643_8de9) == 0x24ac_08d5
  {
    hide Shifts;
    SourceOrbit1();
    Jump(0x1643_8de9, 512, 0x6fef_6bf6, 0xe364_fe50);
    Jump(0x1643_8de9, 544, 0xe364_fe50, 0x4cc5_4c19);
    Jump(0x1643_8de9, 576, 0x4cc5_4c19, 0x9d76_4201);
    Jump(0x1643_8de9, 608, 0x9d76_4201, 0x3c79_0f42);
    Jump(0x1643_8de9, 640, 0x3c79_0f42, 0xebd3_69b3);
    Jump(0x1643_8de9, 672, 0xebd3_69b3, 0xd50c_bcf7);
    Jump(0x1643_8de9, 704, 0xd50c_bcf7, 0x8df9_403d);
    Jump(0x1643_8de9, 736, 0x8df9_403d, 0x24ac_08d5);
  }

  /** The word that 992 shifts turn into the highest bit. */
  lemma SourceOrbit3()
    ensures Shifts(992, 0x1643_8de9) == 0x8000_0000
  {
    hide Shifts;
    SourceOrbit2();
    Jump(0x1643_8de9, 768, 0x24ac_08d5, 0x2128_0f27);
    Jump(0x1643_8de9, 800, 0x2128_0f27, 0x278d_6e4e);
    Jump(0x1643_8de9, 832, 0x278d_6e4e, 0x12a5_9a49);
    Jump(0x1643_8de9, 864, 0x12a5_9a49, 0x3651_1375);
    Jump(0x1643_8de9, 896, 0x3651_1375, 0x2e9b_b40b);
    Jump(0x1643_8de9, 928, 0x2e9b_b40b, 0x5b35_8fd3);
    Jump(0x1643_8de9, 960, 0x5b35_8fd3, 0x8000_0000);
  }

  /** The word with just bit `i`. */
  function One(i: nat): bv32 {
    Ups(i, 1)
  }

  /** How many bits of the head, counted from the checksum, are looked at. */
  const HEAD := 12

  /** What `BODY_BITS` shifts make of bit `i`. */
  function Image(i: nat): bv32 {
    match i
    case 0 => 0x7406_fa95
    case 1 => 0xe80d_f52a
    case 2 => 0x0b6a_ec15
    case 3 => 0x16d5_d82a
    case 4 => 0x2dab_b054
    case 5 => 0x5b57_60a8
    case 6 => 0xb6ae_c150
    case 7 => 0xb62c_84e1
    case 8 => 0xb728_0f83
    case 9 => 0xb521_1947
    case 10 => 0xb133_34cf
    case _ => 0xb917_6fdf
  }

  lemma ImageStep(i: nat)
    requires i + 1 < HEAD
    ensures Shift(Image(i + 1)) == Image(i)
  {
    match i
    case 0 => assert Shift(0xe80d_f52a) == 0x7406_fa95;
    case 1 => assert Shift(0x0b6a_ec15) == 0xe80d_f52a;
    case 2 => assert Shift(0x16d5_d82a) == 0x0b6a_ec15;
    case 3 => assert Shift(0x2dab_b054) == 0x16d5_d82a;
    case 4 => assert Shift(0x5b57_60a8) == 0x2dab_b054;
    case 5 => assert Shift(0xb6ae_c150) == 0x5b57_60a8;
    case 6 => assert Shift(0xb62c_84e1) == 0xb6ae_c150;
    case 7 => assert Shift(0xb728_0f83) == 0xb62c_84e1;
    case 8 => assert Shift(0xb521_1947) == 0xb728_0f83;
    case 9 => assert Shift(0xb133_34cf) == 0xb521_1947;
    case 10 => assert Shift(0xb917_6fdf) == 0xb133_34cf;
  }

  /** A single bit is shifted down to the lowest place. */
  lemma {:induction false} OneFalls(n: nat, i: nat)
    requires i <= 31
    ensures Shifts(n + i, One(i)) == Shifts(n, 1)
  {
    hide Shift;
    if i > 0 {
      OneClear(i - 1);
      ShiftUp(One(i - 1));
      assert One(i) == Up(One(i - 1));
      OneFalls(n, i - 1);
    }
  }

  lemma OneClear(i: nat)
    requires i < 31
    ensures Clear(One(i), 0x8000_0000)
  {
    hide Clear, Up;
    OneBelow(i);
    HighNested(i + 1, 31);
    HighTop();
    ClearWithin(One(i), High(31), High(i + 1));
  }

  lemma {:induction false} OneBelow(i: nat)
    ensures Clear(One(i), High(i + 1))
  {
    if i == 0 {
      assert High(1) == Up(High(0));
    } else {
      OneBelow(i - 1);
      PrependClear(false, One(i - 1), High(i));
      assert Prepend(false, One(i - 1)) == One(i);
    }
  }

  lemma Remaining(w: bv32)
    ensures Shifts(21, w) == Shift(Shift(Shift(Shift(Shift(ShiftByte(ShiftByte(w)))))))
  {
    hide Shift, ShiftByte;
    ShiftsAdd(8, 13, w);
    EightShifts(w);
    var v := ShiftByte(w);
    ShiftsAdd(8, 5, v);
    EightShifts(v);
    var u := ShiftByte(v);
    var u2 := Shift(Shift(u));
    var u4 := Shift(Shift(u2));
    assert Shifts(5, u) == Shifts(4, Shift(u)) == Shifts(3, u2);
    assert Shifts(3, u2) == Shifts(2, Shift(u2)) == Shifts(1, u4) == Shifts(0, Shift(u4));
  }

  lemma {:induction false} ImageInOrbit(i: nat)
    requires i < HEAD
    ensures Shifts(BODY_BITS - i, 1) == Image(i)
    decreases HEAD - i
  {
    hide Shifts, Image, Shift;
    if i == HEAD - 1 {
      BitOrbit3();
      ShiftsAdd(960, 21, 1);
      Remaining(0x910e_eec1);
      LastImage();
    } else {
      ImageInOrbit(i + 1);
      ImageStep(i);
      ShiftsAdd(BODY_BITS - i - 1, 1, 1);
      OneShift(Image(i + 1));
    }
  }

  lemma LastImage()
    ensures Shift(Shift(Shift(Shift(Shift(ShiftByte(ShiftByte(0x910e_eec1))))))) == Image(HEAD - 1)
  {
  }

  lemma ImageIs(i: nat)
    requires i < HEAD
    ensures Shifts(BODY_BITS, One(i)) == Image(i)
  {
    hide Shifts, Image;
    ImageInOrbit(i);
    OneFalls(BODY_BITS - i, i);
  }

  /** How many bits of the checksum, counted from the body, are looked at. */
  const FIELD := 14

  /** What `BODY_BITS` shifts turn into bit `32 - FIELD + k`. */
  function Source(k: nat): bv32 {
    match k
    case 0 => 0xe5ad_0bd8
    case 1 => 0x102b_11f1
    case 2 => 0x2056_23e2
    case 3 => 0x40ac_47c4
    case 4 => 0x8158_8f88
    case 5 => 0xd9c0_1951
    case 6 => 0x68f1_34e3
    case 7 => 0xd1e2_69c6
    case 8 => 0x78b5_d5cd
    case 9 => 0xf16b_ab9a
    case 10 => 0x39a6_5175
    case 11 => 0x734c_a2ea
    case 12 => 0xe699_45d4
    case _ => 0x1643_8de9
  }

  lemma SourceStep(k: nat)
    requires k + 1 < FIELD
    ensures Shift(Source(k + 1)) == Source(k)
  {
    match k
    case 0 => assert Shift(0x102b_11f1) == 0xe5ad_0bd8;
    case 1 => assert Shift(0x2056_23e2) == 0x102b_11f1;
    case 2 => assert Shift(0x40ac_47c4) == 0x2056_23e2;
    case 3 => assert Shift(0x8158_8f88) == 0x40ac_47c4;
    case 4 => assert Shift(0xd9c0_1951) == 0x8158_8f88;
    case 5 => assert Shift(0x68f1_34e3) == 0xd9c0_1951;
    case 6 => assert Shift(0xd1e2_69c6) == 0x68f1_34e3;
    case 7 => assert Shift(0x78b5_d5cd) == 0xd1e2_69c6;
    case 8 => assert Shift(0xf16b_ab9a) == 0x78b5_d5cd;
    case 9 => assert Shift(0x39a6_5175) == 0xf16b_ab9a;
    case 10 => assert Shift(0x734c_a2ea) == 0x39a6_5175;
    case 11 => assert Shift(0xe699_45d4) == 0x734c_a2ea;
    case 12 => assert Shift(0x1643_8de9) == 0xe699_45d4;
  }

  lemma {:induction false} SourceIs(k: nat)
    requires k < FIELD
    ensures Shifts(BODY_BITS, Source(k)) == One(32 - FIELD + k)
    decreases FIELD - k
  {
    hide Shifts, Source, Shift, Ups;
    if k == FIELD - 1 {
      SourceOrbit3();
      LastSource();
    } else {
      SourceIs(k + 1);
      SourceStep(k);
      OneShift(Source(k + 1));
      ShiftsAdd(1, BODY_BITS, Source(k + 1));
      ShiftsAdd(BODY_BITS, 1, Source(k + 1));
      OneShift(One(33 - FIELD + k));
      OneClear(32 - FIELD + k);
      ShiftUp(One(32 - FIELD + k));
      OneUp(32 - FIELD + k);
    }
  }

  lemma OneUp(i: nat)
    ensures One(i + 1) == Up(One(i))
  {
  }

  lemma LastSource()
    ensures Source(FIELD - 1) == 0x1643_8de9 && One(31) == 0x8000_0000
  {
    assert One(8) == 0x100;
    assert One(16) == 0x1_0000;
    assert One(24) == 0x100_0000;
  }

  // ----- A burst of 28 bits that passes

  /** Flipping bits 0 and 2 of the first body byte and the checksum to match is never noticed. In
      the packet these are bits 7 to 34: 28 bits in a row. */
  lemma Unnoticed(p: Packet, q: Packet)
    requires Verified(p) && p[5..] == q[5..] && q[4] == p[4] ^ 5
    requires LoadWord(q[..4]) == LoadWord(p[..4]) ^ 0x7f6c_1680
    ensures Verified(q)
  {
    assert p[8..] == p[5..][3..] && p[4..8] == [p[4]] + p[5..][..3] && q[4..8] == [q[4]] + q[5..][..3];
    hide Verified, Shifts, LoadWord;
    HeadChangePassesIff(p, q);
    ImageIs(0);
    ImageIs(2);
    ShiftsXor(BODY_BITS, One(0), One(2));
    assert One(0) == 1 && One(2) == 4;
    FirstByteChange(p[4..8], q[4..8]);
  }

  lemma FirstByteChange(a: seq<byte>, b: seq<byte>)
    requires |a| == |b| == 4 && a[1..] == b[1..] && b[0] == a[0] ^ 5
    ensures Xor(LoadWord(a), LoadWord(b)) == 5
  {
    assert a[1] == a[1..][0] && a[2] == a[1..][1] && a[3] == a[1..][2];
    assert b[1] == b[1..][0] && b[2] == b[1..][1] && b[3] == b[1..][2];
  }

  // ----- No shorter burst passes

  lemma {:induction false} UpsXor(n: nat, a: bv32, b: bv32)
    ensures Ups(n, Xor(a, b)) == Xor(Ups(n, a), Ups(n, b))
  {
    hide Up, Xor;
    if n > 0 {
      UpsXor(n - 1, a, b);
      UpXor(Ups(n - 1, a), Ups(n - 1, b));
    }
  }

  lemma {:induction false} UpsZero(n: nat)
    ensures Ups(n, 0) == 0
  {
    if n > 0 {
      UpsZero(n - 1);
    }
  }

  lemma {:induction false} ShiftsZero(n: nat)
    ensures Shifts(n, 0) == 0
  {
    if n > 0 {
      ShiftsZero(n - 1);
    }
  }

  lemma {:induction false} UpsAdd(m: nat, n: nat, w: bv32)
    ensures Ups(m + n, w) == Ups(m, Ups(n, w))
  {
    hide Up;
    if m > 0 {
      UpsAdd(m - 1, n, w);
    }
  }

  /** A word grows by one bit. */
  lemma WordSnoc(z: seq<bool>, bit: bool)
    ensures Word(z + [bit]) == if bit then Xor(Word(z), One(|z|)) else Word(z)
  {
    hide Ups;
    WordAppend(z, [bit]);
    assert [bit][1..] == [];
    assert Word([bit]) == BitWord(bit) by { WordOfBit(bit); }
    UpsZero(|z|);
    XorZero(Word(z));
  }

  lemma WordOfBit(bit: bool)
    ensures Word([bit]) == BitWord(bit)
  {
    assert Word([bit][1..]) == 0;
  }

  /** All bits below position `k`. */
  function Below(k: nat): bv32 {
    match k
    case 0 => 0x0000_0000
    case 1 => 0x0000_0001
    case 2 => 0x0000_0003
    case 3 => 0x0000_0007
    case 4 => 0x0000_000f
    case 5 => 0x0000_001f
    case 6 => 0x0000_003f
    case 7 => 0x0000_007f
    case 8 => 0x0000_00ff
    case 9 => 0x0000_01ff
    case 10 => 0x0000_03ff
    case 11 => 0x0000_07ff
    case 12 => 0x0000_0fff
    case 13 => 0x0000_1fff
    case 14 => 0x0000_3fff
    case 15 => 0x0000_7fff
    case 16 => 0x0000_ffff
    case 17 => 0x0001_ffff
    case 18 => 0x0003_ffff
    case 19 => 0x0007_ffff
    case 20 => 0x000f_ffff
    case 21 => 0x001f_ffff
    case 22 => 0x003f_ffff
    case 23 => 0x007f_ffff
    case 24 => 0x00ff_ffff
    case 25 => 0x01ff_ffff
    case 26 => 0x03ff_ffff
    case 27 => 0x07ff_ffff
    case 28 => 0x0fff_ffff
    case 29 => 0x1fff_ffff
    case 30 => 0x3fff_ffff
    case _ => 0x7fff_ffff
  }

  lemma BelowStep(k: nat)
    requires k < 31
    ensures Below(k + 1) == Prepend(true, Below(k))
  {
    match k
    case 0 =>
    case 1 =>
    case 2 =>
    case 3 =>
    case 4 =>
    case 5 =>
    case 6 =>
    case 7 =>
    case 8 =>
    case 9 =>
    case 10 =>
    case 11 =>
    case 12 =>
    case 13 =>
    case 14 =>
    case 15 =>
    case 16 =>
    case 17 =>
    case 18 =>
    case 19 =>
    case 20 =>
    case 21 =>
    case 22 =>
    case 23 =>
    case 24 =>
    case 25 =>
    case 26 =>
    case 27 =>
    case 28 =>
    case 29 =>
    case _ =>
  }

  /** All other bits. */
  function Beyond(k: nat): bv32 {
    Below(k) ^ 0xffff_ffff
  }

  lemma {:induction false} BeyondIs(k: nat)
    requires k <= 31
    ensures Beyond(k) == High(k)
  {
    hide Below, Prepend, Up;
    if k == 0 {
      BelowNone();
    } else {
      BeyondIs(k - 1);
      BelowStep(k - 1);
      UpBeyond(Below(k - 1));
    }
  }

  lemma BelowNone()
    ensures Below(0) == 0
  {
  }

  lemma UpBeyond(w: bv32)
    ensures Up(w ^ 0xffff_ffff) == Prepend(true, w) ^ 0xffff_ffff
  {
  }

  lemma ImageValues()
    ensures Image(0) == 0x7406_fa95 && Image(1) == 0xe80d_f52a && Image(2) == 0x0b6a_ec15
      && Image(3) == 0x16d5_d82a && Image(4) == 0x2dab_b054 && Image(5) == 0x5b57_60a8
      && Image(6) == 0xb6ae_c150 && Image(7) == 0xb62c_84e1 && Image(8) == 0xb728_0f83
      && Image(9) == 0xb521_1947 && Image(10) == 0xb133_34cf && Image(11) == 0xb917_6fdf
  {
  }

  lemma SourceValues()
    ensures Source(0) == 0xe5ad_0bd8 && Source(1) == 0x102b_11f1 && Source(2) == 0x2056_23e2
      && Source(3) == 0x40ac_47c4 && Source(4) == 0x8158_8f88 && Source(5) == 0xd9c0_1951
      && Source(6) == 0x68f1_34e3 && Source(7) == 0xd1e2_69c6 && Source(8) == 0x78b5_d5cd
      && Source(9) == 0xf16b_ab9a && Source(10) == 0x39a6_5175 && Source(11) == 0x734c_a2ea
      && Source(12) == 0xe699_45d4 && Source(13) == 0x1643_8de9
  {
  }

  /** What `BODY_BITS` shifts make of the six lowest bits of the head. */
  function HeadLow(w: bv32): bv32 {
    (if w & 0x0000_0001 != 0 then 0x7406_fa95 else 0) ^ (if w & 0x0000_0002 != 0 then 0xe80d_f52a else 0)
    ^ (if w & 0x0000_0004 != 0 then 0x0b6a_ec15 else 0) ^ (if w & 0x0000_0008 != 0 then 0x16d5_d82a else 0)
    ^ (if w & 0x0000_0010 != 0 then 0x2dab_b054 else 0) ^ (if w & 0x0000_0020 != 0 then 0x5b57_60a8 else 0)
  }

  /** And of the next six. */
  function HeadHigh(w: bv32): bv32 {
    (if w & 0x0000_0001 != 0 then 0xb6ae_c150 else 0) ^ (if w & 0x0000_0002 != 0 then 0xb62c_84e1 else 0)
    ^ (if w & 0x0000_0004 != 0 then 0xb728_0f83 else 0) ^ (if w & 0x0000_0008 != 0 then 0xb521_1947 else 0)
    ^ (if w & 0x0000_0010 != 0 then 0xb133_34cf else 0) ^ (if w & 0x0000_0020 != 0 then 0xb917_6fdf else 0)
  }

  /** What they turn into bits 18 to 24 of the checksum. */
  function FieldLow(w: bv32): bv32 {
    (if w & 0x0000_0001 != 0 then 0xe5ad_0bd8 else 0) ^ (if w & 0x0000_0002 != 0 then 0x102b_11f1 else 0)
    ^ (if w & 0x0000_0004 != 0 then 0x2056_23e2 else 0) ^ (if w & 0x0000_0008 != 0 then 0x40ac_47c4 else 0)
    ^ (if w & 0x0000_0010 != 0 then 0x8158_8f88 else 0) ^ (if w & 0x0000_0020 != 0 then 0xd9c0_1951 else 0)
    ^ (if w & 0x0000_0040 != 0 then 0x68f1_34e3 else 0)
  }

  /** And into bits 25 to 31. */
  function FieldHigh(w: bv32): bv32 {
    (if w & 0x0000_0001 != 0 then 0xd1e2_69c6 else 0) ^ (if w & 0x0000_0002 != 0 then 0x78b5_d5cd else 0)
    ^ (if w & 0x0000_0004 != 0 then 0xf16b_ab9a else 0) ^ (if w & 0x0000_0008 != 0 then 0x39a6_5175 else 0)
    ^ (if w & 0x0000_0010 != 0 then 0x734c_a2ea else 0) ^ (if w & 0x0000_0020 != 0 then 0xe699_45d4 else 0)
    ^ (if w & 0x0000_0040 != 0 then 0x1643_8de9 else 0)
  }

  lemma HeadLowBits(w: bv32)
    ensures w < 0x0000_0001 ==> HeadLow(Xor(w, 0x0000_0001)) == Xor(HeadLow(w), 0x7406_fa95)
    ensures w < 0x0000_0002 ==> HeadLow(Xor(w, 0x0000_0002)) == Xor(HeadLow(w), 0xe80d_f52a)
    ensures w < 0x0000_0004 ==> HeadLow(Xor(w, 0x0000_0004)) == Xor(HeadLow(w), 0x0b6a_ec15)
    ensures w < 0x0000_0008 ==> HeadLow(Xor(w, 0x0000_0008)) == Xor(HeadLow(w), 0x16d5_d82a)
    ensures w < 0x0000_0010 ==> HeadLow(Xor(w, 0x0000_0010)) == Xor(HeadLow(w), 0x2dab_b054)
    ensures w < 0x0000_0020 ==> HeadLow(Xor(w, 0x0000_0020)) == Xor(HeadLow(w), 0x5b57_60a8)
  {
  }

  lemma HeadLowGrows(k: nat, w: bv32)
    requires k < 6 && Clear(w, High(k))
    ensures HeadLow(Xor(w, One(k))) == Xor(HeadLow(w), Image(k))
  {
    hide HeadLow, Image;
    HeadLowBits(w);
    ImageValues();
    match k
    case 0 => assert One(0) == 0x0000_0001 && High(0) == 0xffff_ffff;
    case 1 => assert One(1) == 0x0000_0002 && High(1) == 0xffff_fffe;
    case 2 => assert One(2) == 0x0000_0004 && High(2) == 0xffff_fffc;
    case 3 => assert One(3) == 0x0000_0008 && High(3) == 0xffff_fff8;
    case 4 => assert One(4) == 0x0000_0010 && High(4) == 0xffff_fff0;
    case _ => assert One(5) == 0x0000_0020 && High(5) == 0xffff_ffe0;
  }

  lemma HeadHighBits(w: bv32)
    ensures w < 0x0000_0001 ==> HeadHigh(Xor(w, 0x0000_0001)) == Xor(HeadHigh(w), 0xb6ae_c150)
    ensures w < 0x0000_0002 ==> HeadHigh(Xor(w, 0x0000_0002)) == Xor(HeadHigh(w), 0xb62c_84e1)
    ensures w < 0x0000_0004 ==> HeadHigh(Xor(w, 0x0000_0004)) == Xor(HeadHigh(w), 0xb728_0f83)
    ensures w < 0x0000_0008 ==> HeadHigh(Xor(w, 0x0000_0008)) == Xor(HeadHigh(w), 0xb521_1947)
    ensures w < 0x0000_0010 ==> HeadHigh(Xor(w, 0x0000_0010)) == Xor(HeadHigh(w), 0xb133_34cf)
    ensures w < 0x0000_0020 ==> HeadHigh(Xor(w, 0x0000_0020)) == Xor(HeadHigh(w), 0xb917_6fdf)
  {
  }

  lemma HeadHighGrows(k: nat, w: bv32)
    requires k < 6 && Clear(w, High(k))
    ensures HeadHigh(Xor(w, One(k))) == Xor(HeadHigh(w), Image(6 + k))
  {
    hide HeadHigh, Image;
    HeadHighBits(w);
    ImageValues();
    match k
    case 0 => assert One(0) == 0x0000_0001 && High(0) == 0xffff_ffff;
    case 1 => assert One(1) == 0x0000_0002 && High(1) == 0xffff_fffe;
    case 2 => assert One(2) == 0x0000_0004 && High(2) == 0xffff_fffc;
    case 3 => assert One(3) == 0x0000_0008 && High(3) == 0xffff_fff8;
    case 4 => assert One(4) == 0x0000_0010 && High(4) == 0xffff_fff0;
    case _ => assert One(5) == 0x0000_0020 && High(5) == 0xffff_ffe0;
  }

  lemma FieldLowBits(w: bv32)
    ensures w < 0x0000_0001 ==> FieldLow(Xor(w, 0x0000_0001)) == Xor(FieldLow(w), 0xe5ad_0bd8)
    ensures w < 0x0000_0002 ==> FieldLow(Xor(w, 0x0000_0002)) == Xor(FieldLow(w), 0x102b_11f1)
    ensures w < 0x0000_0004 ==> FieldLow(Xor(w, 0x0000_0004)) == Xor(FieldLow(w), 0x2056_23e2)
    ensures w < 0x0000_0008 ==> FieldLow(Xor(w, 0x0000_0008)) == Xor(FieldLow(w), 0x40ac_47c4)
    ensures w < 0x0000_0010 ==> FieldLow(Xor(w, 0x0000_0010)) == Xor(FieldLow(w), 0x8158_8f88)
    ensures w < 0x0000_0020 ==> FieldLow(Xor(w, 0x0000_0020)) == Xor(FieldLow(w), 0xd9c0_1951)
    ensures w < 0x0000_0040 ==> FieldLow(Xor(w, 0x0000_0040)) == Xor(FieldLow(w), 0x68f1_34e3)
  {
  }

  lemma FieldLowGrows(k: nat, w: bv32)
    requires k < 7 && Clear(w, High(k))
    ensures FieldLow(Xor(w, One(k))) == Xor(FieldLow(w), Source(k))
  {
    hide FieldLow, Source;
    FieldLowBits(w);
    SourceValues();
    match k
    case 0 => assert One(0) == 0x0000_0001 && High(0) == 0xffff_ffff;
    case 1 => assert One(1) == 0x0000_0002 && High(1) == 0xffff_fffe;
    case 2 => assert One(2) == 0x0000_0004 && High(2) == 0xffff_fffc;
    case 3 => assert One(3) == 0x0000_0008 && High(3) == 0xffff_fff8;
    case 4 => assert One(4) == 0x0000_0010 && High(4) == 0xffff_fff0;
    case 5 => assert One(5) == 0x0000_0020 && High(5) == 0xffff_ffe0;
    case _ => assert One(6) == 0x0000_0040 && High(6) == 0xffff_ffc0;
  }

  lemma FieldHighBits(w: bv32)
    ensures w < 0x0000_0001 ==> FieldHigh(Xor(w, 0x0000_0001)) == Xor(FieldHigh(w), 0xd1e2_69c6)
    ensures w < 0x0000_0002 ==> FieldHigh(Xor(w, 0x0000_0002)) == Xor(FieldHigh(w), 0x78b5_d5cd)
    ensures w < 0x0000_0004 ==> FieldHigh(Xor(w, 0x0000_0004)) == Xor(FieldHigh(w), 0xf16b_ab9a)
    ensures w < 0x0000_0008 ==> FieldHigh(Xor(w, 0x0000_0008)) == Xor(FieldHigh(w), 0x39a6_5175)
    ensures w < 0x0000_0010 ==> FieldHigh(Xor(w, 0x0000_0010)) == Xor(FieldHigh(w), 0x734c_a2ea)
    ensures w < 0x0000_0020 ==> FieldHigh(Xor(w, 0x0000_0020)) == Xor(FieldHigh(w), 0xe699_45d4)
    ensures w < 0x0000_0040 ==> FieldHigh(Xor(w, 0x0000_0040)) == Xor(FieldHigh(w), 0x1643_8de9)
  {
  }

  lemma FieldHighGrows(k: nat, w: bv32)
    requires k < 7 && Clear(w, High(k))
    ensures FieldHigh(Xor(w, One(k))) == Xor(FieldHigh(w), Source(7 + k))
  {
    hide FieldHigh, Source;
    FieldHighBits(w);
    SourceValues();
    match k
    case 0 => assert One(0) == 0x0000_0001 && High(0) == 0xffff_ffff;
    case 1 => assert One(1) == 0x0000_0002 && High(1) == 0xffff_fffe;
    case 2 => assert One(2) == 0x0000_0004 && High(2) == 0xffff_fffc;
    case 3 => assert One(3) == 0x0000_0008 && High(3) == 0xffff_fff8;
    case 4 => assert One(4) == 0x0000_0010 && High(4) == 0xffff_fff0;
    case 5 => assert One(5) == 0x0000_0020 && High(5) == 0xffff_ffe0;
    case _ => assert One(6) == 0x0000_0040 && High(6) == 0xffff_ffc0;
  }

  lemma {:induction false} HeadLowIs(z: seq<bool>)
    requires |z| <= 6
    ensures Shifts(BODY_BITS, Ups(0, Word(z))) == HeadLow(Word(z))
  {
    hide Shifts, HeadLow, Image, Xor, Ups, Word;
    UpsZero(0);
    ShiftsZero(BODY_BITS);
    if z == [] {
      NoBits();
      HeadLowNone();
    } else {
      var k := |z| - 1;
      assert z == z[..k] + [z[k]];
      WordSnoc(z[..k], z[k]);
      HeadLowIs(z[..k]);
      if z[k] {
        WordClear(z[..k]);
        HeadLowGrows(k, Word(z[..k]));
        UpsXor(0, Word(z[..k]), One(k));
        UpsAdd(0, k, 1);
        ShiftsXor(BODY_BITS, Ups(0, Word(z[..k])), One(0 + k));
        ImageIs(0 + k);
      }
    }
  }

  lemma HeadLowNone()
    ensures HeadLow(0) == 0
  {
  }

  lemma {:induction false} HeadHighIs(z: seq<bool>)
    requires |z| <= 6
    ensures Shifts(BODY_BITS, Ups(6, Word(z))) == HeadHigh(Word(z))
  {
    hide Shifts, HeadHigh, Image, Xor, Ups, Word;
    UpsZero(6);
    ShiftsZero(BODY_BITS);
    if z == [] {
      NoBits();
      HeadHighNone();
    } else {
      var k := |z| - 1;
      assert z == z[..k] + [z[k]];
      WordSnoc(z[..k], z[k]);
      HeadHighIs(z[..k]);
      if z[k] {
        WordClear(z[..k]);
        HeadHighGrows(k, Word(z[..k]));
        UpsXor(6, Word(z[..k]), One(k));
        UpsAdd(6, k, 1);
        ShiftsXor(BODY_BITS, Ups(6, Word(z[..k])), One(6 + k));
        ImageIs(6 + k);
      }
    }
  }

  lemma HeadHighNone()
    ensures HeadHigh(0) == 0
  {
  }

  lemma {:induction false} FieldLowIs(z: seq<bool>)
    requires |z| <= 7
    ensures Shifts(BODY_BITS, FieldLow(Word(z))) == Ups(18, Word(z))
  {
    hide Shifts, FieldLow, Source, Xor, Ups, Word;
    UpsZero(18);
    ShiftsZero(BODY_BITS);
    if z == [] {
      NoBits();
      FieldLowNone();
    } else {
      var k := |z| - 1;
      assert z == z[..k] + [z[k]];
      WordSnoc(z[..k], z[k]);
      FieldLowIs(z[..k]);
      if z[k] {
        WordClear(z[..k]);
        FieldLowGrows(k, Word(z[..k]));
        UpsXor(18, Word(z[..k]), One(k));
        UpsAdd(18, k, 1);
        ShiftsXor(BODY_BITS, FieldLow(Word(z[..k])), Source(0 + k));
        SourceIs(0 + k);
      }
    }
  }

  lemma FieldLowNone()
    ensures FieldLow(0) == 0
  {
  }

  lemma {:induction false} FieldHighIs(z: seq<bool>)
    requires |z| <= 7
    ensures Shifts(BODY_BITS, FieldHigh(Word(z))) == Ups(25, Word(z))
  {
    hide Shifts, FieldHigh, Source, Xor, Ups, Word;
    UpsZero(25);
    ShiftsZero(BODY_BITS);
    if z == [] {
      NoBits();
      FieldHighNone();
    } else {
      var k := |z| - 1;
      assert z == z[..k] + [z[k]];
      WordSnoc(z[..k], z[k]);
      FieldHighIs(z[..k]);
      if z[k] {
        WordClear(z[..k]);
        FieldHighGrows(k, Word(z[..k]));
        UpsXor(25, Word(z[..k]), One(k));
        UpsAdd(25, k, 1);
        ShiftsXor(BODY_BITS, FieldHigh(Word(z[..k])), Source(7 + k));
        SourceIs(7 + k);
      }
    }
  }

  lemma FieldHighNone()
    ensures FieldHigh(0) == 0
  {
  }

  lemma SixUps(w: bv32)
    ensures Ups(6, w) == w << 6
  {
    hide Up;
    assert Ups(2, w) == Up(Ups(1, w)) == Up(Up(w));
    assert Ups(4, w) == Up(Ups(3, w)) == Up(Up(Ups(2, w)));
    assert Ups(6, w) == Up(Ups(5, w)) == Up(Up(Ups(4, w)));
    UpSix(w);
  }

  lemma UpSix(w: bv32)
    ensures Up(Up(Up(Up(Up(Up(w)))))) == w << 6
  {
  }

  lemma SevenUps(w: bv32)
    ensures Ups(7, w) == w << 7
  {
    hide Up;
    SixUps(w);
    assert Ups(7, w) == Up(Ups(6, w));
    UpSeventh(w);
  }

  lemma UpSeventh(w: bv32)
    ensures Up(w << 6) == w << 7
  {
  }

  lemma HeadQueryOfWords(m: nat, v: bv32, w: bv32)
    requires 0 < m <= HEAD && v < 0x0000_0040 && w < 0x0000_0040
    requires (HeadLow(v) ^ HeadHigh(w)) & Below(m + 5) == 0 && (v ^ (w << 6)) & Beyond(m) == 0
    ensures v == 0 && w == 0
  {
    match m
    case 1 =>
    case 2 =>
    case 3 =>
    case 4 =>
    case 5 =>
    case 6 =>
    case 7 =>
    case 8 =>
    case 9 =>
    case 10 =>
    case 11 =>
    case _ =>
  }

  /** A change of at most twelve bits of the body never changes the checksum only behind the start of the burst. */
  lemma HeadQuery(m: nat, v: bv32, w: bv32)
    requires 0 < m <= HEAD && Clear(v, High(6)) && Clear(w, High(6))
    requires Clear(Xor(HeadLow(v), HeadHigh(w)), Below(m + 5)) && Clear(Xor(v, Ups(6, w)), Beyond(m))
    ensures v == 0 && w == 0
  {
    hide HeadLow, HeadHigh, Below, Beyond, Ups;
    assert High(6) == 0xffff_ffc0;
    SixUps(w);
    HeadQueryOfWords(m, v, w);
  }

  lemma FieldQueryOfWords(m: nat, v: bv32, w: bv32)
    requires HEAD < m <= 26 && v < 0x0000_0080 && w < 0x0000_0080
    requires (FieldLow(v) ^ FieldHigh(w)) & Beyond(m) == 0 && (v ^ (w << 7)) & Below(m - 13) == 0
    ensures v == 0 && w == 0
  {
    match m
    case 13 =>
    case 14 =>
    case 15 =>
    case 16 =>
    case 17 =>
    case 18 =>
    case 19 =>
    case 20 =>
    case 21 =>
    case 22 =>
    case 23 =>
    case 24 =>
    case 25 =>
    case _ =>
  }

  /** No such change of the checksum comes from a change of only the body bits before the end of the burst. */
  lemma FieldQuery(m: nat, v: bv32, w: bv32)
    requires HEAD < m <= 26 && Clear(v, High(7)) && Clear(w, High(7))
    requires Clear(Xor(FieldLow(v), FieldHigh(w)), Beyond(m)) && Clear(Xor(v, Ups(7, w)), Below(m - 13))
    ensures v == 0 && w == 0
  {
    hide FieldLow, FieldHigh, Beyond, Below, Ups;
    assert High(7) == 0xffff_ff80;
    SevenUps(w);
    FieldQueryOfWords(m, v, w);
  }

  // ----- The theorem

  /** Where two bit strings differ. */
  function Differences(x: seq<bool>, y: seq<bool>): (z: seq<bool>)
    requires |x| == |y|
    ensures |z| == |x| && forall i :: 0 <= i < |x| ==> z[i] == (x[i] != y[i])
  {
    seq(|x|, i requires 0 <= i < |x| => x[i] != y[i])
  }

  lemma XorBit(a: bv32, b: bv32, o: bv32)
    ensures Xor(Xor(a, o), b) == Xor(Xor(a, b), o) && Xor(a, Xor(b, o)) == Xor(Xor(a, b), o)
    ensures Xor(Xor(a, o), Xor(b, o)) == Xor(a, b)
  {
    hide Xor;
    XorLaws(a, o, b);
    XorLaws(a, b, o);
    XorCommutes(o, b);
    XorTwice(o, a, b);
  }

  lemma {:induction false} WordOfDifferences(x: seq<bool>, y: seq<bool>)
    requires |x| == |y|
    ensures Word(Differences(x, y)) == Xor(Word(x), Word(y))
    decreases |x|
  {
    hide Word, Xor, One;
    if x == [] {
      NoBits();
      XorZero(0);
      assert Differences(x, y) == [];
    } else {
      var k := |x| - 1;
      var x0, y0 := x[..k], y[..k];
      WordOfDifferences(x0, y0);
      assert x == x0 + [x[k]] && y == y0 + [y[k]] && Differences(x, y) == Differences(x0, y0) + [x[k] != y[k]];
      WordSnoc(x0, x[k]);
      WordSnoc(y0, y[k]);
      WordSnoc(Differences(x0, y0), x[k] != y[k]);
      XorBit(Word(x0), Word(y0), One(k));
    }
  }

  ghost predicate NoneFrom(z: seq<bool>, k: nat) {
    forall i :: k <= i < |z| ==> !z[i]
  }

  ghost predicate NoneBelow(z: seq<bool>, k: nat) {
    forall i :: 0 <= i < k && i < |z| ==> !z[i]
  }

  lemma {:induction false} WordOfNone(z: seq<bool>)
    requires NoneFrom(z, 0)
    ensures Word(z) == 0
    decreases |z|
  {
    hide Word;
    if z == [] {
      NoBits();
    } else {
      var k := |z| - 1;
      assert z == z[..k] + [z[k]];
      WordSnoc(z[..k], z[k]);
      WordOfNone(z[..k]);
    }
  }

  /** A word without bits from position `m` on. */
  lemma EndClear(z: seq<bool>, m: nat)
    requires m <= |z| && NoneFrom(z, m)
    ensures Clear(Word(z), High(m))
  {
    hide Word, Clear, High, Ups, Xor;
    assert z == z[..m] + z[m..];
    WordAppend(z[..m], z[m..]);
    WordOfNone(z[m..]);
    UpsZero(m);
    XorZero(Word(z[..m]));
    WordClear(z[..m]);
  }

  lemma PrependClearLow(w: bv32, l: bv32)
    requires Clear(w, l)
    ensures Clear(Prepend(false, w), Prepend(true, l))
  {
  }

  lemma NoneClear(w: bv32)
    ensures Clear(w, Below(0))
  {
  }

  /** A word without bits below position `k`. */
  lemma {:induction false} StartClear(z: seq<bool>, k: nat)
    requires k <= |z| && k <= 31 && NoneBelow(z, k)
    ensures Clear(Word(z), Below(k))
    decreases k
  {
    hide Prepend, Below;
    if k == 0 {
      NoneClear(Word(z));
    } else {
      StartClear(z[1..], k - 1);
      PrependClearLow(Word(z[1..]), Below(k - 1));
      BelowStep(k - 1);
    }
  }

  lemma {:induction false} WordZero(z: seq<bool>)
    requires |z| == 32 && Word(z) == 0
    ensures NoneFrom(z, 0)
  {
    hide Word;
    var none := seq(32, _ => false);
    WordOfNone(none);
    WordInjective(z, none);
  }

  /** A burst that takes at most twelve bits of the body and leaves the first `m + 5` of the checksum
      alone changes nothing. */
  lemma FewBodyBits(m: nat, d: seq<bool>, e: seq<bool>)
    requires |d| == |e| == 32 && 0 < m <= HEAD && NoneBelow(d, m + 5) && NoneFrom(e, m)
    requires Word(d) == Shifts(BODY_BITS, Word(e))
    ensures Word(e) == 0
  {
    hide Word, Shifts, Ups, Xor, Clear, High, Below, HeadLow, HeadHigh;
    var x, y := e[..6], e[6..12];
    var v, w := Word(x), Word(y);
    HeadParts(e);
    ShiftsXor(BODY_BITS, v, Ups(6, w));
    HeadLowIs(x);
    NoUps(v);
    HeadHighIs(y);
    WordClear(x);
    WordClear(y);
    StartClear(d, m + 5);
    EndClear(e, m);
    BeyondIs(m);
    HeadQuery(m, v, w);
    UpsZero(6);
    XorZero(0);
  }

  lemma NoUps(w: bv32)
    ensures Ups(0, w) == w
  {
  }

  lemma HeadParts(e: seq<bool>)
    requires |e| == 32 && NoneFrom(e, 12)
    ensures Word(e) == Xor(Word(e[..6]), Ups(6, Word(e[6..12])))
  {
    hide Word, Ups, Xor;
    assert e == e[..6] + e[6..] && e[6..] == e[6..12] + e[12..];
    WordAppend(e[..6], e[6..]);
    WordAppend(e[6..12], e[12..]);
    WordOfNone(e[12..]);
    UpsZero(6);
    XorZero(Word(e[6..12]));
  }

  lemma FieldParts(d: seq<bool>)
    requires |d| == 32 && NoneBelow(d, 18)
    ensures Word(d) == Ups(18, Word(d[18..]))
    ensures Word(d[18..]) == Xor(Word(d[18..25]), Ups(7, Word(d[25..])))
  {
    hide Word, Ups, Xor;
    assert d == d[..18] + d[18..] && d[18..] == d[18..25] + d[25..];
    WordAppend(d[..18], d[18..]);
    WordAppend(d[18..25], d[25..]);
    WordOfNone(d[..18]);
    XorZero(Ups(18, Word(d[18..])));
  }

  /** A burst that takes more bits of the body, and so at most fourteen of the checksum, changes
      nothing either. */
  lemma FewFieldBits(m: nat, d: seq<bool>, e: seq<bool>)
    requires |d| == |e| == 32 && HEAD < m <= 26 && NoneBelow(d, m + 5) && NoneFrom(e, m)
    requires Word(d) == Shifts(BODY_BITS, Word(e))
    ensures Word(d) == 0
  {
    hide Word, Shifts, Ups, Xor, Clear, High, Below, FieldLow, FieldHigh;
    var x, y := d[18..25], d[25..];
    var v, w := Word(x), Word(y);
    FieldParts(d);
    FieldLowIs(x);
    FieldHighIs(y);
    ShiftsXor(BODY_BITS, FieldLow(v), FieldHigh(w));
    UpsXor(18, v, Ups(7, w));
    UpsAdd(18, 7, w);
    ShiftsInjective(BODY_BITS, Word(e), Xor(FieldLow(v), FieldHigh(w)));
    WordClear(x);
    WordClear(y);
    StartClear(d[18..], m - 13);
    EndClear(e, m);
    BeyondIs(m);
    FieldQuery(m, v, w);
    UpsZero(7);
    XorZero(0);
    UpsZero(18);
  }

  /** A burst of at most 27 bits across the border of checksum and body that passes changes nothing. */
  lemma NothingPasses(m: nat, d: seq<bool>, e: seq<bool>)
    requires |d| == |e| == 32 && 0 < m <= 26 && NoneBelow(d, m + 5) && NoneFrom(e, m)
    requires Word(d) == Shifts(BODY_BITS, Word(e))
    ensures NoneFrom(d, 0) && NoneFrom(e, 0)
  {
    hide Word, Shifts;
    ShiftsZero(BODY_BITS);
    if m <= HEAD {
      FewBodyBits(m, d, e);
    } else {
      FewFieldBits(m, d, e);
      ShiftsInjective(BODY_BITS, Word(e), 0);
    }
    WordZero(d);
    WordZero(e);
  }

  /** The bits of the checksum, of the first four bytes of the body, and of the rest. */
  lemma PacketBits(p: Packet)
    ensures Bits(p)[..32] == Bits(p[..4]) && Bits(p)[32..64] == Bits(p[4..8]) && Bits(p)[64..] == Bits(p[8..])
  {
    hide Bits;
    BitsSlice(p, 8);
    BitsSlice(p, 4);
    BitsSlice(p[4..], 4);
    assert p[4..][..4] == p[4..8];
    assert Bits(p)[32..64] == Bits(p)[32..][..32];
  }

  lemma StraddlingDetected(p: Packet, q: Packet, at: nat, n: nat)
    requires Verified(p) && Burst(Bits(p), Bits(q), at, n) && n <= 27 && at < 32 < at + n
    ensures !Verified(q)
  {
    hide Bits, Verified, Word, LoadWord, Shifts, Xor;
    var m := at + n - 32;
    var a, b := Bits(p), Bits(q);
    PacketBits(p);
    PacketBits(q);
    var d, e := Differences(Bits(p[..4]), Bits(q[..4])), Differences(Bits(p[4..8]), Bits(q[4..8]));
    assert forall i :: 0 <= i < at ==> a[i] == a[..at][i] && b[i] == b[..at][i];
    assert forall i :: at + n <= i < |a| ==> a[i] == a[at + n..][i - at - n] && b[i] == b[at + n..][i - at - n];
    assert a[64..] == b[64..];
    BitsInjective(p[8..], q[8..]);
    assert forall i :: m <= i < 32 ==> e[i] == (a[32 + i] != b[32 + i]);
    assert forall i :: 64 <= i < |a| ==> a[i] == a[64..][i - 64] == b[64..][i - 64] == b[i];
    var i :| 0 <= i < |a| && a[i] != b[i];
    assert if i < 32 then d[i] else e[i - 32];
    if Verified(q) {
      HeadChangePassesIff(p, q);
      LoadIsWord(p[..4]);
      LoadIsWord(q[..4]);
      LoadIsWord(p[4..8]);
      LoadIsWord(q[4..8]);
      WordOfDifferences(Bits(p[..4]), Bits(q[..4]));
      WordOfDifferences(Bits(p[4..8]), Bits(q[4..8]));
      NothingPasses(m, d, e);
    }
  }

  /** A verified packet hit by one burst of bit errors no longer verifies, if the burst has at most 27
      bits, or has at most 32 and lies in the body or in the checksum alone. */
  lemma BurstNoticed(p: Packet, q: Packet, at: nat, n: nat)
    requires Verified(p) && Burst(Bits(p), Bits(q), at, n) && (n <= 27 || at + n <= 32 || 32 <= at)
    ensures !Verified(q)
  {
    hide Bits, Verified, LoadWord;
    var a, b := Bits(p), Bits(q);
    PacketBits(p);
    PacketBits(q);
    BitsSlice(p, 4);
    BitsSlice(q, 4);
    if at + n <= 32 {
      assert a[32..] == a[at + n..][32 - at - n..] && b[32..] == b[at + n..][32 - at - n..];
      BitsInjective(p[4..], q[4..]);
      assert p[..4] != q[..4] by {
        assert a == a[..32] + a[32..] && b == b[..32] + b[32..];
      }
      CorruptionDetected(p, q, 0, 0);
    } else if 32 <= at {
      assert a[..32] == a[..at][..32] && b[..32] == b[..at][..32];
      BitsInjective(p[..4], q[..4]);
      assert a[32..][..at - 32] == a[..at][32..] && b[32..][..at - 32] == b[..at][32..];
      assert a[32..][at - 32 + n..] == a[at + n..] && b[32..][at - 32 + n..] == b[at + n..];
      assert a == a[..32] + a[32..] && b == b[..32] + b[32..];
      CorruptionDetected(p, q, at - 32, n);
    } else {
      StraddlingDetected(p, q, at, n);
    }
  }
}
