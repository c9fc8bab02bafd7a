/** ChaCha20 on machine words, and the worked examples of sections 2.1.1 and 2.3.2 of RFC 7539. */
module ChaChaVectors {
  import opened Align
  import opened ExclusiveOr
  import opened Words
  import opened BitWords
  import opened Rotations
  import opened ChaCha20

  // ----- the quarter round and the rounds, on bit vectors

  function Both(x: bv32, y: bv32): bv32 { x ^ y }
  function Left1(w: bv32): bv32 { w.RotateLeft(16) }
  function Left2(w: bv32): bv32 { w.RotateLeft(12) }
  function Left3(w: bv32): bv32 { w.RotateLeft(8) }
  function Left4(w: bv32): bv32 { w.RotateLeft(7) }

  function MachineQuarter(a: bv32, b: bv32, c: bv32, d: bv32): (bv32, bv32, bv32, bv32) {
    var a1 := Plus32(a, b);
    var d1 := Left1(Both(d, a1));
    var c1 := Plus32(c, d1);
    var b1 := Left2(Both(b, c1));
    var a2 := Plus32(a1, b1);
    var d2 := Left3(Both(d1, a2));
    var c2 := Plus32(c1, d2);
    (a2, Left4(Both(b1, c2)), c2, d2)
  }

  type Words16 = v: seq<bv32> | |v| == 16 witness seq(16, i => 0)

  function MachineColumns(v: Words16): Words16 {
    hide MachineQuarter;
    var (a0, b0, c0, d0) := MachineQuarter(v[0], v[4], v[8], v[12]);
    var (a1, b1, c1, d1) := MachineQuarter(v[1], v[5], v[9], v[13]);
    var (a2, b2, c2, d2) := MachineQuarter(v[2], v[6], v[10], v[14]);
    var (a3, b3, c3, d3) := MachineQuarter(v[3], v[7], v[11], v[15]);
    [a0, a1, a2, a3, b0, b1, b2, b3, c0, c1, c2, c3, d0, d1, d2, d3]
  }

  function MachineDiagonals(v: Words16): Words16 {
    hide MachineQuarter;
    var (a0, b1, c2, d3) := MachineQuarter(v[0], v[5], v[10], v[15]);
    var (a1, b2, c3, d0) := MachineQuarter(v[1], v[6], v[11], v[12]);
    var (a2, b3, c0, d1) := MachineQuarter(v[2], v[7], v[8], v[13]);
    var (a3, b0, c1, d2) := MachineQuarter(v[3], v[4], v[9], v[14]);
    [a0, a1, a2, a3, b0, b1, b2, b3, c0, c1, c2, c3, d0, d1, d2, d3]
  }

  function Values(v: seq<bv32>): (r: seq<nat>)
    ensures |r| == |v|
  {
    seq(|v|, i requires 0 <= i < |v| => V32(v[i]))
  }

  lemma BothIs(x: bv32, y: bv32)
    ensures Xor(V32(x), V32(y)) == V32(Both(x, y))
  {
    hide V32, Xor;
    Xor32(x, y);
  }

  lemma Left1Is(w: bv32)
    ensures RotateLeft(V32(w), 16, 32) == V32(Left1(w))
  {
    hide V32, RotateRight, RotateLeft, Pow2;
    var y := Left1(w);
    Rotate32By16(y);
    Left1Back(w);
    IsWord(y);
    RotateBack(V32(y), 16, 32);
  }

  lemma Left1Back(w: bv32)
    ensures Left1(w).RotateRight(16) == w
  {
  }

  lemma Left2Is(w: bv32)
    ensures RotateLeft(V32(w), 12, 32) == V32(Left2(w))
  {
    hide V32, RotateRight, RotateLeft, Pow2;
    var y := Left2(w);
    Rotate32By12(y);
    Left2Back(w);
    IsWord(y);
    RotateBack(V32(y), 12, 32);
  }

  lemma Left2Back(w: bv32)
    ensures Left2(w).RotateRight(12) == w
  {
  }

  lemma Left3Is(w: bv32)
    ensures RotateLeft(V32(w), 8, 32) == V32(Left3(w))
  {
    hide V32, RotateRight, RotateLeft, Pow2;
    var y := Left3(w);
    Rotate32By8(y);
    Left3Back(w);
    IsWord(y);
    RotateBack(V32(y), 8, 32);
  }

  lemma Left3Back(w: bv32)
    ensures Left3(w).RotateRight(8) == w
  {
  }

  lemma Left4Is(w: bv32)
    ensures RotateLeft(V32(w), 7, 32) == V32(Left4(w))
  {
    hide V32, RotateRight, RotateLeft, Pow2;
    var y := Left4(w);
    Rotate32By7(y);
    Left4Back(w);
    IsWord(y);
    RotateBack(V32(y), 7, 32);
  }

  lemma Left4Back(w: bv32)
    ensures Left4(w).RotateRight(7) == w
  {
  }

  lemma IsWord(w: bv32)
    ensures Fits(V32(w), 32)
  {
    Powers();
    hide V32;
    InRange32(w);
  }

  lemma TurnsAre(x: bv32, y: bv32)
    ensures Turn(V32(x), V32(y), 16) == V32(Left1(Both(x, y)))
    ensures Turn(V32(x), V32(y), 12) == V32(Left2(Both(x, y)))
    ensures Turn(V32(x), V32(y), 8) == V32(Left3(Both(x, y)))
    ensures Turn(V32(x), V32(y), 7) == V32(Left4(Both(x, y)))
  {
    hide V32, RotateLeft, Xor, Both, Left1, Left2, Left3, Left4;
    BothIs(x, y);
    Left1Is(Both(x, y));
    Left2Is(Both(x, y));
    Left3Is(Both(x, y));
    Left4Is(Both(x, y));
  }

  lemma SumIs(x: bv32, y: bv32)
    ensures Plus(V32(x), V32(y)) == V32(Plus32(x, y))
  {
    hide V32, Plus32;
    Powers();
    Sum32(x, y);
  }

  /** On machine words, the quarter round is what the processor computes. */
  lemma QuarterIs(a: bv32, b: bv32, c: bv32, d: bv32)
    ensures var (a', b', c', d') := MachineQuarter(a, b, c, d);
      Quarter(V32(a), V32(b), V32(c), V32(d)) == (V32(a'), V32(b'), V32(c'), V32(d'))
  {
    hide V32, Plus32, Both, Left1, Left2, Left3, Left4, Plus, Turn;
    var a1 := Plus32(a, b);
    SumIs(a, b);
    var d1 := Left1(Both(d, a1));
    TurnsAre(d, a1);
    var c1 := Plus32(c, d1);
    SumIs(c, d1);
    var b1 := Left2(Both(b, c1));
    TurnsAre(b, c1);
    var a2 := Plus32(a1, b1);
    SumIs(a1, b1);
    var d2 := Left3(Both(d1, a2));
    TurnsAre(d1, a2);
    SumIs(c1, d2);
    TurnsAre(b1, Plus32(c1, d2));
  }

  lemma At(v: seq<bv32>)
    ensures forall i :: 0 <= i < |v| ==> Values(v)[i] == V32(v[i])
  {
  }

  lemma Listed(a0: bv32, a1: bv32, a2: bv32, a3: bv32, b0: bv32, b1: bv32, b2: bv32, b3: bv32,
               c0: bv32, c1: bv32, c2: bv32, c3: bv32, d0: bv32, d1: bv32, d2: bv32, d3: bv32)
    ensures Values([a0, a1, a2, a3, b0, b1, b2, b3, c0, c1, c2, c3, d0, d1, d2, d3])
         == [V32(a0), V32(a1), V32(a2), V32(a3), V32(b0), V32(b1), V32(b2), V32(b3),
             V32(c0), V32(c1), V32(c2), V32(c3), V32(d0), V32(d1), V32(d2), V32(d3)]
  {
    hide V32;
  }

  lemma ColumnsAre(v: Words16)
    ensures Columns(Values(v)) == Values(MachineColumns(v))
  {
    hide V32, MachineQuarter, Quarter, Columns, Values;
    var (a0, b0, c0, d0) := MachineQuarter(v[0], v[4], v[8], v[12]);
    var (a1, b1, c1, d1) := MachineQuarter(v[1], v[5], v[9], v[13]);
    var (a2, b2, c2, d2) := MachineQuarter(v[2], v[6], v[10], v[14]);
    var (a3, b3, c3, d3) := MachineQuarter(v[3], v[7], v[11], v[15]);
    At(v);
    Listed(a0, a1, a2, a3, b0, b1, b2, b3, c0, c1, c2, c3, d0, d1, d2, d3);
    ColumnsIs(Values(v));
    QuarterIs(v[0], v[4], v[8], v[12]);
    QuarterIs(v[1], v[5], v[9], v[13]);
    QuarterIs(v[2], v[6], v[10], v[14]);
    QuarterIs(v[3], v[7], v[11], v[15]);
  }

  lemma DiagonalsAre(v: Words16)
    ensures Diagonals(Values(v)) == Values(MachineDiagonals(v))
  {
    hide V32, MachineQuarter, Quarter, Diagonals, Values;
    var (a0, b1, c2, d3) := MachineQuarter(v[0], v[5], v[10], v[15]);
    var (a1, b2, c3, d0) := MachineQuarter(v[1], v[6], v[11], v[12]);
    var (a2, b3, c0, d1) := MachineQuarter(v[2], v[7], v[8], v[13]);
    var (a3, b0, c1, d2) := MachineQuarter(v[3], v[4], v[9], v[14]);
    At(v);
    Listed(a0, a1, a2, a3, b0, b1, b2, b3, c0, c1, c2, c3, d0, d1, d2, d3);
    DiagonalsIs(Values(v));
    QuarterIs(v[0], v[5], v[10], v[15]);
    QuarterIs(v[1], v[6], v[11], v[12]);
    QuarterIs(v[2], v[7], v[8], v[13]);
    QuarterIs(v[3], v[4], v[9], v[14]);
  }

  lemma DoubleRoundIs(v: Words16)
    ensures Diagonals(Columns(Values(v))) == Values(MachineDiagonals(MachineColumns(v)))
  {
    hide V32, Columns, Diagonals, MachineColumns, MachineDiagonals;
    ColumnsAre(v);
    DiagonalsAre(MachineColumns(v));
  }

  // ----- section 2.1.1 of RFC 7539

  /** The quarter round on the four numbers of the example. */
  lemma QuarterExample()
    ensures Quarter(0x1111_1111, 0x0102_0304, 0x9b8d_6f43, 0x0123_4567)
         == (0xea2a_92f4, 0xcb1c_f8ce, 0x4581_472e, 0x5881_c4bb)
  {
    QuarterIs(0x1111_1111, 0x0102_0304, 0x9b8d_6f43, 0x0123_4567);
    hide Quarter;
  }

  // ----- section 2.3.2 of RFC 7539

  /** The words before the first double round, and after each. */
  const STATE_0: Words16 := [
    0x6170_7865, 0x3320_646e, 0x7962_2d32, 0x6b20_6574, 0x0302_0100, 0x0706_0504, 0x0b0a_0908, 0x0f0e_0d0c,
    0x1312_1110, 0x1716_1514, 0x1b1a_1918, 0x1f1e_1d1c, 0x0000_0001, 0x0900_0000, 0x4a00_0000, 0x0000_0000
  ]
  const STATE_1: Words16 := [
    0xcd52_e917, 0x85ab_03b4, 0xb345_7395, 0xf96d_e7dd, 0xc4b7_cd22, 0x5c2e_187a, 0xc95e_b461, 0x316c_801a,
    0x7bf7_d740, 0x7edd_d644, 0xf1a1_bdf5, 0x7612_46ca, 0x6b0d_58a3, 0x6798_471a, 0xd737_f167, 0xf173_888d
  ]
  const STATE_2: Words16 := [
    0xcf1a_7584, 0x0489_27ec, 0x5405_1fda, 0xc244_ff28, 0x901d_2f40, 0x7974_b81c, 0x378d_cfb4, 0xcd47_fd0e,
    0x2daf_b216, 0x27c8_9cd6, 0xcd3c_9aa0, 0x79fc_89c7, 0x10ae_f18d, 0x1621_8765, 0x68f7_6705, 0x04d6_ee22
  ]
  const STATE_3: Words16 := [
    0x03a1_4032, 0x66b1_5927, 0x9d6b_6b42, 0xb84c_4109, 0xa714_3ae0, 0xa09b_33dd, 0xa5da_af88, 0x2fd9_1a73,
    0xc90c_6b18, 0x5a20_2413, 0xc20e_01b6, 0x72cd_6b74, 0xba35_d777, 0xb360_f1bf, 0x8178_315b, 0x2cd1_1b1a
  ]
  const STATE_4: Words16 := [
    0x9a2d_3589, 0x0b23_fc4e, 0x40af_3b6b, 0xceea_8144, 0x0a1b_ffc6, 0x5e59_93f7, 0x9904_c2e7, 0x0d33_4718,
    0xe46c_6354, 0xc950_3229, 0x04fe_f5aa, 0xf893_3f72, 0x2687_d476, 0x54e6_5231, 0x3594_ffc5, 0x2b3b_b2ca
  ]
  const STATE_5: Words16 := [
    0xc533_18c5, 0xca32_5d96, 0x7e7d_11cb, 0x3404_e2ca, 0x26d7_cf73, 0x6088_d379, 0xc0f0_e9bd, 0xe310_cdb9,
    0xae2c_a8db, 0x42f6_7c72, 0x7166_9aca, 0x975c_171d, 0x9e5e_c228, 0x7d85_a9f3, 0x201d_0756, 0x63fa_6953
  ]
  const STATE_6: Words16 := [
    0x04a3_131a, 0x6617_6309, 0x0415_bab1, 0x61b8_80a2, 0x36cc_86c7, 0xbf8a_4465, 0xf77d_d720, 0xfc0b_dc90,
    0x07d1_3aca, 0xeb0b_e9af, 0x6159_9491, 0x9185_12dc, 0x33b6_686d, 0x795c_c671, 0xc004_9972, 0xa0a8_1bde
  ]
  const STATE_7: Words16 := [
    0x9b70_f51f, 0x7ea8_ac11, 0x21e5_4da9, 0xca39_3b2f, 0x93b0_8686, 0x6a4c_50ae, 0x1921_2a5a, 0x9b03_2958,
    0xd839_165e, 0x4c06_e28a, 0xd3fd_e99e, 0x26ac_c13d, 0xa609_f555, 0x2c24_6549, 0x9515_1853, 0x2c84_7a0d
  ]
  const STATE_8: Words16 := [
    0xca5c_85dd, 0x93a4_f90e, 0xd9f0_df58, 0x26dd_82dd, 0x9825_63f8, 0x712a_a9ff, 0x279a_61e8, 0x970f_72bd,
    0x1c25_931a, 0x5180_bb10, 0x779c_27e7, 0x5407_7e08, 0xa9b7_51fb, 0x382f_3ce2, 0x8db1_757d, 0xcc38_080b
  ]
  const STATE_9: Words16 := [
    0xb6b8_7de6, 0x9a01_6148, 0x9385_9815, 0x4915_e6cc, 0xdc33_c122, 0x98e1_8fa3, 0x5ffb_e8fc, 0xf715_4b8b,
    0x28c1_fcb3, 0xc4b3_8f9d, 0x83e2_f5d7, 0x7d24_b98b, 0x2107_8b22, 0xb193_e7a3, 0xb2f4_9389, 0x6cde_6026
  ]
  const STATE_10: Words16 := [
    0x8377_78ab, 0xe238_d763, 0xa67a_e21e, 0x5950_bb2f, 0xc4f2_d0c7, 0xfc62_bb2f, 0x8fa0_18fc, 0x3f5e_c7b7,
    0x3352_71c2, 0xf294_89f3, 0xeabd_a8fc, 0x82e4_6ebd, 0xd19c_12b4, 0xb04e_16de, 0x9e83_d0cb, 0x4e3c_50a2
  ]

  lemma Round0()
    ensures MachineDiagonals(MachineColumns(STATE_0)) == STATE_1
  {
    hide V32, Values;
  }

  lemma Round1()
    ensures MachineDiagonals(MachineColumns(STATE_1)) == STATE_2
  {
    hide V32, Values;
  }

  lemma Round2()
    ensures MachineDiagonals(MachineColumns(STATE_2)) == STATE_3
  {
    hide V32, Values;
  }

  lemma Round3()
    ensures MachineDiagonals(MachineColumns(STATE_3)) == STATE_4
  {
    hide V32, Values;
  }

  lemma Round4()
    ensures MachineDiagonals(MachineColumns(STATE_4)) == STATE_5
  {
    hide V32, Values;
  }

  lemma Round5()
    ensures MachineDiagonals(MachineColumns(STATE_5)) == STATE_6
  {
    hide V32, Values;
  }

  lemma Round6()
    ensures MachineDiagonals(MachineColumns(STATE_6)) == STATE_7
  {
    hide V32, Values;
  }

  lemma Round7()
    ensures MachineDiagonals(MachineColumns(STATE_7)) == STATE_8
  {
    hide V32, Values;
  }

  lemma Round8()
    ensures MachineDiagonals(MachineColumns(STATE_8)) == STATE_9
  {
    hide V32, Values;
  }

  lemma Round9()
    ensures MachineDiagonals(MachineColumns(STATE_9)) == STATE_10
  {
    hide V32, Values;
  }

  lemma NextRound(i: nat, v: Words16, w: Words16)
    requires Rounds(Values(STATE_0), i) == Values(v) && MachineDiagonals(MachineColumns(v)) == w
    ensures Rounds(Values(STATE_0), i + 1) == Values(w)
  {
    DoubleRoundIs(v);
    hide Columns, Diagonals, Values, MachineColumns, MachineDiagonals;
  }

  lemma FirstRounds()
    ensures Rounds(Values(STATE_0), 5) == Values(STATE_5)
  {
    hide Rounds, Values, MachineColumns, MachineDiagonals;
    NoRounds();
    Round0();
    NextRound(0, STATE_0, STATE_1);
    Round1();
    NextRound(1, STATE_1, STATE_2);
    Round2();
    NextRound(2, STATE_2, STATE_3);
    Round3();
    NextRound(3, STATE_3, STATE_4);
    Round4();
    NextRound(4, STATE_4, STATE_5);
  }

  lemma AllRounds()
    ensures Rounds(Values(STATE_0), 10) == Values(STATE_10)
  {
    hide Rounds, Values, MachineColumns, MachineDiagonals;
    FirstRounds();
    Round5();
    NextRound(5, STATE_5, STATE_6);
    Round6();
    NextRound(6, STATE_6, STATE_7);
    Round7();
    NextRound(7, STATE_7, STATE_8);
    Round8();
    NextRound(8, STATE_8, STATE_9);
    Round9();
    NextRound(9, STATE_9, STATE_10);
  }

  lemma NoRounds()
    ensures Rounds(Values(STATE_0), 0) == Values(STATE_0)
  {
  }

  /** The key and the nonce of the example. */
  const EXAMPLE_KEY: Key := Key([
    0x00, 0x01, 0x02, 0x03, 0x04, 0x05, 0x06, 0x07, 0x08, 0x09, 0x0a, 0x0b, 0x0c, 0x0d, 0x0e, 0x0f,
    0x10, 0x11, 0x12, 0x13, 0x14, 0x15, 0x16, 0x17, 0x18, 0x19, 0x1a, 0x1b, 0x1c, 0x1d, 0x1e, 0x1f
  ], [0x0900_0000, 0x4a00_0000, 0])

  /** The words of the block. */
  const BLOCK: Words16 := [
    0xe4e7_f110, 0x1559_3bd1, 0x1fdd_0f50, 0xc471_20a3, 0xc7f4_d1c7, 0x0368_c033, 0x9aaa_2204, 0x4e6c_d4c3,
    0x4664_82d2, 0x09aa_9f07, 0x05d7_c214, 0xa202_8bd9, 0xd19c_12b5, 0xb94e_16de, 0xe883_d0cb, 0x4e3c_50a2
  ]

  lemma KeyWords()
    ensures Load(EXAMPLE_KEY.key, 0, 4) == 0x0302_0100
    ensures Load(EXAMPLE_KEY.key, 1, 4) == 0x0706_0504
    ensures Load(EXAMPLE_KEY.key, 2, 4) == 0x0b0a_0908
    ensures Load(EXAMPLE_KEY.key, 3, 4) == 0x0f0e_0d0c
    ensures Load(EXAMPLE_KEY.key, 4, 4) == 0x1312_1110
    ensures Load(EXAMPLE_KEY.key, 5, 4) == 0x1716_1514
    ensures Load(EXAMPLE_KEY.key, 6, 4) == 0x1b1a_1918
    ensures Load(EXAMPLE_KEY.key, 7, 4) == 0x1f1e_1d1c
  {
    hide FromBytes, Load;
    Load4(EXAMPLE_KEY.key, 0);
    Load4(EXAMPLE_KEY.key, 1);
    Load4(EXAMPLE_KEY.key, 2);
    Load4(EXAMPLE_KEY.key, 3);
    Load4(EXAMPLE_KEY.key, 4);
    Load4(EXAMPLE_KEY.key, 5);
    Load4(EXAMPLE_KEY.key, 6);
    Load4(EXAMPLE_KEY.key, 7);
  }

  lemma Start()
    ensures Init(EXAMPLE_KEY, 1) == Values(STATE_0)
  {
    KeyWords();
    hide Load;
  }

  lemma LowSums()
    ensures Plus32(STATE_0[0], STATE_10[0]) == BLOCK[0]
    ensures Plus32(STATE_0[1], STATE_10[1]) == BLOCK[1]
    ensures Plus32(STATE_0[2], STATE_10[2]) == BLOCK[2]
    ensures Plus32(STATE_0[3], STATE_10[3]) == BLOCK[3]
    ensures Plus32(STATE_0[4], STATE_10[4]) == BLOCK[4]
    ensures Plus32(STATE_0[5], STATE_10[5]) == BLOCK[5]
    ensures Plus32(STATE_0[6], STATE_10[6]) == BLOCK[6]
    ensures Plus32(STATE_0[7], STATE_10[7]) == BLOCK[7]
  {
    hide V32, Values;
  }

  lemma HighSums()
    ensures Plus32(STATE_0[8], STATE_10[8]) == BLOCK[8]
    ensures Plus32(STATE_0[9], STATE_10[9]) == BLOCK[9]
    ensures Plus32(STATE_0[10], STATE_10[10]) == BLOCK[10]
    ensures Plus32(STATE_0[11], STATE_10[11]) == BLOCK[11]
    ensures Plus32(STATE_0[12], STATE_10[12]) == BLOCK[12]
    ensures Plus32(STATE_0[13], STATE_10[13]) == BLOCK[13]
    ensures Plus32(STATE_0[14], STATE_10[14]) == BLOCK[14]
    ensures Plus32(STATE_0[15], STATE_10[15]) == BLOCK[15]
  {
    hide V32, Values;
  }

  lemma BlockIs()
    ensures Block(Init(EXAMPLE_KEY, 1)) == Values(BLOCK)
  {
    hide Rounds, Init, Values;
    Start();
    AllRounds();
    forall i | 0 <= i < 16
      ensures Plus(Values(STATE_0)[i], Values(STATE_10)[i]) == Values(BLOCK)[i]
    {
      AddedAt(i);
    }
    hide Plus;
  }

  lemma AddedAt(i: nat)
    requires i < 16
    ensures Plus(Values(STATE_0)[i], Values(STATE_10)[i]) == Values(BLOCK)[i]
  {
    hide V32, Plus, Plus32;
    LowSums();
    HighSums();
    SumIs(STATE_0[i], STATE_10[i]);
  }

  lemma FirstWords()
    ensures ToBytes(0xe4e7_f110, 4) == [0x10, 0xf1, 0xe7, 0xe4]
    ensures ToBytes(0x1559_3bd1, 4) == [0xd1, 0x3b, 0x59, 0x15]
    ensures ToBytes(0x1fdd_0f50, 4) == [0x50, 0x0f, 0xdd, 0x1f]
    ensures ToBytes(0xc471_20a3, 4) == [0xa3, 0x20, 0x71, 0xc4]
  {
    hide ToBytes;
    Bytes4(0x10, 0xf1, 0xe7, 0xe4);
    Bytes4(0xd1, 0x3b, 0x59, 0x15);
    Bytes4(0x50, 0x0f, 0xdd, 0x1f);
    Bytes4(0xa3, 0x20, 0x71, 0xc4);
  }

  lemma SecondWords()
    ensures ToBytes(0xc7f4_d1c7, 4) == [0xc7, 0xd1, 0xf4, 0xc7]
    ensures ToBytes(0x0368_c033, 4) == [0x33, 0xc0, 0x68, 0x03]
    ensures ToBytes(0x9aaa_2204, 4) == [0x04, 0x22, 0xaa, 0x9a]
    ensures ToBytes(0x4e6c_d4c3, 4) == [0xc3, 0xd4, 0x6c, 0x4e]
  {
    hide ToBytes;
    Bytes4(0xc7, 0xd1, 0xf4, 0xc7);
    Bytes4(0x33, 0xc0, 0x68, 0x03);
    Bytes4(0x04, 0x22, 0xaa, 0x9a);
    Bytes4(0xc3, 0xd4, 0x6c, 0x4e);
  }

  lemma ThirdWords()
    ensures ToBytes(0x4664_82d2, 4) == [0xd2, 0x82, 0x64, 0x46]
    ensures ToBytes(0x09aa_9f07, 4) == [0x07, 0x9f, 0xaa, 0x09]
    ensures ToBytes(0x05d7_c214, 4) == [0x14, 0xc2, 0xd7, 0x05]
    ensures ToBytes(0xa202_8bd9, 4) == [0xd9, 0x8b, 0x02, 0xa2]
  {
    hide ToBytes;
    Bytes4(0xd2, 0x82, 0x64, 0x46);
    Bytes4(0x07, 0x9f, 0xaa, 0x09);
    Bytes4(0x14, 0xc2, 0xd7, 0x05);
    Bytes4(0xd9, 0x8b, 0x02, 0xa2);
  }

  lemma FourthWords()
    ensures ToBytes(0xd19c_12b5, 4) == [0xb5, 0x12, 0x9c, 0xd1]
    ensures ToBytes(0xb94e_16de, 4) == [0xde, 0x16, 0x4e, 0xb9]
    ensures ToBytes(0xe883_d0cb, 4) == [0xcb, 0xd0, 0x83, 0xe8]
    ensures ToBytes(0x4e3c_50a2, 4) == [0xa2, 0x50, 0x3c, 0x4e]
  {
    hide ToBytes;
    Bytes4(0xb5, 0x12, 0x9c, 0xd1);
    Bytes4(0xde, 0x16, 0x4e, 0xb9);
    Bytes4(0xcb, 0xd0, 0x83, 0xe8);
    Bytes4(0xa2, 0x50, 0x3c, 0x4e);
  }

  /** The words of the block, as numbers. */
  const FIRST_WORDS: seq<nat> := [
    0xe4e7_f110, 0x1559_3bd1, 0x1fdd_0f50, 0xc471_20a3, 0xc7f4_d1c7, 0x0368_c033, 0x9aaa_2204, 0x4e6c_d4c3
  ]
  const LAST_WORDS: seq<nat> := [
    0x4664_82d2, 0x09aa_9f07, 0x05d7_c214, 0xa202_8bd9, 0xd19c_12b5, 0xb94e_16de, 0xe883_d0cb, 0x4e3c_50a2
  ]

  lemma BlockValues()
    ensures Values(BLOCK) == FIRST_WORDS + LAST_WORDS
  {
  }

  /** The serialised block, in two halves. */
  const FIRST_BYTES: seq<Byte> :=
    [0x10, 0xf1, 0xe7, 0xe4] + [0xd1, 0x3b, 0x59, 0x15] +
    [0x50, 0x0f, 0xdd, 0x1f] + [0xa3, 0x20, 0x71, 0xc4] +
    [0xc7, 0xd1, 0xf4, 0xc7] + [0x33, 0xc0, 0x68, 0x03] +
    [0x04, 0x22, 0xaa, 0x9a] + [0xc3, 0xd4, 0x6c, 0x4e]
  const LAST_BYTES: seq<Byte> :=
    [0xd2, 0x82, 0x64, 0x46] + [0x07, 0x9f, 0xaa, 0x09] +
    [0x14, 0xc2, 0xd7, 0x05] + [0xd9, 0x8b, 0x02, 0xa2] +
    [0xb5, 0x12, 0x9c, 0xd1] + [0xde, 0x16, 0x4e, 0xb9] +
    [0xcb, 0xd0, 0x83, 0xe8] + [0xa2, 0x50, 0x3c, 0x4e]

  lemma FirstBytes()
    ensures AllBytes(FIRST_WORDS, 4) == FIRST_BYTES
  {
    hide ToBytes, AllBytes;
    FirstWords();
    SecondWords();
    AllBytes8(0xe4e7_f110, 0x1559_3bd1, 0x1fdd_0f50, 0xc471_20a3,
              0xc7f4_d1c7, 0x0368_c033, 0x9aaa_2204, 0x4e6c_d4c3, 4);
  }

  lemma LastBytes()
    ensures AllBytes(LAST_WORDS, 4) == LAST_BYTES
  {
    hide ToBytes, AllBytes;
    ThirdWords();
    FourthWords();
    AllBytes8(0x4664_82d2, 0x09aa_9f07, 0x05d7_c214, 0xa202_8bd9,
              0xd19c_12b5, 0xb94e_16de, 0xe883_d0cb, 0x4e3c_50a2, 4);
  }

  /** The first block of the key stream. */
  lemma BlockExample()
    ensures BlockBytes(EXAMPLE_KEY, 1) == FIRST_BYTES + LAST_BYTES
  {
    BlockIs();
    BlockValues();
    hide Block, Init, AllBytes, Values;
    FirstBytes();
    LastBytes();
    AllBytesConcat(FIRST_WORDS, LAST_WORDS, 4);
  }
}
