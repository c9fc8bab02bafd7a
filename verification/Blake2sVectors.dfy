/** BLAKE2s on machine words, and the worked example of Appendix B of RFC 7693: the hash of "abc", round by round. */
module Blake2sVectors {
  import opened Align
  import opened ExclusiveOr
  import opened Words
  import opened BitWords
  import opened Rotations
  import opened BlockHash
  import opened Blake2

  // ----- the function G and the rounds, on bit vectors

  function Both(x: bv32, y: bv32): bv32 { x ^ y }
  function Right1(w: bv32): bv32 { w.RotateRight(16) }
  function Right2(w: bv32): bv32 { w.RotateRight(12) }
  function Right3(w: bv32): bv32 { w.RotateRight(8) }
  function Right4(w: bv32): bv32 { w.RotateRight(7) }

  function MachineG(a: bv32, b: bv32, c: bv32, d: bv32, x: bv32, y: bv32): (bv32, bv32, bv32, bv32) {
    var a1 := Plus32(a, Plus32(b, x));
    var d1 := Right1(Both(d, a1));
    var c1 := Plus32(c, d1);
    var b1 := Right2(Both(b, c1));
    var a2 := Plus32(a1, Plus32(b1, y));
    var d2 := Right3(Both(d1, a2));
    var c2 := Plus32(c1, d2);
    (a2, Right4(Both(b1, c2)), c2, d2)
  }

  type Block = m: seq<bv32> | |m| == 16 witness seq(16, i => 0)

  function Columns(v: Block, m: Block, s: Row): Block {
    hide MachineG;
    var (a0, b0, c0, d0) := MachineG(v[0], v[4], v[8], v[12], m[s[0]], m[s[1]]);
    var (a1, b1, c1, d1) := MachineG(v[1], v[5], v[9], v[13], m[s[2]], m[s[3]]);
    var (a2, b2, c2, d2) := MachineG(v[2], v[6], v[10], v[14], m[s[4]], m[s[5]]);
    var (a3, b3, c3, d3) := MachineG(v[3], v[7], v[11], v[15], m[s[6]], m[s[7]]);
    [a0, a1, a2, a3, b0, b1, b2, b3, c0, c1, c2, c3, d0, d1, d2, d3]
  }

  function Diagonals(v: Block, m: Block, s: Row): Block {
    hide MachineG;
    var (a0, b1, c2, d3) := MachineG(v[0], v[5], v[10], v[15], m[s[8]], m[s[9]]);
    var (a1, b2, c3, d0) := MachineG(v[1], v[6], v[11], v[12], m[s[10]], m[s[11]]);
    var (a2, b3, c0, d1) := MachineG(v[2], v[7], v[8], v[13], m[s[12]], m[s[13]]);
    var (a3, b0, c1, d2) := MachineG(v[3], v[4], v[9], v[14], m[s[14]], m[s[15]]);
    [a0, a1, a2, a3, b0, b1, b2, b3, c0, c1, c2, c3, d0, d1, d2, d3]
  }

  function Values(v: seq<bv32>): (r: seq<nat>)
    ensures |r| == |v|
  {
    seq(|v|, i requires 0 <= i < |v| => V32(v[i]))
  }

  lemma BothIs(x: bv32, y: bv32)
    ensures Xor(V32(x), V32(y)) == V32(Both(x, y))
  {
    hide V32, Xor;
    Xor32(x, y);
  }

  lemma RightsAre(w: bv32)
    ensures RotateRight(V32(w), 16, 32) == V32(Right1(w))
    ensures RotateRight(V32(w), 12, 32) == V32(Right2(w))
    ensures RotateRight(V32(w), 8, 32) == V32(Right3(w))
    ensures RotateRight(V32(w), 7, 32) == V32(Right4(w))
  {
    hide V32, RotateRight;
    Rotate32By16(w);
    Rotate32By12(w);
    Rotate32By8(w);
    Rotate32By7(w);
  }

  lemma TurnsAre(x: bv32, y: bv32)
    ensures Turn(V32(x), V32(y), 16, 32) == V32(Right1(Both(x, y)))
    ensures Turn(V32(x), V32(y), 12, 32) == V32(Right2(Both(x, y)))
    ensures Turn(V32(x), V32(y), 8, 32) == V32(Right3(Both(x, y)))
    ensures Turn(V32(x), V32(y), 7, 32) == V32(Right4(Both(x, y)))
  {
    hide V32, RotateRight, Xor, Both, Right1, Right2, Right3, Right4;
    BothIs(x, y);
    RightsAre(Both(x, y));
  }

  lemma SumIs(x: bv32, y: bv32)
    ensures Sum(V32(x), V32(y), 32) == V32(Plus32(x, y))
  {
    hide V32, Plus32;
    Powers();
    Sum32(x, y);
  }

  /** On machine words, G is what the processor computes. */
  lemma GIs(a: bv32, b: bv32, c: bv32, d: bv32, x: bv32, y: bv32)
    ensures var (a', b', c', d') := MachineG(a, b, c, d, x, y);
      G(BLAKE2S, V32(a), V32(b), V32(c), V32(d), V32(x), V32(y)) == (V32(a'), V32(b'), V32(c'), V32(d'))
  {
    hide V32, Plus32, Both, Right1, Right2, Right3, Right4, Sum, Turn;
    var a1 := Plus32(a, Plus32(b, x));
    SumIs(b, x);
    SumIs(a, Plus32(b, x));
    var d1 := Right1(Both(d, a1));
    TurnsAre(d, a1);
    var c1 := Plus32(c, d1);
    SumIs(c, d1);
    var b1 := Right2(Both(b, c1));
    TurnsAre(b, c1);
    var a2 := Plus32(a1, Plus32(b1, y));
    SumIs(b1, y);
    SumIs(a1, Plus32(b1, y));
    var d2 := Right3(Both(d1, a2));
    TurnsAre(d1, a2);
    SumIs(c1, d2);
    TurnsAre(b1, Plus32(c1, d2));
  }

  lemma At(v: seq<bv32>)
    ensures forall i :: 0 <= i < |v| ==> Values(v)[i] == V32(v[i])
  {
  }

  lemma Listed(a0: bv32, a1: bv32, a2: bv32, a3: bv32, b0: bv32, b1: bv32, b2: bv32, b3: bv32,
               c0: bv32, c1: bv32, c2: bv32, c3: bv32, d0: bv32, d1: bv32, d2: bv32, d3: bv32)
    ensures Values([a0, a1, a2, a3, b0, b1, b2, b3, c0, c1, c2, c3, d0, d1, d2, d3])
         == [V32(a0), V32(a1), V32(a2), V32(a3), V32(b0), V32(b1), V32(b2), V32(b3),
             V32(c0), V32(c1), V32(c2), V32(c3), V32(d0), V32(d1), V32(d2), V32(d3)]
  {
    hide V32;
  }

  lemma ColumnsAre(v: Block, m: Block, s: Row)
    ensures MixedColumns(BLAKE2S, Values(v), Values(m), s) == Values(Columns(v, m, s))
  {
    hide V32, MachineG, G, MixedColumns, Values;
    var (a0, b0, c0, d0) := MachineG(v[0], v[4], v[8], v[12], m[s[0]], m[s[1]]);
    var (a1, b1, c1, d1) := MachineG(v[1], v[5], v[9], v[13], m[s[2]], m[s[3]]);
    var (a2, b2, c2, d2) := MachineG(v[2], v[6], v[10], v[14], m[s[4]], m[s[5]]);
    var (a3, b3, c3, d3) := MachineG(v[3], v[7], v[11], v[15], m[s[6]], m[s[7]]);
    At(v);
    At(m);
    Listed(a0, a1, a2, a3, b0, b1, b2, b3, c0, c1, c2, c3, d0, d1, d2, d3);
    ColumnsIs(BLAKE2S, Values(v), Values(m), s);
    GIs(v[0], v[4], v[8], v[12], m[s[0]], m[s[1]]);
    GIs(v[1], v[5], v[9], v[13], m[s[2]], m[s[3]]);
    GIs(v[2], v[6], v[10], v[14], m[s[4]], m[s[5]]);
    GIs(v[3], v[7], v[11], v[15], m[s[6]], m[s[7]]);
  }

  lemma DiagonalsAre(v: Block, m: Block, s: Row)
    ensures MixedDiagonals(BLAKE2S, Values(v), Values(m), s) == Values(Diagonals(v, m, s))
  {
    hide V32, MachineG, G, MixedDiagonals, Values;
    var (a0, b1, c2, d3) := MachineG(v[0], v[5], v[10], v[15], m[s[8]], m[s[9]]);
    var (a1, b2, c3, d0) := MachineG(v[1], v[6], v[11], v[12], m[s[10]], m[s[11]]);
    var (a2, b3, c0, d1) := MachineG(v[2], v[7], v[8], v[13], m[s[12]], m[s[13]]);
    var (a3, b0, c1, d2) := MachineG(v[3], v[4], v[9], v[14], m[s[14]], m[s[15]]);
    At(v);
    At(m);
    Listed(a0, a1, a2, a3, b0, b1, b2, b3, c0, c1, c2, c3, d0, d1, d2, d3);
    DiagonalsIs(BLAKE2S, Values(v), Values(m), s);
    GIs(v[0], v[5], v[10], v[15], m[s[8]], m[s[9]]);
    GIs(v[1], v[6], v[11], v[12], m[s[10]], m[s[11]]);
    GIs(v[2], v[7], v[8], v[13], m[s[12]], m[s[13]]);
    GIs(v[3], v[4], v[9], v[14], m[s[14]], m[s[15]]);
  }

  lemma RoundIs(v: Block, m: Block, s: Row)
    ensures Round(BLAKE2S, Values(v), Values(m), s) == Values(Diagonals(Columns(v, m, s), m, s))
  {
    hide V32, MixedColumns, MixedDiagonals, Columns, Diagonals;
    ColumnsAre(v, m, s);
    DiagonalsAre(Columns(v, m, s), m, s);
  }

  // ----- Appendix B of RFC 7693

  /** The message "abc" as words. */
  const MESSAGE: Block := [0x0063_6261, 0, 0, 0, 0, 0, 0, 0, 0, 0, 0, 0, 0, 0, 0, 0]

  /** The words before each round, and after the last. */
  const STATE_0: Block := [
    0x6b08_e647, 0xbb67_ae85, 0x3c6e_f372, 0xa54f_f53a, 0x510e_527f, 0x9b05_688c, 0x1f83_d9ab, 0x5be0_cd19,
    0x6a09_e667, 0xbb67_ae85, 0x3c6e_f372, 0xa54f_f53a, 0x510e_527c, 0x9b05_688c, 0xe07c_2654, 0x5be0_cd19
  ]
  const STATE_1: Block := [
    0x16a3_242e, 0xd7b5_e238, 0xce8c_e24b, 0x927a_ede1, 0xa7b4_30d9, 0x93a4_a14e, 0xa44e_7c31, 0x41d4_759b,
    0x95bf_33d3, 0x9a99_c181, 0x608a_3a6b, 0xb666_383e, 0x7a8d_d50f, 0xbe37_8ed7, 0x353d_1ee6, 0x3bb4_4c6b
  ]
  const STATE_2: Block := [
    0x3ae3_0fe3, 0x0982_a96b, 0xe881_85b4, 0x3e33_9b16, 0xf243_38cd, 0x0e66_d326, 0xe005_ed0c, 0xd591_a277,
    0x180b_1f3a, 0xfcf4_3914, 0x30db_62d6, 0x4847_831c, 0x7f00_c58e, 0xfb84_7886, 0xc544_e836, 0x524a_b0e2
  ]
  const STATE_3: Block := [
    0x7a3b_e783, 0x9975_46c1, 0xd452_46df, 0xedb5_f821, 0x7f98_a742, 0x10e8_64e2, 0xd4ab_70d0, 0xc63c_b1ab,
    0x6038_da9e, 0x4145_94b0, 0xf2c2_18b5, 0x8da0_dcb7, 0xd7cd_7af5, 0xab49_09df, 0x8503_1a52, 0xc4ed_fc98
  ]
  const STATE_4: Block := [
    0x2a8b_8cb7, 0x1aca_82b2, 0x1404_5d7f, 0xcc72_58ed, 0x383c_f67c, 0xe090_e7f9, 0x3025_d276, 0x57d0_4de4,
    0x994b_acf0, 0xf098_2759, 0xf17e_e300, 0xd48f_c2d5, 0xdc85_4c10, 0x5238_98a9, 0xc03a_0f89, 0x47d6_cd88
  ]
  const STATE_5: Block := [
    0xc4aa_2ddb, 0x1113_43a3, 0xd54a_700a, 0x574a_00a9, 0x857d_5a48, 0xb1e1_1989, 0x6f5c_52df, 0xdd2c_53a3,
    0x678e_5f8e, 0x9718_d4e9, 0x622c_b684, 0x9297_6076, 0x0e41_a517, 0x359d_c2be, 0x87a8_7ddd, 0x643f_9cec
  ]
  const STATE_6: Block := [
    0x3453_921c, 0xd759_5ee1, 0x592e_776d, 0x3ed6_a974, 0x4d99_7cb3, 0xde92_12c3, 0x35ad_f5c9, 0x9916_fd65,
    0x9656_2e89, 0x4ead_0792, 0xebfc_2712, 0x2385_f5b2, 0xf346_00fb, 0xd7bc_20fb, 0xeb45_2a7b, 0xece1_aa40
  ]
  const STATE_7: Block := [
    0xbe85_1b2d, 0xa85f_6358, 0x81e6_fc3b, 0x0bb2_8000, 0xfa55_a33a, 0x87be_1fad, 0x4119_370f, 0x1e22_61aa,
    0xa131_8fd3, 0xf432_9816, 0x0717_83c2, 0x6e53_6a8d, 0x9a81_a601, 0xe7ec_80f1, 0xacc0_9948, 0xf849_a584
  ]
  const STATE_8: Block := [
    0x07e5_b85a, 0x069c_c164, 0xf9de_3141, 0xa56f_4680, 0x9e44_0ad2, 0x9ab6_59ea, 0x3c84_b971, 0x21db_d9cf,
    0x4669_9f8c, 0x7652_57ec, 0xaf1d_998c, 0x75e4_c3b6, 0x5238_78dc, 0x3071_5015, 0x397f_ee81, 0x4f1f_a799
  ]
  const STATE_9: Block := [
    0x4351_48c4, 0xa5aa_2d11, 0x4b35_4173, 0xd543_bc9e, 0xbda2_591c, 0xbf1d_2569, 0x4fcb_3120, 0x707a_da48,
    0x565b_3fde, 0x32c9_c916, 0xeaf4_a1ab, 0xb101_8f28, 0x8078_d978, 0x68ad_e4b5, 0x9778_fda3, 0x2863_b92e
  ]
  const STATE_10: Block := [
    0xd9c9_94aa, 0xcfec_3aa6, 0x700d_0ab2, 0x2c38_670e, 0xaf6a_1f66, 0x1d02_3ef3, 0x1d9e_c27d, 0x9453_57a5,
    0x3e9f_febd, 0x969f_e811, 0xef48_5e21, 0xa632_797a, 0xdeef_082e, 0xaf3d_80e1, 0x4e86_829b, 0x4dea_fd3a
  ]

  lemma Round0()
    ensures Diagonals(Columns(STATE_0, MESSAGE, ROW_0), MESSAGE, ROW_0) == STATE_1
  {
    hide V32, Values;
  }

  lemma Round1()
    ensures Diagonals(Columns(STATE_1, MESSAGE, ROW_1), MESSAGE, ROW_1) == STATE_2
  {
    hide V32, Values;
  }

  lemma Round2()
    ensures Diagonals(Columns(STATE_2, MESSAGE, ROW_2), MESSAGE, ROW_2) == STATE_3
  {
    hide V32, Values;
  }

  lemma Round3()
    ensures Diagonals(Columns(STATE_3, MESSAGE, ROW_3), MESSAGE, ROW_3) == STATE_4
  {
    hide V32, Values;
  }

  lemma Round4()
    ensures Diagonals(Columns(STATE_4, MESSAGE, ROW_4), MESSAGE, ROW_4) == STATE_5
  {
    hide V32, Values;
  }

  lemma Round5()
    ensures Diagonals(Columns(STATE_5, MESSAGE, ROW_5), MESSAGE, ROW_5) == STATE_6
  {
    hide V32, Values;
  }

  lemma Round6()
    ensures Diagonals(Columns(STATE_6, MESSAGE, ROW_6), MESSAGE, ROW_6) == STATE_7
  {
    hide V32, Values;
  }

  lemma Round7()
    ensures Diagonals(Columns(STATE_7, MESSAGE, ROW_7), MESSAGE, ROW_7) == STATE_8
  {
    hide V32, Values;
  }

  lemma Round8()
    ensures Diagonals(Columns(STATE_8, MESSAGE, ROW_8), MESSAGE, ROW_8) == STATE_9
  {
    hide V32, Values;
  }

  lemma Round9()
    ensures Diagonals(Columns(STATE_9, MESSAGE, ROW_9), MESSAGE, ROW_9) == STATE_10
  {
    hide V32, Values;
  }

  lemma NextRound(i: nat, v: Block, w: Block, s: Row)
    requires i < 10 && s == SIGMA[i] && Rounds(BLAKE2S, Values(STATE_0), Values(MESSAGE), i) == Values(v)
    requires Diagonals(Columns(v, MESSAGE, s), MESSAGE, s) == w
    ensures Rounds(BLAKE2S, Values(STATE_0), Values(MESSAGE), i + 1) == Values(w)
  {
    RoundIs(v, MESSAGE, s);
    hide Round, Values, Diagonals, Columns;
  }

  lemma FirstRounds()
    ensures Rounds(BLAKE2S, Values(STATE_0), Values(MESSAGE), 5) == Values(STATE_5)
  {
    hide Rounds, Values, Diagonals, Columns;
    NoRounds();
    Round0();
    NextRound(0, STATE_0, STATE_1, ROW_0);
    Round1();
    NextRound(1, STATE_1, STATE_2, ROW_1);
    Round2();
    NextRound(2, STATE_2, STATE_3, ROW_2);
    Round3();
    NextRound(3, STATE_3, STATE_4, ROW_3);
    Round4();
    NextRound(4, STATE_4, STATE_5, ROW_4);
  }

  lemma AllRounds()
    ensures Rounds(BLAKE2S, Values(STATE_0), Values(MESSAGE), 10) == Values(STATE_10)
  {
    hide Rounds, Values, Diagonals, Columns;
    FirstRounds();
    Round5();
    NextRound(5, STATE_5, STATE_6, ROW_5);
    Round6();
    NextRound(6, STATE_6, STATE_7, ROW_6);
    Round7();
    NextRound(7, STATE_7, STATE_8, ROW_7);
    Round8();
    NextRound(8, STATE_8, STATE_9, ROW_8);
    Round9();
    NextRound(9, STATE_9, STATE_10, ROW_9);
  }

  lemma NoRounds()
    ensures Rounds(BLAKE2S, Values(STATE_0), Values(MESSAGE), 0) == Values(STATE_0)
  {
  }

  type Chain = h: seq<bv32> | |h| == 8 witness seq(8, i => 0)

  /** The initial chaining value, and the one after the block. */
  const INITIAL: Chain := [
    0x6b08_e647, 0xbb67_ae85, 0x3c6e_f372, 0xa54f_f53a, 0x510e_527f, 0x9b05_688c, 0x1f83_d9ab, 0x5be0_cd19
  ]
  const HASHED: Chain := [
    0x8c5e_8c50, 0xe214_7c32, 0xa32b_a7e1, 0x2f45_eb4e, 0x208b_4537, 0x293a_d69e, 0x4c9b_994d, 0x8259_6786
  ]
  const IV: Chain := [
    0x6a09_e667, 0xbb67_ae85, 0x3c6e_f372, 0xa54f_f53a, 0x510e_527f, 0x9b05_688c, 0x1f83_d9ab, 0x5be0_cd19
  ]

  lemma XorOf(x: bv32, y: bv32, z: bv32)
    requires z == Both(x, y)
    ensures Xor(V32(x), V32(y)) == V32(z)
  {
    BothIs(x, y);
  }

  lemma Constants()
    ensures BLAKE2S.iv == Values(IV)
  {
  }

  lemma FirstWord()
    ensures Xor(BLAKE2S.iv[0], Xor(Xor(0x0101_0000, 256 * 0), 32)) == 0x6b08_e647
  {
    XorOf(0x0101_0000, 0, 0x0101_0000);
    XorOf(0x0101_0000, 32, 0x0101_0000 + 32);
    XorOf(0x6a09_e667, 0x0101_0000 + 32, 0x6b08_e647);
    hide Xor, Both;
  }

  lemma Initially()
    ensures Initial(BLAKE2S, 32, 0) == Values(INITIAL)
  {
    FirstWord();
    hide Xor;
  }

  lemma MarkWords()
    ensures Xor(0x510e_527f, 3) == 0x510e_527c
    ensures Xor(0x9b05_688c, 0) == 0x9b05_688c
    ensures Not(0x1f83_d9ab, 32) == 0xe07c_2654
  {
    Powers();
    XorOf(0x510e_527f, 3, 0x510e_527c);
    XorOf(0x9b05_688c, 0, 0x9b05_688c);
    XorOf(0x1f83_d9ab, 0xffff_ffff, 0xe07c_2654);
    hide Xor, Pow2;
  }

  lemma Marked()
    ensures WithMarks(BLAKE2S, Values(INITIAL) + Values(IV), 3, 0, true) == Values(STATE_0)
  {
    hide Xor, Not;
    MarkWords();
  }

  function FoldWord(h: Chain, v: Block, i: nat): bv32
    requires i < 8
  {
    Both(Both(h[i], v[i]), v[i + 8])
  }

  lemma FoldWordIs(h: Chain, v: Block, i: nat)
    requires i < 8
    ensures Folded(Values(h), Values(v))[i] == V32(FoldWord(h, v, i))
  {
    hide V32, Xor, Both;
    BothIs(h[i], v[i]);
    BothIs(Both(h[i], v[i]), v[i + 8]);
  }

  lemma FoldWords()
    ensures FoldWord(INITIAL, STATE_10, 0) == 0x8c5e_8c50
    ensures FoldWord(INITIAL, STATE_10, 1) == 0xe214_7c32
    ensures FoldWord(INITIAL, STATE_10, 2) == 0xa32b_a7e1
    ensures FoldWord(INITIAL, STATE_10, 3) == 0x2f45_eb4e
    ensures FoldWord(INITIAL, STATE_10, 4) == 0x208b_4537
    ensures FoldWord(INITIAL, STATE_10, 5) == 0x293a_d69e
    ensures FoldWord(INITIAL, STATE_10, 6) == 0x4c9b_994d
    ensures FoldWord(INITIAL, STATE_10, 7) == 0x8259_6786
  {
    hide V32, Values;
  }

  lemma Folds()
    ensures Folded(Values(INITIAL), Values(STATE_10)) == Values(HASHED)
  {
    hide V32, FoldWord, Folded;
    FoldWords();
    forall i | 0 <= i < 8
      ensures Folded(Values(INITIAL), Values(STATE_10))[i] == Values(HASHED)[i]
    {
      FoldWordIs(INITIAL, STATE_10, i);
    }
  }

  /** One call of the compression function. */
  lemma Compressed()
    ensures F(BLAKE2S, Initial(BLAKE2S, 32, 0), Values(MESSAGE), 3, true) == Values(HASHED)
  {
    Powers();
    Constants();
    Initially();
    Marked();
    AllRounds();
    Folds();
    hide Rounds, WithMarks, Folded, Initial, Values, Pow2;
  }

  lemma MessageIs()
    ensures Loaded(Padded([0x61, 0x62, 0x63], 64), 4) == Values(MESSAGE)
  {
    var block := Padded([0x61, 0x62, 0x63], 64);
    LoadedAbc(block, 4);
    hide Loaded;
  }

  const DIGEST: seq<Byte> :=
    [0x50, 0x8c, 0x5e, 0x8c] + [0x32, 0x7c, 0x14, 0xe2] +
    [0xe1, 0xa7, 0x2b, 0xa3] + [0x4e, 0xeb, 0x45, 0x2f] +
    [0x37, 0x45, 0x8b, 0x20] + [0x9e, 0xd6, 0x3a, 0x29] +
    [0x4d, 0x99, 0x9b, 0x4c] + [0x86, 0x67, 0x59, 0x82]

  lemma FirstWords()
    ensures ToBytes(0x8c5e_8c50, 4) == [0x50, 0x8c, 0x5e, 0x8c]
    ensures ToBytes(0xe214_7c32, 4) == [0x32, 0x7c, 0x14, 0xe2]
    ensures ToBytes(0xa32b_a7e1, 4) == [0xe1, 0xa7, 0x2b, 0xa3]
    ensures ToBytes(0x2f45_eb4e, 4) == [0x4e, 0xeb, 0x45, 0x2f]
  {
    hide ToBytes;
    Bytes4(0x50, 0x8c, 0x5e, 0x8c);
    Bytes4(0x32, 0x7c, 0x14, 0xe2);
    Bytes4(0xe1, 0xa7, 0x2b, 0xa3);
    Bytes4(0x4e, 0xeb, 0x45, 0x2f);
  }

  lemma LastWords()
    ensures ToBytes(0x208b_4537, 4) == [0x37, 0x45, 0x8b, 0x20]
    ensures ToBytes(0x293a_d69e, 4) == [0x9e, 0xd6, 0x3a, 0x29]
    ensures ToBytes(0x4c9b_994d, 4) == [0x4d, 0x99, 0x9b, 0x4c]
    ensures ToBytes(0x8259_6786, 4) == [0x86, 0x67, 0x59, 0x82]
  {
    hide ToBytes;
    Bytes4(0x37, 0x45, 0x8b, 0x20);
    Bytes4(0x9e, 0xd6, 0x3a, 0x29);
    Bytes4(0x4d, 0x99, 0x9b, 0x4c);
    Bytes4(0x86, 0x67, 0x59, 0x82);
  }

  lemma DigestBytes()
    ensures AllBytes(Values(HASHED), 4)[..32] == DIGEST
  {
    hide ToBytes, AllBytes;
    FirstWords();
    LastWords();
    HashedValues();
    AllBytes8(0x8c5e_8c50, 0xe214_7c32, 0xa32b_a7e1, 0x2f45_eb4e,
              0x208b_4537, 0x293a_d69e, 0x4c9b_994d, 0x8259_6786, 4);
  }

  lemma HashedValues()
    ensures Values(HASHED) == [
      0x8c5e_8c50, 0xe214_7c32, 0xa32b_a7e1, 0x2f45_eb4e, 0x208b_4537, 0x293a_d69e, 0x4c9b_994d, 0x8259_6786
    ]
  {
  }

  /** The hash of "abc". */
  lemma HashOfAbc()
    ensures Hash(BLAKE2S, 32, [], [0x61, 0x62, 0x63]) == DIGEST
  {
    HashOneBlock(BLAKE2S, 32, [0x61, 0x62, 0x63]);
    MessageIs();
    Compressed();
    hide Hash, F, Initial, Loaded;
    DigestBytes();
  }
}
