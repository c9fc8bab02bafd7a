/** BLAKE2b on machine words, and the worked example of Appendix A of RFC 7693: the hash of "abc", round by round. */
module Blake2bVectors {
  import opened Align
  import opened ExclusiveOr
  import opened Words
  import opened BitWords
  import opened Rotations
  import opened BlockHash
  import opened Blake2

  // ----- the function G and the rounds, on bit vectors

  function Both(x: bv64, y: bv64): bv64 { x ^ y }
  function Right1(w: bv64): bv64 { w.RotateRight(32) }
  function Right2(w: bv64): bv64 { w.RotateRight(24) }
  function Right3(w: bv64): bv64 { w.RotateRight(16) }
  function Right4(w: bv64): bv64 { w.RotateRight(63) }

  function MachineG(a: bv64, b: bv64, c: bv64, d: bv64, x: bv64, y: bv64): (bv64, bv64, bv64, bv64) {
    var a1 := Plus64(a, Plus64(b, x));
    var d1 := Right1(Both(d, a1));
    var c1 := Plus64(c, d1);
    var b1 := Right2(Both(b, c1));
    var a2 := Plus64(a1, Plus64(b1, y));
    var d2 := Right3(Both(d1, a2));
    var c2 := Plus64(c1, d2);
    (a2, Right4(Both(b1, c2)), c2, d2)
  }

  type Block = m: seq<bv64> | |m| == 16 witness seq(16, i => 0)

  function Columns(v: Block, m: Block, s: Row): Block {
    hide MachineG;
    var (a0, b0, c0, d0) := MachineG(v[0], v[4], v[8], v[12], m[s[0]], m[s[1]]);
    var (a1, b1, c1, d1) := MachineG(v[1], v[5], v[9], v[13], m[s[2]], m[s[3]]);
    var (a2, b2, c2, d2) := MachineG(v[2], v[6], v[10], v[14], m[s[4]], m[s[5]]);
    var (a3, b3, c3, d3) := MachineG(v[3], v[7], v[11], v[15], m[s[6]], m[s[7]]);
    [a0, a1, a2, a3, b0, b1, b2, b3, c0, c1, c2, c3, d0, d1, d2, d3]
  }

  function Diagonals(v: Block, m: Block, s: Row): Block {
    hide MachineG;
    var (a0, b1, c2, d3) := MachineG(v[0], v[5], v[10], v[15], m[s[8]], m[s[9]]);
    var (a1, b2, c3, d0) := MachineG(v[1], v[6], v[11], v[12], m[s[10]], m[s[11]]);
    var (a2, b3, c0, d1) := MachineG(v[2], v[7], v[8], v[13], m[s[12]], m[s[13]]);
    var (a3, b0, c1, d2) := MachineG(v[3], v[4], v[9], v[14], m[s[14]], m[s[15]]);
    [a0, a1, a2, a3, b0, b1, b2, b3, c0, c1, c2, c3, d0, d1, d2, d3]
  }

  function Values(v: seq<bv64>): (r: seq<nat>)
    ensures |r| == |v|
  {
    seq(|v|, i requires 0 <= i < |v| => V64(v[i]))
  }

  lemma BothIs(x: bv64, y: bv64)
    ensures Xor(V64(x), V64(y)) == V64(Both(x, y))
  {
    hide V64, Xor;
    Xor64(x, y);
  }

  lemma RightsAre(w: bv64)
    ensures RotateRight(V64(w), 32, 64) == V64(Right1(w))
    ensures RotateRight(V64(w), 24, 64) == V64(Right2(w))
    ensures RotateRight(V64(w), 16, 64) == V64(Right3(w))
    ensures RotateRight(V64(w), 63, 64) == V64(Right4(w))
  {
    hide V64, RotateRight;
    Rotate64By32(w);
    Rotate64By24(w);
    Rotate64By16(w);
    Rotate64By63(w);
  }

  lemma TurnsAre(x: bv64, y: bv64)
    ensures Turn(V64(x), V64(y), 32, 64) == V64(Right1(Both(x, y)))
    ensures Turn(V64(x), V64(y), 24, 64) == V64(Right2(Both(x, y)))
    ensures Turn(V64(x), V64(y), 16, 64) == V64(Right3(Both(x, y)))
    ensures Turn(V64(x), V64(y), 63, 64) == V64(Right4(Both(x, y)))
  {
    hide V64, RotateRight, Xor, Both, Right1, Right2, Right3, Right4;
    BothIs(x, y);
    RightsAre(Both(x, y));
  }

  lemma SumIs(x: bv64, y: bv64)
    ensures Sum(V64(x), V64(y), 64) == V64(Plus64(x, y))
  {
    hide V64, Plus64;
    Powers();
    Sum64(x, y);
  }

  /** On machine words, G is what the processor computes. */
  lemma GIs(a: bv64, b: bv64, c: bv64, d: bv64, x: bv64, y: bv64)
    ensures var (a', b', c', d') := MachineG(a, b, c, d, x, y);
      G(BLAKE2B, V64(a), V64(b), V64(c), V64(d), V64(x), V64(y)) == (V64(a'), V64(b'), V64(c'), V64(d'))
  {
    hide V64, Plus64, Both, Right1, Right2, Right3, Right4, Sum, Turn;
    var a1 := Plus64(a, Plus64(b, x));
    SumIs(b, x);
    SumIs(a, Plus64(b, x));
    var d1 := Right1(Both(d, a1));
    TurnsAre(d, a1);
    var c1 := Plus64(c, d1);
    SumIs(c, d1);
    var b1 := Right2(Both(b, c1));
    TurnsAre(b, c1);
    var a2 := Plus64(a1, Plus64(b1, y));
    SumIs(b1, y);
    SumIs(a1, Plus64(b1, y));
    var d2 := Right3(Both(d1, a2));
    TurnsAre(d1, a2);
    SumIs(c1, d2);
    TurnsAre(b1, Plus64(c1, d2));
  }

  lemma At(v: seq<bv64>)
    ensures forall i :: 0 <= i < |v| ==> Values(v)[i] == V64(v[i])
  {
  }

  lemma Listed(a0: bv64, a1: bv64, a2: bv64, a3: bv64, b0: bv64, b1: bv64, b2: bv64, b3: bv64,
               c0: bv64, c1: bv64, c2: bv64, c3: bv64, d0: bv64, d1: bv64, d2: bv64, d3: bv64)
    ensures Values([a0, a1, a2, a3, b0, b1, b2, b3, c0, c1, c2, c3, d0, d1, d2, d3])
         == [V64(a0), V64(a1), V64(a2), V64(a3), V64(b0), V64(b1), V64(b2), V64(b3),
             V64(c0), V64(c1), V64(c2), V64(c3), V64(d0), V64(d1), V64(d2), V64(d3)]
  {
    hide V64;
  }

  lemma ColumnsAre(v: Block, m: Block, s: Row)
    ensures MixedColumns(BLAKE2B, Values(v), Values(m), s) == Values(Columns(v, m, s))
  {
    hide V64, MachineG, G, MixedColumns, Values;
    var (a0, b0, c0, d0) := MachineG(v[0], v[4], v[8], v[12], m[s[0]], m[s[1]]);
    var (a1, b1, c1, d1) := MachineG(v[1], v[5], v[9], v[13], m[s[2]], m[s[3]]);
    var (a2, b2, c2, d2) := MachineG(v[2], v[6], v[10], v[14], m[s[4]], m[s[5]]);
    var (a3, b3, c3, d3) := MachineG(v[3], v[7], v[11], v[15], m[s[6]], m[s[7]]);
    At(v);
    At(m);
    Listed(a0, a1, a2, a3, b0, b1, b2, b3, c0, c1, c2, c3, d0, d1, d2, d3);
    ColumnsIs(BLAKE2B, Values(v), Values(m), s);
    GIs(v[0], v[4], v[8], v[12], m[s[0]], m[s[1]]);
    GIs(v[1], v[5], v[9], v[13], m[s[2]], m[s[3]]);
    GIs(v[2], v[6], v[10], v[14], m[s[4]], m[s[5]]);
    GIs(v[3], v[7], v[11], v[15], m[s[6]], m[s[7]]);
  }

  lemma DiagonalsAre(v: Block, m: Block, s: Row)
    ensures MixedDiagonals(BLAKE2B, Values(v), Values(m), s) == Values(Diagonals(v, m, s))
  {
    hide V64, MachineG, G, MixedDiagonals, Values;
    var (a0, b1, c2, d3) := MachineG(v[0], v[5], v[10], v[15], m[s[8]], m[s[9]]);
    var (a1, b2, c3, d0) := MachineG(v[1], v[6], v[11], v[12], m[s[10]], m[s[11]]);
    var (a2, b3, c0, d1) := MachineG(v[2], v[7], v[8], v[13], m[s[12]], m[s[13]]);
    var (a3, b0, c1, d2) := MachineG(v[3], v[4], v[9], v[14], m[s[14]], m[s[15]]);
    At(v);
    At(m);
    Listed(a0, a1, a2, a3, b0, b1, b2, b3, c0, c1, c2, c3, d0, d1, d2, d3);
    DiagonalsIs(BLAKE2B, Values(v), Values(m), s);
    GIs(v[0], v[5], v[10], v[15], m[s[8]], m[s[9]]);
    GIs(v[1], v[6], v[11], v[12], m[s[10]], m[s[11]]);
    GIs(v[2], v[7], v[8], v[13], m[s[12]], m[s[13]]);
    GIs(v[3], v[4], v[9], v[14], m[s[14]], m[s[15]]);
  }

  lemma RoundIs(v: Block, m: Block, s: Row)
    ensures Round(BLAKE2B, Values(v), Values(m), s) == Values(Diagonals(Columns(v, m, s), m, s))
  {
    hide V64, MixedColumns, MixedDiagonals, Columns, Diagonals;
    ColumnsAre(v, m, s);
    DiagonalsAre(Columns(v, m, s), m, s);
  }

  // ----- Appendix A of RFC 7693

  /** The message "abc" as words. */
  const MESSAGE: Block := [0x0063_6261, 0, 0, 0, 0, 0, 0, 0, 0, 0, 0, 0, 0, 0, 0, 0]

  /** The words before each round, and after the last. */
  const STATE_0: Block := [
    0x6a09_e667_f2bd_c948, 0xbb67_ae85_84ca_a73b, 0x3c6e_f372_fe94_f82b, 0xa54f_f53a_5f1d_36f1,
    0x510e_527f_ade6_82d1, 0x9b05_688c_2b3e_6c1f, 0x1f83_d9ab_fb41_bd6b, 0x5be0_cd19_137e_2179,
    0x6a09_e667_f3bc_c908, 0xbb67_ae85_84ca_a73b, 0x3c6e_f372_fe94_f82b, 0xa54f_f53a_5f1d_36f1,
    0x510e_527f_ade6_82d2, 0x9b05_688c_2b3e_6c1f, 0xe07c_2654_04be_4294, 0x5be0_cd19_137e_2179
  ]
  const STATE_1: Block := [
    0x86b7_c156_8029_bb79, 0xc12c_bcc8_09ff_59f3, 0xc6a5_214c_c0ea_ca8e, 0x0c87_cd52_4c14_cc5d,
    0x44ee_6039_bd86_a9f7, 0xa447_c850_aa69_4a7e, 0xde08_0f1b_b1c0_f84b, 0x595c_b8a9_a1ac_a66c,
    0xbec3_ae83_7eac_4887, 0x6267_fc79_df9d_6ad1, 0xfa87_b012_73fa_6dbe, 0x521a_715c_63e0_8d8a,
    0xe02d_0975_b8d3_7a83, 0x1c7b_754f_08b7_d193, 0x8f88_5a76_b6e5_78fe, 0x2318_a24e_2140_fc64
  ]
  const STATE_2: Block := [
    0x5328_1e83_8060_10f2, 0x3594_b403_f81b_4393, 0x8cd6_3c74_62de_0dff, 0x85f6_93f3_da53_f974,
    0xbaab_dbb2_f386_d9ae, 0xca54_25ae_c65a_10a8, 0xc6a2_2e2f_f0f7_aa48, 0xc6a5_6a51_cb89_c595,
    0x224e_6a33_6922_4f96, 0x500e_125e_58a9_2923, 0xe9e4_ad0d_0e1a_0d48, 0x85df_9dc1_43c5_9a74,
    0x92a3_aaaa_6d95_2b7f, 0xc5fd_f710_90fa_e853, 0x2a8a_40f1_5a46_2dd0, 0x572d_17ef_fdd3_7358
  ]
  const STATE_3: Block := [
    0x60ed_96aa_7ad4_1725, 0xe46a_743c_7180_0b9d, 0x1a04_b543_a01f_156b, 0xa2f8_716e_775c_4877,
    0xda0a_61bc_de42_67ea, 0xb1dd_2307_54d7_bdee, 0x25a1_4227_79e0_6d14, 0xe682_3ae4_c3ff_58a5,
    0xa167_7e19_f37f_d5da, 0x22bd_ce69_76b0_8c51, 0xf1de_8696_bec1_1bf1, 0xa0eb_d586_a4a1_d2c8,
    0xc804_ebab_11c9_9fa9, 0x8e0c_ec95_9c71_5793, 0x7c45_557f_ae0d_4d89, 0x7163_43f5_2fdd_265e
  ]
  const STATE_4: Block := [
    0xbb2a_77d3_a838_2351, 0x45eb_4797_1f23_b103, 0x98be_297f_6e45_c684, 0xa360_77de_e337_0b89,
    0x8a03_c4cb_7e97_590a, 0x2419_2e49_ebf5_4ea0, 0x4f82_c940_1cb3_2d7a, 0x8ccd_0137_2642_0dc4,
    0xa9c9_a8f1_7b1f_c614, 0x5590_8187_9775_14a0, 0x5b44_273e_66b1_9d27, 0xb6d5_c9fc_a257_9327,
    0x0860_92cf_b858_437e, 0x5c4b_e215_6dbe_ecf9, 0x2efe_de99_ed4e_ff16, 0x3e7b_5f23_4cd1_f804
  ]
  const STATE_5: Block := [
    0xc79c_15b3_d423_b099, 0x2da2_224e_8da9_7556, 0x77d2_b26d_f1c4_5c55, 0x8934_eb09_a345_6052,
    0x0f6d_9eee_d157_da2a, 0x6fe6_6467_af88_c0a9, 0x4eb0_b762_84c7_aafb, 0x299c_8e72_5d95_4697,
    0xb224_0b59_e6d5_67d3, 0x2643_c237_0e49_ebfd, 0x79e0_2eef_20cd_b1ae, 0x64b3_eed7_bb60_2f39,
    0xb97d_2d43_9e4d_f63d, 0xc718_e755_294c_9111, 0x1f08_93f2_772b_b373, 0x1205_ea4a_7859_807d
  ]
  const STATE_6: Block := [
    0xe58f_97d6_385b_aee4, 0x7640_aa97_64da_137a, 0xdeb4_c7c2_3efe_287e, 0x70f6_f41c_8783_c9f6,
    0x7127_cd48_c76a_7708, 0x9e47_2af0_be3d_b3f6, 0x0f24_4c62_ddf7_1788, 0x2198_28aa_8388_0842,
    0x41cc_a907_3c8c_4d0d, 0x5c79_12bc_10df_3b4b, 0xa2c3_abbd_3751_0ee2, 0xcb56_68cc_2a9f_7859,
    0x8733_794f_07ac_1500, 0xc67a_6be4_2335_aa6f, 0xacb2_2b28_681e_4c82, 0xdb21_6160_4cbc_9828
  ]
  const STATE_7: Block := [
    0x6e2d_286e_eade_dc81, 0xbcf0_2c07_87e8_6358, 0x57d5_6a56_dd01_5edf, 0x55d8_99d4_0a5d_0d0a,
    0x8194_15b5_6220_c459, 0xb63c_479a_6a76_9f02, 0x258e_55e0_ec1f_362a, 0x3a3b_4ec6_0e19_dfdc,
    0x04d7_69b3_fcb0_48db, 0xb78a_9a33_e9bf_f4dd, 0x5777_272a_e1e9_30c0, 0x5a38_7849_e578_dbf6,
    0x92aa_c307_cf2c_0afc, 0x30aa_ccc4_f06d_afaa, 0x4838_93cc_094f_8863, 0xe03c_6cc8_9c26_bf92
  ]
  const STATE_8: Block := [
    0xffc8_3ece_7602_4d01, 0x1be7_bffb_8c5c_c5f9, 0xa35a_18cb_ac4c_65b7, 0xb7c2_c7e6_d88c_285f,
    0x8193_7da3_14a5_0838, 0xe117_9523_a254_1963, 0x3a1f_ad71_0623_2b8f, 0x1c7e_de92_ab8b_9c46,
    0xa3c2_d35e_4f68_5c10, 0xa53d_3f73_aa61_9624, 0x30bb_cc02_85a2_2f65, 0xbcef_bb6a_8153_9e5d,
    0x3841_def6_f4c9_848a, 0x9866_2c85_fba7_26d4, 0x7762_439b_d5a8_51bd, 0xb0b9_f0d4_43d1_a889
  ]
  const STATE_9: Block := [
    0x753a_70a1_e8fa_eadd, 0x6b0d_43ca_2c25_d629, 0xf834_3ba8_b94f_8c0b, 0xbc7d_062b_0db5_cf35,
    0x5854_0ee1_b1ae_bc47, 0x63c5_b9b8_0d29_4cb9, 0x4908_70ec_ad27_debd, 0xb2a9_0ddf_6672_87fe,
    0x316c_c9eb_eefa_d8fc, 0x4a46_6bcd_0215_26a4, 0x5da7_f763_8cec_5669, 0xd9c8_8267_27d3_06fc,
    0x88ed_6c4f_3bd7_a537, 0x19ae_688d_df67_f026, 0x4d87_07aa_b40f_7e6d, 0xfd3f_5726_87fe_a4f1
  ]
  const STATE_10: Block := [
    0xe630_c747_ccd5_9c4f, 0xbc71_3d41_1275_71ca, 0x46db_1830_2502_5078, 0x6727_e812_6061_0140,
    0x2d04_185e_ac2a_8cba, 0x5f31_1b88_9040_56ec, 0x40bd_3130_0920_1aab, 0x0099_d4f8_2a2a_1eab,
    0x6dd4_fbc1_de60_165d, 0xb3b0_b51d_e3c8_6270, 0x900a_ee2f_233b_08e5, 0xa071_99d8_7ad0_58d8,
    0x2c6b_2559_3d71_7852, 0x37e8_ca47_1bea_a5f8, 0x2cfc_1bac_10ef_4457, 0x0136_9ec1_8746_e775
  ]
  const STATE_11: Block := [
    0xe801_f73b_9768_c760, 0x35c6_d223_20be_511d, 0x306f_2758_4f65_495e, 0xb517_76ad_f569_a77b,
    0xf4f1_be86_690b_3c34, 0x3cc8_8735_d147_5e4b, 0x5dac_6792_1ff7_6949, 0x1cdb_9d31_ad70_cc4e,
    0x35ba_354a_9c7d_f448, 0x4929_cbe4_5679_d73e, 0x733d_1a17_248f_39db, 0x92d5_7b73_6f5f_170a,
    0x61b5_c0a4_1d49_1399, 0xb5c3_3345_7e12_844a, 0xbd69_6be0_10d0_d889, 0x0223_1e1a_917f_e0bd
  ]
  const STATE_12: Block := [
    0x12ef_8a64_1ec4_f6d6, 0xbced_5de9_77c9_faf5, 0x733c_a476_c514_8639, 0x97df_596b_0610_f6fc,
    0xf42c_1651_9ad5_afa7, 0xaa5a_c188_8e10_467e, 0x217d_930a_a517_87f3, 0x906a_6ff1_9e57_3942,
    0x75ab_709b_d3dc_bf24, 0xee7c_e1f3_4594_7aa4, 0xf896_0d6c_2faf_5f5e, 0xe332_538a_36b6_d246,
    0x885b_ef04_0ef6_aa0b, 0xa493_9a41_7bfb_78a3, 0x646c_bb7a_f6dc_e980, 0xe813_a23c_60af_3b82
  ]

  lemma Round0()
    ensures Diagonals(Columns(STATE_0, MESSAGE, ROW_0), MESSAGE, ROW_0) == STATE_1
  {
    hide V64, Values;
  }

  lemma Round1()
    ensures Diagonals(Columns(STATE_1, MESSAGE, ROW_1), MESSAGE, ROW_1) == STATE_2
  {
    hide V64, Values;
  }

  lemma Round2()
    ensures Diagonals(Columns(STATE_2, MESSAGE, ROW_2), MESSAGE, ROW_2) == STATE_3
  {
    hide V64, Values;
  }

  lemma Round3()
    ensures Diagonals(Columns(STATE_3, MESSAGE, ROW_3), MESSAGE, ROW_3) == STATE_4
  {
    hide V64, Values;
  }

  lemma Round4()
    ensures Diagonals(Columns(STATE_4, MESSAGE, ROW_4), MESSAGE, ROW_4) == STATE_5
  {
    hide V64, Values;
  }

  lemma Round5()
    ensures Diagonals(Columns(STATE_5, MESSAGE, ROW_5), MESSAGE, ROW_5) == STATE_6
  {
    hide V64, Values;
  }

  lemma Round6()
    ensures Diagonals(Columns(STATE_6, MESSAGE, ROW_6), MESSAGE, ROW_6) == STATE_7
  {
    hide V64, Values;
  }

  lemma Round7()
    ensures Diagonals(Columns(STATE_7, MESSAGE, ROW_7), MESSAGE, ROW_7) == STATE_8
  {
    hide V64, Values;
  }

  lemma Round8()
    ensures Diagonals(Columns(STATE_8, MESSAGE, ROW_8), MESSAGE, ROW_8) == STATE_9
  {
    hide V64, Values;
  }

  lemma Round9()
    ensures Diagonals(Columns(STATE_9, MESSAGE, ROW_9), MESSAGE, ROW_9) == STATE_10
  {
    hide V64, Values;
  }

  lemma Round10()
    ensures Diagonals(Columns(STATE_10, MESSAGE, ROW_0), MESSAGE, ROW_0) == STATE_11
  {
    hide V64, Values;
  }

  lemma Round11()
    ensures Diagonals(Columns(STATE_11, MESSAGE, ROW_1), MESSAGE, ROW_1) == STATE_12
  {
    hide V64, Values;
  }

  lemma NextRound(i: nat, v: Block, w: Block, s: Row)
    requires i < 12 && s == SIGMA[i] && Rounds(BLAKE2B, Values(STATE_0), Values(MESSAGE), i) == Values(v)
    requires Diagonals(Columns(v, MESSAGE, s), MESSAGE, s) == w
    ensures Rounds(BLAKE2B, Values(STATE_0), Values(MESSAGE), i + 1) == Values(w)
  {
    RoundIs(v, MESSAGE, s);
    hide Round, Values, Diagonals, Columns;
  }

  lemma FirstRounds()
    ensures Rounds(BLAKE2B, Values(STATE_0), Values(MESSAGE), 6) == Values(STATE_6)
  {
    hide Rounds, Values, Diagonals, Columns;
    NoRounds();
    Round0();
    NextRound(0, STATE_0, STATE_1, ROW_0);
    Round1();
    NextRound(1, STATE_1, STATE_2, ROW_1);
    Round2();
    NextRound(2, STATE_2, STATE_3, ROW_2);
    Round3();
    NextRound(3, STATE_3, STATE_4, ROW_3);
    Round4();
    NextRound(4, STATE_4, STATE_5, ROW_4);
    Round5();
    NextRound(5, STATE_5, STATE_6, ROW_5);
  }

  lemma AllRounds()
    ensures Rounds(BLAKE2B, Values(STATE_0), Values(MESSAGE), 12) == Values(STATE_12)
  {
    hide Rounds, Values, Diagonals, Columns;
    FirstRounds();
    Round6();
    NextRound(6, STATE_6, STATE_7, ROW_6);
    Round7();
    NextRound(7, STATE_7, STATE_8, ROW_7);
    Round8();
    NextRound(8, STATE_8, STATE_9, ROW_8);
    Round9();
    NextRound(9, STATE_9, STATE_10, ROW_9);
    Round10();
    NextRound(10, STATE_10, STATE_11, ROW_0);
    Round11();
    NextRound(11, STATE_11, STATE_12, ROW_1);
  }

  lemma NoRounds()
    ensures Rounds(BLAKE2B, Values(STATE_0), Values(MESSAGE), 0) == Values(STATE_0)
  {
  }

  type Chain = h: seq<bv64> | |h| == 8 witness seq(8, i => 0)

  /** The initial chaining value, and the one after the block. */
  const INITIAL: Chain := [
    0x6a09_e667_f2bd_c948, 0xbb67_ae85_84ca_a73b, 0x3c6e_f372_fe94_f82b, 0xa54f_f53a_5f1d_36f1,
    0x510e_527f_ade6_82d1, 0x9b05_688c_2b3e_6c1f, 0x1f83_d9ab_fb41_bd6b, 0x5be0_cd19_137e_2179
  ]
  const HASHED: Chain := [
    0x0d4d_1c98_3fa5_80ba, 0xe9f6_129f_b697_276a, 0xb7c4_5a68_142f_214c, 0xd1a2_ffdb_6fbb_124b,
    0x2d79_ab2a_39c5_877d, 0x95cc_3345_ded5_52c2, 0x5a92_f1db_a88a_d318, 0x2399_00d4_ed86_23b9
  ]
  const IV: Chain := [
    0x6a09_e667_f3bc_c908, 0xbb67_ae85_84ca_a73b, 0x3c6e_f372_fe94_f82b, 0xa54f_f53a_5f1d_36f1,
    0x510e_527f_ade6_82d1, 0x9b05_688c_2b3e_6c1f, 0x1f83_d9ab_fb41_bd6b, 0x5be0_cd19_137e_2179
  ]

  lemma XorOf(x: bv64, y: bv64, z: bv64)
    requires z == Both(x, y)
    ensures Xor(V64(x), V64(y)) == V64(z)
  {
    BothIs(x, y);
  }

  lemma Constants()
    ensures BLAKE2B.iv == Values(IV)
  {
  }

  lemma FirstWord()
    ensures Xor(BLAKE2B.iv[0], Xor(Xor(0x0101_0000, 256 * 0), 64)) == 0x6a09_e667_f2bd_c948
  {
    XorOf(0x0101_0000, 0, 0x0101_0000);
    XorOf(0x0101_0000, 64, 0x0101_0000 + 64);
    XorOf(0x6a09_e667_f3bc_c908, 0x0101_0000 + 64, 0x6a09_e667_f2bd_c948);
    hide Xor, Both;
  }

  lemma Initially()
    ensures Initial(BLAKE2B, 64, 0) == Values(INITIAL)
  {
    FirstWord();
    hide Xor;
  }

  lemma MarkWords()
    ensures Xor(0x510e_527f_ade6_82d1, 3) == 0x510e_527f_ade6_82d2
    ensures Xor(0x9b05_688c_2b3e_6c1f, 0) == 0x9b05_688c_2b3e_6c1f
    ensures Not(0x1f83_d9ab_fb41_bd6b, 64) == 0xe07c_2654_04be_4294
  {
    Powers();
    XorOf(0x510e_527f_ade6_82d1, 3, 0x510e_527f_ade6_82d2);
    XorOf(0x9b05_688c_2b3e_6c1f, 0, 0x9b05_688c_2b3e_6c1f);
    XorOf(0x1f83_d9ab_fb41_bd6b, 0xffff_ffff_ffff_ffff, 0xe07c_2654_04be_4294);
    hide Xor, Pow2;
  }

  lemma Marked()
    ensures WithMarks(BLAKE2B, Values(INITIAL) + Values(IV), 3, 0, true) == Values(STATE_0)
  {
    hide Xor, Not;
    MarkWords();
  }

  function FoldWord(h: Chain, v: Block, i: nat): bv64
    requires i < 8
  {
    Both(Both(h[i], v[i]), v[i + 8])
  }

  lemma FoldWordIs(h: Chain, v: Block, i: nat)
    requires i < 8
    ensures Folded(Values(h), Values(v))[i] == V64(FoldWord(h, v, i))
  {
    hide V64, Xor, Both;
    BothIs(h[i], v[i]);
    BothIs(Both(h[i], v[i]), v[i + 8]);
  }

  lemma FoldWords()
    ensures FoldWord(INITIAL, STATE_12, 0) == 0x0d4d_1c98_3fa5_80ba
    ensures FoldWord(INITIAL, STATE_12, 1) == 0xe9f6_129f_b697_276a
    ensures FoldWord(INITIAL, STATE_12, 2) == 0xb7c4_5a68_142f_214c
    ensures FoldWord(INITIAL, STATE_12, 3) == 0xd1a2_ffdb_6fbb_124b
    ensures FoldWord(INITIAL, STATE_12, 4) == 0x2d79_ab2a_39c5_877d
    ensures FoldWord(INITIAL, STATE_12, 5) == 0x95cc_3345_ded5_52c2
    ensures FoldWord(INITIAL, STATE_12, 6) == 0x5a92_f1db_a88a_d318
    ensures FoldWord(INITIAL, STATE_12, 7) == 0x2399_00d4_ed86_23b9
  {
    hide V64, Values;
  }

  lemma Folds()
    ensures Folded(Values(INITIAL), Values(STATE_12)) == Values(HASHED)
  {
    hide V64, FoldWord, Folded;
    FoldWords();
    forall i | 0 <= i < 8
      ensures Folded(Values(INITIAL), Values(STATE_12))[i] == Values(HASHED)[i]
    {
      FoldWordIs(INITIAL, STATE_12, i);
    }
  }

  /** One call of the compression function. */
  lemma Compressed()
    ensures F(BLAKE2B, Initial(BLAKE2B, 64, 0), Values(MESSAGE), 3, true) == Values(HASHED)
  {
    Powers();
    Constants();
    Initially();
    Marked();
    AllRounds();
    Folds();
    hide Rounds, WithMarks, Folded, Initial, Values, Pow2;
  }

  lemma MessageIs()
    ensures Loaded(Padded([0x61, 0x62, 0x63], 128), 8) == Values(MESSAGE)
  {
    var block := Padded([0x61, 0x62, 0x63], 128);
    LoadedAbc(block, 8);
    hide Loaded;
  }

  const DIGEST: seq<Byte> :=
    [0xba, 0x80, 0xa5, 0x3f, 0x98, 0x1c, 0x4d, 0x0d] +
    [0x6a, 0x27, 0x97, 0xb6, 0x9f, 0x12, 0xf6, 0xe9] +
    [0x4c, 0x21, 0x2f, 0x14, 0x68, 0x5a, 0xc4, 0xb7] +
    [0x4b, 0x12, 0xbb, 0x6f, 0xdb, 0xff, 0xa2, 0xd1] +
    [0x7d, 0x87, 0xc5, 0x39, 0x2a, 0xab, 0x79, 0x2d] +
    [0xc2, 0x52, 0xd5, 0xde, 0x45, 0x33, 0xcc, 0x95] +
    [0x18, 0xd3, 0x8a, 0xa8, 0xdb, 0xf1, 0x92, 0x5a] +
    [0xb9, 0x23, 0x86, 0xed, 0xd4, 0x00, 0x99, 0x23]

  lemma FirstWords()
    ensures ToBytes(0x0d4d_1c98_3fa5_80ba, 8) == [0xba, 0x80, 0xa5, 0x3f, 0x98, 0x1c, 0x4d, 0x0d]
    ensures ToBytes(0xe9f6_129f_b697_276a, 8) == [0x6a, 0x27, 0x97, 0xb6, 0x9f, 0x12, 0xf6, 0xe9]
    ensures ToBytes(0xb7c4_5a68_142f_214c, 8) == [0x4c, 0x21, 0x2f, 0x14, 0x68, 0x5a, 0xc4, 0xb7]
    ensures ToBytes(0xd1a2_ffdb_6fbb_124b, 8) == [0x4b, 0x12, 0xbb, 0x6f, 0xdb, 0xff, 0xa2, 0xd1]
  {
    hide ToBytes;
    Bytes8(0xba, 0x80, 0xa5, 0x3f, 0x98, 0x1c, 0x4d, 0x0d);
    Bytes8(0x6a, 0x27, 0x97, 0xb6, 0x9f, 0x12, 0xf6, 0xe9);
    Bytes8(0x4c, 0x21, 0x2f, 0x14, 0x68, 0x5a, 0xc4, 0xb7);
    Bytes8(0x4b, 0x12, 0xbb, 0x6f, 0xdb, 0xff, 0xa2, 0xd1);
  }

  lemma LastWords()
    ensures ToBytes(0x2d79_ab2a_39c5_877d, 8) == [0x7d, 0x87, 0xc5, 0x39, 0x2a, 0xab, 0x79, 0x2d]
    ensures ToBytes(0x95cc_3345_ded5_52c2, 8) == [0xc2, 0x52, 0xd5, 0xde, 0x45, 0x33, 0xcc, 0x95]
    ensures ToBytes(0x5a92_f1db_a88a_d318, 8) == [0x18, 0xd3, 0x8a, 0xa8, 0xdb, 0xf1, 0x92, 0x5a]
    ensures ToBytes(0x2399_00d4_ed86_23b9, 8) == [0xb9, 0x23, 0x86, 0xed, 0xd4, 0x00, 0x99, 0x23]
  {
    hide ToBytes;
    Bytes8(0x7d, 0x87, 0xc5, 0x39, 0x2a, 0xab, 0x79, 0x2d);
    Bytes8(0xc2, 0x52, 0xd5, 0xde, 0x45, 0x33, 0xcc, 0x95);
    Bytes8(0x18, 0xd3, 0x8a, 0xa8, 0xdb, 0xf1, 0x92, 0x5a);
    Bytes8(0xb9, 0x23, 0x86, 0xed, 0xd4, 0x00, 0x99, 0x23);
  }

  lemma DigestBytes()
    ensures AllBytes(Values(HASHED), 8)[..64] == DIGEST
  {
    hide ToBytes, AllBytes;
    FirstWords();
    LastWords();
    HashedValues();
    AllBytes8(0x0d4d_1c98_3fa5_80ba, 0xe9f6_129f_b697_276a, 0xb7c4_5a68_142f_214c, 0xd1a2_ffdb_6fbb_124b,
              0x2d79_ab2a_39c5_877d, 0x95cc_3345_ded5_52c2, 0x5a92_f1db_a88a_d318, 0x2399_00d4_ed86_23b9, 8);
  }

  lemma HashedValues()
    ensures Values(HASHED) == [
      0x0d4d_1c98_3fa5_80ba, 0xe9f6_129f_b697_276a, 0xb7c4_5a68_142f_214c, 0xd1a2_ffdb_6fbb_124b,
      0x2d79_ab2a_39c5_877d, 0x95cc_3345_ded5_52c2, 0x5a92_f1db_a88a_d318, 0x2399_00d4_ed86_23b9
    ]
  {
  }

  /** The hash of "abc". */
  lemma HashOfAbc()
    ensures Hash(BLAKE2B, 64, [], [0x61, 0x62, 0x63]) == DIGEST
  {
    HashOneBlock(BLAKE2B, 64, [0x61, 0x62, 0x63]);
    MessageIs();
    Compressed();
    hide Hash, F, Initial, Loaded;
    DigestBytes();
  }
}
