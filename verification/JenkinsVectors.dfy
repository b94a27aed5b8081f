/** HASH_JEN at work: the hash values of two keys, worked out line by line. */
module JenkinsVectors {
  import opened Elements
  import opened Jenkins
  import opened JenkinsBits

  /** The key "a". */
  lemma ShortKey()
    ensures Jen([97]) == 0xfb48_d8c3
  {
    hide Mix, Final, Finish;
    var rest: seq<Byte> := [97];
    ShortWords(rest);
    FinalRest(START, rest, 1);
  }

  lemma ShortWords(rest: seq<Byte>)
    requires rest == [97]
    ensures Finish(START, rest, 1).h == 0xfb48_d8c3
  {
    hide Mix, Pack, Plus, At;
    OneByte();
    ShortBytes(rest);
    ShortPacks();
    ShortSums();
  }

  lemma ShortBytes(rest: seq<Byte>)
    requires rest == [97]
    ensures At(rest, 0) == 97 && forall k :: 1 <= k ==> At(rest, k) == 0
  {
  }

  lemma ShortPacks()
    ensures Pack(97, 0, 0, 0) == 97 && Pack(0, 0, 0, 0) == 0
  {
  }

  lemma ShortSums()
    ensures Plus(0x9e37_79b9, 97) == 0x9e37_7a1a && Plus(0x9e37_79b9, 0) == 0x9e37_79b9
    ensures Plus(0xfeed_beef, 1) == 0xfeed_bef0 && Plus(0xfeed_bef0, 0) == 0xfeed_bef0
  {
  }

  /** The key "abcdefghijklmnopqrstuvw": one block, and eleven more bytes. */
  lemma LongKey()
    ensures Jen([97, 98, 99, 100, 101, 102, 103, 104, 105, 106, 107, 108] +
                [109, 110, 111, 112, 113, 114, 115, 116, 117, 118, 119]) == 0xa9ce_0092
  {
    hide Mix, Final, Absorb, Finish;
    var block: seq<Byte> := [97, 98, 99, 100, 101, 102, 103, 104, 105, 106, 107, 108];
    var rest: seq<Byte> := [109, 110, 111, 112, 113, 114, 115, 116, 117, 118, 119];
    FirstWords(block);
    FinalBlock(START, block, rest, 23);
    LastWords(rest);
  }

  lemma FinalBlock(w: Words, block: seq<Byte>, rest: seq<Byte>, n: nat)
    requires |block| == 12 && |rest| < 12
    ensures Final(w, block + rest, n) == Finish(Absorb(w, block), rest, n)
  {
    hide Absorb, Finish;
    assert (block + rest)[..12] == block && (block + rest)[12..] == rest;
  }

  lemma FinalRest(w: Words, rest: seq<Byte>, n: nat)
    requires |rest| < 12
    ensures Final(w, rest, n) == Finish(w, rest, n)
  {
  }

  lemma FirstWords(b: seq<Byte>)
    requires b == [97, 98, 99, 100, 101, 102, 103, 104, 105, 106, 107, 108]
    ensures Absorb(START, b) == Words(0x2751_1420, 0x123b_cedb, 0xc633_1bd8)
  {
    hide Mix;
    FirstBlock();
  }

  lemma LastWords(rest: seq<Byte>)
    requires rest == [109, 110, 111, 112, 113, 114, 115, 116, 117, 118, 119]
    ensures Finish(Words(0x2751_1420, 0x123b_cedb, 0xc633_1bd8), rest, 23).h == 0xa9ce_0092
  {
    hide Mix;
    LastBytes();
  }

  /** The only mix of the short key. */
  lemma OneByte()
    ensures Mix(Words(0x9e37_7a1a, 0x9e37_79b9, 0xfeed_bef0)) == Words(0x832f_f4ab, 0x2cb8_eca6, 0xfb48_d8c3)
  {
    hide ValueOf, Round;
    OneByte1();
    OneByte2();
    OneByte3();
    OneByteStart();
    OneByteEnd();
  }

  lemma OneByte1()
    ensures ValueOf(0x0115_b61c, 0x8b82_18ad, 0x7251_ac37) ==
            Round(ValueOf(0x9e37_7a1a, 0x9e37_79b9, 0xfeed_bef0), 13, 8, 13)
  {
    hide ValueOf, Round;
    Lines1(0x9e37_7a1a, 0x9e37_79b9, 0xfeed_bef0, 0x0115_b61c, 0x8b82_18ad, 0x7251_ac37);
  }

  lemma OneByte2()
    ensures ValueOf(0x0346_d422, 0xc1cb_9854, 0xab31_6303) ==
            Round(ValueOf(0x0115_b61c, 0x8b82_18ad, 0x7251_ac37), 12, 16, 5)
  {
    hide ValueOf, Round;
    Lines2(0x0115_b61c, 0x8b82_18ad, 0x7251_ac37, 0x0346_d422, 0xc1cb_9854, 0xab31_6303);
  }

  lemma OneByte3()
    ensures ValueOf(0x832f_f4ab, 0x2cb8_eca6, 0xfb48_d8c3) ==
            Round(ValueOf(0x0346_d422, 0xc1cb_9854, 0xab31_6303), 3, 10, 15)
  {
    hide ValueOf, Round;
    Lines3(0x0346_d422, 0xc1cb_9854, 0xab31_6303, 0x832f_f4ab, 0x2cb8_eca6, 0xfb48_d8c3);
  }

  lemma OneByteStart()
    ensures ValueOf(0x9e37_7a1a, 0x9e37_79b9, 0xfeed_bef0) == Words(0x9e37_7a1a, 0x9e37_79b9, 0xfeed_bef0)
  {
    hide Value;
    Is9E377A1A();
    Is9E3779B9();
    IsFEEDBEF0();
  }

  lemma OneByteEnd()
    ensures ValueOf(0x832f_f4ab, 0x2cb8_eca6, 0xfb48_d8c3) == Words(0x832f_f4ab, 0x2cb8_eca6, 0xfb48_d8c3)
  {
    hide Value;
    Is832FF4AB();
    Is2CB8ECA6();
    IsFB48D8C3();
  }

  /** The first mix of the long key. */
  lemma FirstBlock()
    ensures Mix(Words(0x029a_dc1a, 0x069e_e01e, 0x6b59_2958)) == Words(0x2751_1420, 0x123b_cedb, 0xc633_1bd8)
  {
    hide ValueOf, Round;
    FirstBlock1();
    FirstBlock2();
    FirstBlock3();
    FirstBlockStart();
    FirstBlockEnd();
  }

  lemma FirstBlock1()
    ensures ValueOf(0x90a1_886d, 0xab2c_4359, 0x2f8e_04f0) ==
            Round(ValueOf(0x029a_dc1a, 0x069e_e01e, 0x6b59_2958), 13, 8, 13)
  {
    hide ValueOf, Round;
    Lines1(0x029a_dc1a, 0x069e_e01e, 0x6b59_2958, 0x90a1_886d, 0xab2c_4359, 0x2f8e_04f0);
  }

  lemma FirstBlock2()
    ensures ValueOf(0xb5e5_b8c4, 0x7d7c_85a5, 0xffc0_22aa) ==
            Round(ValueOf(0x90a1_886d, 0xab2c_4359, 0x2f8e_04f0), 12, 16, 5)
  {
    hide ValueOf, Round;
    Lines2(0x90a1_886d, 0xab2c_4359, 0x2f8e_04f0, 0xb5e5_b8c4, 0x7d7c_85a5, 0xffc0_22aa);
  }

  lemma FirstBlock3()
    ensures ValueOf(0x2751_1420, 0x123b_cedb, 0xc633_1bd8) ==
            Round(ValueOf(0xb5e5_b8c4, 0x7d7c_85a5, 0xffc0_22aa), 3, 10, 15)
  {
    hide ValueOf, Round;
    Lines3(0xb5e5_b8c4, 0x7d7c_85a5, 0xffc0_22aa, 0x2751_1420, 0x123b_cedb, 0xc633_1bd8);
  }

  lemma FirstBlockStart()
    ensures ValueOf(0x029a_dc1a, 0x069e_e01e, 0x6b59_2958) == Words(0x029a_dc1a, 0x069e_e01e, 0x6b59_2958)
  {
    hide Value;
    Is029ADC1A();
    Is069EE01E();
    Is6B592958();
  }

  lemma FirstBlockEnd()
    ensures ValueOf(0x2751_1420, 0x123b_cedb, 0xc633_1bd8) == Words(0x2751_1420, 0x123b_cedb, 0xc633_1bd8)
  {
    hide Value;
    Is27511420();
    Is123BCEDB();
    IsC6331BD8();
  }

  /** Its last mix. */
  lemma LastBytes()
    ensures Mix(Words(0x97c0_828d, 0x86af_414c, 0x3da9_90ef)) == Words(0x7e7e_e22a, 0x1eff_95d3, 0xa9ce_0092)
  {
    hide ValueOf, Round;
    LastBytes1();
    LastBytes2();
    LastBytes3();
    LastBytesStart();
    LastBytesEnd();
  }

  lemma LastBytes1()
    ensures ValueOf(0xd366_5d1e, 0x13c2_4d3f, 0x5680_7880) ==
            Round(ValueOf(0x97c0_828d, 0x86af_414c, 0x3da9_90ef), 13, 8, 13)
  {
    hide ValueOf, Round;
    Lines1(0x97c0_828d, 0x86af_414c, 0x3da9_90ef, 0xd366_5d1e, 0x13c2_4d3f, 0x5680_7880);
  }

  lemma LastBytes2()
    ensures ValueOf(0x6926_ff58, 0xab42_d567, 0x474c_b56a) ==
            Round(ValueOf(0xd366_5d1e, 0x13c2_4d3f, 0x5680_7880), 12, 16, 5)
  {
    hide ValueOf, Round;
    Lines2(0xd366_5d1e, 0x13c2_4d3f, 0x5680_7880, 0x6926_ff58, 0xab42_d567, 0x474c_b56a);
  }

  lemma LastBytes3()
    ensures ValueOf(0x7e7e_e22a, 0x1eff_95d3, 0xa9ce_0092) ==
            Round(ValueOf(0x6926_ff58, 0xab42_d567, 0x474c_b56a), 3, 10, 15)
  {
    hide ValueOf, Round;
    Lines3(0x6926_ff58, 0xab42_d567, 0x474c_b56a, 0x7e7e_e22a, 0x1eff_95d3, 0xa9ce_0092);
  }

  lemma LastBytesStart()
    ensures ValueOf(0x97c0_828d, 0x86af_414c, 0x3da9_90ef) == Words(0x97c0_828d, 0x86af_414c, 0x3da9_90ef)
  {
    hide Value;
    Is97C0828D();
    Is86AF414C();
    Is3DA990EF();
  }

  lemma LastBytesEnd()
    ensures ValueOf(0x7e7e_e22a, 0x1eff_95d3, 0xa9ce_0092) == Words(0x7e7e_e22a, 0x1eff_95d3, 0xa9ce_0092)
  {
    hide Value;
    Is7E7EE22A();
    Is1EFF95D3();
    IsA9CE0092();
  }

  // ------------------------------------------------------------ words and their values

  lemma Is9E377A1A()
    ensures Value(0x9e37_7a1a) == 0x9e37_7a1a
  {
    ValueDigits(0x9e37_7a1a, 0x09e3_77a1, 0x009e_377a, 0x0009_e377, 0x0000_9e37, 0x0000_09e3, 0x0000_009e, 0x0000_0009);
  }

  lemma Is9E3779B9()
    ensures Value(0x9e37_79b9) == 0x9e37_79b9
  {
    ValueDigits(0x9e37_79b9, 0x09e3_779b, 0x009e_3779, 0x0009_e377, 0x0000_9e37, 0x0000_09e3, 0x0000_009e, 0x0000_0009);
  }

  lemma IsFEEDBEF0()
    ensures Value(0xfeed_bef0) == 0xfeed_bef0
  {
    ValueDigits(0xfeed_bef0, 0x0fee_dbef, 0x00fe_edbe, 0x000f_eedb, 0x0000_feed, 0x0000_0fee, 0x0000_00fe, 0x0000_000f);
  }

  lemma Is832FF4AB()
    ensures Value(0x832f_f4ab) == 0x832f_f4ab
  {
    ValueDigits(0x832f_f4ab, 0x0832_ff4a, 0x0083_2ff4, 0x0008_32ff, 0x0000_832f, 0x0000_0832, 0x0000_0083, 0x0000_0008);
  }

  lemma Is2CB8ECA6()
    ensures Value(0x2cb8_eca6) == 0x2cb8_eca6
  {
    ValueDigits(0x2cb8_eca6, 0x02cb_8eca, 0x002c_b8ec, 0x0002_cb8e, 0x0000_2cb8, 0x0000_02cb, 0x0000_002c, 0x0000_0002);
  }

  lemma IsFB48D8C3()
    ensures Value(0xfb48_d8c3) == 0xfb48_d8c3
  {
    ValueDigits(0xfb48_d8c3, 0x0fb4_8d8c, 0x00fb_48d8, 0x000f_b48d, 0x0000_fb48, 0x0000_0fb4, 0x0000_00fb, 0x0000_000f);
  }

  lemma Is029ADC1A()
    ensures Value(0x029a_dc1a) == 0x029a_dc1a
  {
    ValueDigits(0x029a_dc1a, 0x0029_adc1, 0x0002_9adc, 0x0000_29ad, 0x0000_029a, 0x0000_0029, 0x0000_0002, 0x0000_0000);
  }

  lemma Is069EE01E()
    ensures Value(0x069e_e01e) == 0x069e_e01e
  {
    ValueDigits(0x069e_e01e, 0x0069_ee01, 0x0006_9ee0, 0x0000_69ee, 0x0000_069e, 0x0000_0069, 0x0000_0006, 0x0000_0000);
  }

  lemma Is6B592958()
    ensures Value(0x6b59_2958) == 0x6b59_2958
  {
    ValueDigits(0x6b59_2958, 0x06b5_9295, 0x006b_5929, 0x0006_b592, 0x0000_6b59, 0x0000_06b5, 0x0000_006b, 0x0000_0006);
  }

  lemma Is27511420()
    ensures Value(0x2751_1420) == 0x2751_1420
  {
    ValueDigits(0x2751_1420, 0x0275_1142, 0x0027_5114, 0x0002_7511, 0x0000_2751, 0x0000_0275, 0x0000_0027, 0x0000_0002);
  }

  lemma Is123BCEDB()
    ensures Value(0x123b_cedb) == 0x123b_cedb
  {
    ValueDigits(0x123b_cedb, 0x0123_bced, 0x0012_3bce, 0x0001_23bc, 0x0000_123b, 0x0000_0123, 0x0000_0012, 0x0000_0001);
  }

  lemma IsC6331BD8()
    ensures Value(0xc633_1bd8) == 0xc633_1bd8
  {
    ValueDigits(0xc633_1bd8, 0x0c63_31bd, 0x00c6_331b, 0x000c_6331, 0x0000_c633, 0x0000_0c63, 0x0000_00c6, 0x0000_000c);
  }

  lemma Is97C0828D()
    ensures Value(0x97c0_828d) == 0x97c0_828d
  {
    ValueDigits(0x97c0_828d, 0x097c_0828, 0x0097_c082, 0x0009_7c08, 0x0000_97c0, 0x0000_097c, 0x0000_0097, 0x0000_0009);
  }

  lemma Is86AF414C()
    ensures Value(0x86af_414c) == 0x86af_414c
  {
    ValueDigits(0x86af_414c, 0x086a_f414, 0x0086_af41, 0x0008_6af4, 0x0000_86af, 0x0000_086a, 0x0000_0086, 0x0000_0008);
  }

  lemma Is3DA990EF()
    ensures Value(0x3da9_90ef) == 0x3da9_90ef
  {
    ValueDigits(0x3da9_90ef, 0x03da_990e, 0x003d_a990, 0x0003_da99, 0x0000_3da9, 0x0000_03da, 0x0000_003d, 0x0000_0003);
  }

  lemma Is7E7EE22A()
    ensures Value(0x7e7e_e22a) == 0x7e7e_e22a
  {
    ValueDigits(0x7e7e_e22a, 0x07e7_ee22, 0x007e_7ee2, 0x0007_e7ee, 0x0000_7e7e, 0x0000_07e7, 0x0000_007e, 0x0000_0007);
  }

  lemma Is1EFF95D3()
    ensures Value(0x1eff_95d3) == 0x1eff_95d3
  {
    ValueDigits(0x1eff_95d3, 0x01ef_f95d, 0x001e_ff95, 0x0001_eff9, 0x0000_1eff, 0x0000_01ef, 0x0000_001e, 0x0000_0001);
  }

  lemma IsA9CE0092()
    ensures Value(0xa9ce_0092) == 0xa9ce_0092
  {
    ValueDigits(0xa9ce_0092, 0x0a9c_e009, 0x00a9_ce00, 0x000a_9ce0, 0x0000_a9ce, 0x0000_0a9c, 0x0000_00a9, 0x0000_000a);
  }
}
