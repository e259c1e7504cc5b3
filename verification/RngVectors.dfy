/** The first words of the SplitMix64 sequence from seed 0, worked out digit by hexadecimal digit. */
module RngVectors {
  import opened Rng

  // ----- exclusive or by digits -----

  function Low(a: nat, b: nat): nat {
    (a + b) % 2
  }

  lemma XorStep(a: nat, b: nat, a2: nat, b2: nat)
    requires a2 == a / 2 && b2 == b / 2
    ensures Xor(a, b) == Low(a, b) + 2 * Xor(a2, b2)
  {
    XorHalves(a, b);
  }

  /** The lowest hexadecimal digit of an exclusive or. */
  function LowDigit(a: nat, b: nat): nat {
    (a + b) % 2 + 2 * ((a / 2 + b / 2) % 2) + 4 * ((a / 4 + b / 4) % 2) + 8 * ((a / 8 + b / 8) % 2)
  }

  lemma XorByDigits(a: nat, b: nat)
    ensures Xor(a, b) == Low(a, b) + 2 * Low(a / 2, b / 2) + 4 * Low(a / 4, b / 4) + 8 * Low(a / 8, b / 8)
                         + 16 * Xor(a / 16, b / 16)
  {
    hide Xor, Low;
    XorStep(a, b, a / 2, b / 2);
    XorStep(a / 2, b / 2, a / 4, b / 4);
    XorStep(a / 4, b / 4, a / 8, b / 8);
    XorStep(a / 8, b / 8, a / 16, b / 16);
  }

  /** An exclusive or with one more digit. */
  lemma Digit(a: nat, b: nat, high: nat, x: nat)
    requires Xor(a / 16, b / 16) == high && x == LowDigit(a, b) + 16 * high
    ensures Xor(a, b) == x
  {
    hide Xor;
    XorByDigits(a, b);
  }

  // ----- shifts by division -----

  lemma ShiftFive(a: nat, k: nat)
    ensures ShiftRight(a, 5 + k) == ShiftRight(a / 32, k)
  {
    assert ShiftRight(a, 5) == a / 32;
    ShiftShift(a, 5, k);
  }

  lemma ShiftTwentyFive(a: nat, k: nat)
    ensures ShiftRight(a, 25 + k) == ShiftRight(a / 0x0200_0000, k)
  {
    hide ShiftRight;
    ShiftFive(a, 20 + k);
    ShiftFive(a / 32, 15 + k);
    ShiftFive(a / 1024, 10 + k);
    ShiftFive(a / 32768, 5 + k);
    ShiftFive(a / 1048576, k);
  }

  lemma Shifts(a: nat)
    ensures ShiftRight(a, 30) == a / 0x4000_0000 && ShiftRight(a, 27) == a / 0x0800_0000
    ensures ShiftRight(a, 31) == a / 0x8000_0000
  {
    ShiftTwentyFive(a, 5);
    ShiftTwentyFive(a, 2);
    ShiftTwentyFive(a, 6);
  }

  // ----- the first word -----

  lemma FirstXorHigh()
    ensures Xor(0x9e_3779_b97f, 0x278) == 0x9e_3779_bb07
  {
    hide Xor;
    XorZero(0x9e3_779b);
    Digit(0x9e37_79b9, 0x2, 0x9e3_779b, 0x9e37_79bb);
    Digit(0x9_e377_9b97, 0x27, 0x9e37_79bb, 0x9_e377_9bb0);
    Digit(0x9e_3779_b97f, 0x278, 0x9_e377_9bb0, 0x9e_3779_bb07);
  }

  lemma FirstXorMiddle()
    ensures Xor(0x9_e377_9b97_f4a7, 0x27_8dde) == 0x9_e377_9bb0_7979
  {
    hide Xor;
    FirstXorHigh();
    Digit(0x9e3_779b_97f4, 0x278d, 0x9e_3779_bb07, 0x9e3_779b_b079);
    Digit(0x9e37_79b9_7f4a, 0x2_78dd, 0x9e3_779b_b079, 0x9e37_79bb_0797);
    Digit(0x9_e377_9b97_f4a7, 0x27_8dde, 0x9e37_79bb_0797, 0x9_e377_9bb0_7979);
  }

  lemma FirstXor()
    ensures Xor(0x9e37_79b9_7f4a_7c15, 0x2_78dd_e6e5) == 0x9e37_79bb_0797_9af0
  {
    hide Xor;
    FirstXorMiddle();
    Digit(0x9e_3779_b97f_4a7c, 0x278_dde6, 0x9_e377_9bb0_7979, 0x9e_3779_bb07_979a);
    Digit(0x9e3_779b_97f4_a7c1, 0x278d_de6e, 0x9e_3779_bb07_979a, 0x9e3_779b_b079_79af);
    Digit(0x9e37_79b9_7f4a_7c15, 0x2_78dd_e6e5, 0x9e3_779b_b079_79af, 0x9e37_79bb_0797_9af0);
  }

  lemma SecondXorHigh()
    ensures Xor(0x6f_6826_1b57, 0xded) == 0x6f_6826_16ba
  {
    hide Xor;
    XorZero(0x6f6_8261);
    Digit(0x6f68_261b, 0xd, 0x6f6_8261, 0x6f68_2616);
    Digit(0x6_f682_61b5, 0xde, 0x6f68_2616, 0x6_f682_616b);
    Digit(0x6f_6826_1b57, 0xded, 0x6_f682_616b, 0x6f_6826_16ba);
  }

  lemma SecondXorMiddle()
    ensures Xor(0x6_f682_61b5_7e7a, 0xde_d04c) == 0x6_f682_616b_ae36
  {
    hide Xor;
    SecondXorHigh();
    Digit(0x6f6_8261_b57e, 0xded0, 0x6f_6826_16ba, 0x6f6_8261_6bae);
    Digit(0x6f68_261b_57e7, 0xd_ed04, 0x6f6_8261_6bae, 0x6f68_2616_bae3);
    Digit(0x6_f682_61b5_7e7a, 0xde_d04c, 0x6f68_2616_bae3, 0x6_f682_616b_ae36);
  }

  lemma SecondXor()
    ensures Xor(0x6f68_261b_57e7_a770, 0xd_ed04_c36a) == 0x6f68_2616_bae3_641a
  {
    hide Xor;
    SecondXorMiddle();
    Digit(0x6f_6826_1b57_e7a7, 0xded_04c3, 0x6_f682_616b_ae36, 0x6f_6826_16ba_e364);
    Digit(0x6f6_8261_b57e_7a77, 0xded0_4c36, 0x6f_6826_16ba_e364, 0x6f6_8261_6bae_3641);
    Digit(0x6f68_261b_57e7_a770, 0xd_ed04_c36a, 0x6f6_8261_6bae_3641, 0x6f68_2616_bae3_641a);
  }

  lemma ThirdXorHigh()
    ensures Xor(0xe2_20a8_38bf, 0x1c4) == 0xe2_20a8_397b
  {
    hide Xor;
    XorZero(0xe22_0a83);
    Digit(0xe220_a838, 0x1, 0xe22_0a83, 0xe220_a839);
    Digit(0xe_220a_838b, 0x1c, 0xe220_a839, 0xe_220a_8397);
    Digit(0xe2_20a8_38bf, 0x1c4, 0xe_220a_8397, 0xe2_20a8_397b);
  }

  lemma ThirdXorMiddle()
    ensures Xor(0xe_220a_838b_f5c9, 0x1c_4415) == 0xe_220a_8397_b1dc
  {
    hide Xor;
    ThirdXorHigh();
    Digit(0xe22_0a83_8bf5, 0x1c44, 0xe2_20a8_397b, 0xe22_0a83_97b1);
    Digit(0xe220_a838_bf5c, 0x1_c441, 0xe22_0a83_97b1, 0xe220_a839_7b1d);
    Digit(0xe_220a_838b_f5c9, 0x1c_4415, 0xe220_a839_7b1d, 0xe_220a_8397_b1dc);
  }

  lemma ThirdXor()
    ensures Xor(0xe220_a838_bf5c_9dde, 0x1_c441_5071) == 0xe220_a839_7b1d_cdaf
  {
    hide Xor;
    ThirdXorMiddle();
    Digit(0xe2_20a8_38bf_5c9d, 0x1c4_4150, 0xe_220a_8397_b1dc, 0xe2_20a8_397b_1dcd);
    Digit(0xe22_0a83_8bf5_c9dd, 0x1c44_1507, 0xe2_20a8_397b_1dcd, 0xe22_0a83_97b1_dcda);
    Digit(0xe220_a838_bf5c_9dde, 0x1_c441_5071, 0xe22_0a83_97b1_dcda, 0xe220_a839_7b1d_cdaf);
  }

  /** The first word drawn from seed 0 is that of the published sequence. */
  lemma FirstWord()
    ensures Draw(0, 1) == 0xe220_a839_7b1d_cdaf
  {
    hide Xor, ShiftRight;
    Shifts(0x9e37_79b9_7f4a_7c15);
    FirstXor();
    assert Times(0x9e37_79bb_0797_9af0, 0xbf58_476d_1ce4_e5b9) == 0x6f68_261b_57e7_a770;
    Shifts(0x6f68_261b_57e7_a770);
    SecondXor();
    assert Times(0x6f68_2616_bae3_641a, 0x94d0_49bb_1331_11eb) == 0xe220_a838_bf5c_9dde;
    Shifts(0xe220_a838_bf5c_9dde);
    ThirdXor();
  }
}
