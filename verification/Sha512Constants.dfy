/** Where the constants of Sha512 come from (sections 4.2.3 and 5.3.5 of FIPS 180-4): the first 64 bits of
    the fractional parts of the cube roots of the first eighty primes, and of the square roots of the
    first eight. */
module Sha512Constants {
  import opened Primes
  import opened Sha512Spec
  import opened WordBits

  function Cube(x: nat): nat {
    x * x * x
  }

  /** n.k is the cube root of p, cut after 64 bits. */
  predicate CubeRoot(n: nat, k: word, p: nat) {
    Cube(0x0001_0000_0000_0000_0000 * n + k) <= p * Cube(0x0001_0000_0000_0000_0000) < Cube(0x0001_0000_0000_0000_0000 * n + k + 1)
  }

  /** n.k is the square root of p, cut after 64 bits. */
  predicate SquareRoot(n: nat, k: word, p: nat) {
    (0x0001_0000_0000_0000_0000 * n + k) * (0x0001_0000_0000_0000_0000 * n + k) <= p * 0x0001_0000_0000_0000_0000 * 0x0001_0000_0000_0000_0000
      < (0x0001_0000_0000_0000_0000 * n + k + 1) * (0x0001_0000_0000_0000_0000 * n + k + 1)
  }

  ghost predicate CubeFraction(k: word, p: nat) {
    exists n: nat :: CubeRoot(n, k, p)
  }

  ghost predicate SquareFraction(k: word, p: nat) {
    exists n: nat :: SquareRoot(n, k, p)
  }

  lemma Constants0()
    ensures |K| == 80
    ensures K[0] == 0x428a_2f98_d728_ae22 && K[1] == 0x7137_4491_23ef_65cd
    ensures K[2] == 0xb5c0_fbcf_ec4d_3b2f && K[3] == 0xe9b5_dba5_8189_dbbc
    ensures K[4] == 0x3956_c25b_f348_b538 && K[5] == 0x59f1_11f1_b605_d019
    ensures K[6] == 0x923f_82a4_af19_4f9b && K[7] == 0xab1c_5ed5_da6d_8118
  {
  }

  lemma Constants8()
    ensures |K| == 80
    ensures K[8] == 0xd807_aa98_a303_0242 && K[9] == 0x1283_5b01_4570_6fbe
    ensures K[10] == 0x2431_85be_4ee4_b28c && K[11] == 0x550c_7dc3_d5ff_b4e2
    ensures K[12] == 0x72be_5d74_f27b_896f && K[13] == 0x80de_b1fe_3b16_96b1
    ensures K[14] == 0x9bdc_06a7_25c7_1235 && K[15] == 0xc19b_f174_cf69_2694
  {
  }

  lemma Constants16()
    ensures |K| == 80
    ensures K[16] == 0xe49b_69c1_9ef1_4ad2 && K[17] == 0xefbe_4786_384f_25e3
    ensures K[18] == 0x0fc1_9dc6_8b8c_d5b5 && K[19] == 0x240c_a1cc_77ac_9c65
    ensures K[20] == 0x2de9_2c6f_592b_0275 && K[21] == 0x4a74_84aa_6ea6_e483
    ensures K[22] == 0x5cb0_a9dc_bd41_fbd4 && K[23] == 0x76f9_88da_8311_53b5
  {
  }

  lemma Constants24()
    ensures |K| == 80
    ensures K[24] == 0x983e_5152_ee66_dfab && K[25] == 0xa831_c66d_2db4_3210
    ensures K[26] == 0xb003_27c8_98fb_213f && K[27] == 0xbf59_7fc7_beef_0ee4
    ensures K[28] == 0xc6e0_0bf3_3da8_8fc2 && K[29] == 0xd5a7_9147_930a_a725
    ensures K[30] == 0x06ca_6351_e003_826f && K[31] == 0x1429_2967_0a0e_6e70
  {
  }

  lemma Constants32()
    ensures |K| == 80
    ensures K[32] == 0x27b7_0a85_46d2_2ffc && K[33] == 0x2e1b_2138_5c26_c926
    ensures K[34] == 0x4d2c_6dfc_5ac4_2aed && K[35] == 0x5338_0d13_9d95_b3df
    ensures K[36] == 0x650a_7354_8baf_63de && K[37] == 0x766a_0abb_3c77_b2a8
    ensures K[38] == 0x81c2_c92e_47ed_aee6 && K[39] == 0x9272_2c85_1482_353b
  {
  }

  lemma Constants40()
    ensures |K| == 80
    ensures K[40] == 0xa2bf_e8a1_4cf1_0364 && K[41] == 0xa81a_664b_bc42_3001
    ensures K[42] == 0xc24b_8b70_d0f8_9791 && K[43] == 0xc76c_51a3_0654_be30
    ensures K[44] == 0xd192_e819_d6ef_5218 && K[45] == 0xd699_0624_5565_a910
    ensures K[46] == 0xf40e_3585_5771_202a && K[47] == 0x106a_a070_32bb_d1b8
  {
  }

  lemma Constants48()
    ensures |K| == 80
    ensures K[48] == 0x19a4_c116_b8d2_d0c8 && K[49] == 0x1e37_6c08_5141_ab53
    ensures K[50] == 0x2748_774c_df8e_eb99 && K[51] == 0x34b0_bcb5_e19b_48a8
    ensures K[52] == 0x391c_0cb3_c5c9_5a63 && K[53] == 0x4ed8_aa4a_e341_8acb
    ensures K[54] == 0x5b9c_ca4f_7763_e373 && K[55] == 0x682e_6ff3_d6b2_b8a3
  {
  }

  lemma Constants56()
    ensures |K| == 80
    ensures K[56] == 0x748f_82ee_5def_b2fc && K[57] == 0x78a5_636f_4317_2f60
    ensures K[58] == 0x84c8_7814_a1f0_ab72 && K[59] == 0x8cc7_0208_1a64_39ec
    ensures K[60] == 0x90be_fffa_2363_1e28 && K[61] == 0xa450_6ceb_de82_bde9
    ensures K[62] == 0xbef9_a3f7_b2c6_7915 && K[63] == 0xc671_78f2_e372_532b
  {
  }

  lemma Constants64()
    ensures |K| == 80
    ensures K[64] == 0xca27_3ece_ea26_619c && K[65] == 0xd186_b8c7_21c0_c207
    ensures K[66] == 0xeada_7dd6_cde0_eb1e && K[67] == 0xf57d_4f7f_ee6e_d178
    ensures K[68] == 0x06f0_67aa_7217_6fba && K[69] == 0x0a63_7dc5_a2c8_98a6
    ensures K[70] == 0x113f_9804_bef9_0dae && K[71] == 0x1b71_0b35_131c_471b
  {
  }

  lemma Constants72()
    ensures |K| == 80
    ensures K[72] == 0x28db_77f5_2304_7d84 && K[73] == 0x32ca_ab7b_40c7_2493
    ensures K[74] == 0x3c9e_be0a_15c9_bebc && K[75] == 0x431d_67c4_9c10_0d4c
    ensures K[76] == 0x4cc5_d4be_cb3e_42b6 && K[77] == 0x597f_299c_fc65_7e2a
    ensures K[78] == 0x5fcb_6fab_3ad6_faec && K[79] == 0x6c44_198c_4a47_5817
  {
  }

  lemma CubeRoots0()
    ensures CubeRoot(1, 0x428a_2f98_d728_ae22, 2)
    ensures CubeRoot(1, 0x7137_4491_23ef_65cd, 3)
    ensures CubeRoot(1, 0xb5c0_fbcf_ec4d_3b2f, 5)
    ensures CubeRoot(1, 0xe9b5_dba5_8189_dbbc, 7)
    ensures CubeRoot(2, 0x3956_c25b_f348_b538, 11)
    ensures CubeRoot(2, 0x59f1_11f1_b605_d019, 13)
    ensures CubeRoot(2, 0x923f_82a4_af19_4f9b, 17)
    ensures CubeRoot(2, 0xab1c_5ed5_da6d_8118, 19)
  {
  }

  lemma Fractions0(i: nat)
    requires 0 <= i < 8
    ensures |K| == 80 && |PRIMES| == 80 && CubeFraction(K[i], PRIMES[i])
  {
    Constants0();
    Entries0();
    CubeRoots0();
    hide K, PRIMES, CubeRoot;
  }

  lemma CubeRoots8()
    ensures CubeRoot(2, 0xd807_aa98_a303_0242, 23)
    ensures CubeRoot(3, 0x1283_5b01_4570_6fbe, 29)
    ensures CubeRoot(3, 0x2431_85be_4ee4_b28c, 31)
    ensures CubeRoot(3, 0x550c_7dc3_d5ff_b4e2, 37)
    ensures CubeRoot(3, 0x72be_5d74_f27b_896f, 41)
    ensures CubeRoot(3, 0x80de_b1fe_3b16_96b1, 43)
    ensures CubeRoot(3, 0x9bdc_06a7_25c7_1235, 47)
    ensures CubeRoot(3, 0xc19b_f174_cf69_2694, 53)
  {
  }

  lemma Fractions8(i: nat)
    requires 8 <= i < 16
    ensures |K| == 80 && |PRIMES| == 80 && CubeFraction(K[i], PRIMES[i])
  {
    Constants8();
    Entries8();
    CubeRoots8();
    hide K, PRIMES, CubeRoot;
  }

  lemma CubeRoots16()
    ensures CubeRoot(3, 0xe49b_69c1_9ef1_4ad2, 59)
    ensures CubeRoot(3, 0xefbe_4786_384f_25e3, 61)
    ensures CubeRoot(4, 0x0fc1_9dc6_8b8c_d5b5, 67)
    ensures CubeRoot(4, 0x240c_a1cc_77ac_9c65, 71)
    ensures CubeRoot(4, 0x2de9_2c6f_592b_0275, 73)
    ensures CubeRoot(4, 0x4a74_84aa_6ea6_e483, 79)
    ensures CubeRoot(4, 0x5cb0_a9dc_bd41_fbd4, 83)
    ensures CubeRoot(4, 0x76f9_88da_8311_53b5, 89)
  {
  }

  lemma Fractions16(i: nat)
    requires 16 <= i < 24
    ensures |K| == 80 && |PRIMES| == 80 && CubeFraction(K[i], PRIMES[i])
  {
    Constants16();
    Entries16();
    CubeRoots16();
    hide K, PRIMES, CubeRoot;
  }

  lemma CubeRoots24()
    ensures CubeRoot(4, 0x983e_5152_ee66_dfab, 97)
    ensures CubeRoot(4, 0xa831_c66d_2db4_3210, 101)
    ensures CubeRoot(4, 0xb003_27c8_98fb_213f, 103)
    ensures CubeRoot(4, 0xbf59_7fc7_beef_0ee4, 107)
    ensures CubeRoot(4, 0xc6e0_0bf3_3da8_8fc2, 109)
    ensures CubeRoot(4, 0xd5a7_9147_930a_a725, 113)
    ensures CubeRoot(5, 0x06ca_6351_e003_826f, 127)
    ensures CubeRoot(5, 0x1429_2967_0a0e_6e70, 131)
  {
  }

  lemma Fractions24(i: nat)
    requires 24 <= i < 32
    ensures |K| == 80 && |PRIMES| == 80 && CubeFraction(K[i], PRIMES[i])
  {
    Constants24();
    Entries24();
    CubeRoots24();
    hide K, PRIMES, CubeRoot;
  }

  lemma CubeRoots32()
    ensures CubeRoot(5, 0x27b7_0a85_46d2_2ffc, 137)
    ensures CubeRoot(5, 0x2e1b_2138_5c26_c926, 139)
    ensures CubeRoot(5, 0x4d2c_6dfc_5ac4_2aed, 149)
    ensures CubeRoot(5, 0x5338_0d13_9d95_b3df, 151)
    ensures CubeRoot(5, 0x650a_7354_8baf_63de, 157)
    ensures CubeRoot(5, 0x766a_0abb_3c77_b2a8, 163)
    ensures CubeRoot(5, 0x81c2_c92e_47ed_aee6, 167)
    ensures CubeRoot(5, 0x9272_2c85_1482_353b, 173)
  {
  }

  lemma Fractions32(i: nat)
    requires 32 <= i < 40
    ensures |K| == 80 && |PRIMES| == 80 && CubeFraction(K[i], PRIMES[i])
  {
    Constants32();
    Entries32();
    CubeRoots32();
    hide K, PRIMES, CubeRoot;
  }

  lemma CubeRoots40()
    ensures CubeRoot(5, 0xa2bf_e8a1_4cf1_0364, 179)
    ensures CubeRoot(5, 0xa81a_664b_bc42_3001, 181)
    ensures CubeRoot(5, 0xc24b_8b70_d0f8_9791, 191)
    ensures CubeRoot(5, 0xc76c_51a3_0654_be30, 193)
    ensures CubeRoot(5, 0xd192_e819_d6ef_5218, 197)
    ensures CubeRoot(5, 0xd699_0624_5565_a910, 199)
    ensures CubeRoot(5, 0xf40e_3585_5771_202a, 211)
    ensures CubeRoot(6, 0x106a_a070_32bb_d1b8, 223)
  {
  }

  lemma Fractions40(i: nat)
    requires 40 <= i < 48
    ensures |K| == 80 && |PRIMES| == 80 && CubeFraction(K[i], PRIMES[i])
  {
    Constants40();
    Entries40();
    CubeRoots40();
    hide K, PRIMES, CubeRoot;
  }

  lemma CubeRoots48()
    ensures CubeRoot(6, 0x19a4_c116_b8d2_d0c8, 227)
    ensures CubeRoot(6, 0x1e37_6c08_5141_ab53, 229)
    ensures CubeRoot(6, 0x2748_774c_df8e_eb99, 233)
    ensures CubeRoot(6, 0x34b0_bcb5_e19b_48a8, 239)
    ensures CubeRoot(6, 0x391c_0cb3_c5c9_5a63, 241)
    ensures CubeRoot(6, 0x4ed8_aa4a_e341_8acb, 251)
    ensures CubeRoot(6, 0x5b9c_ca4f_7763_e373, 257)
    ensures CubeRoot(6, 0x682e_6ff3_d6b2_b8a3, 263)
  {
  }

  lemma Fractions48(i: nat)
    requires 48 <= i < 56
    ensures |K| == 80 && |PRIMES| == 80 && CubeFraction(K[i], PRIMES[i])
  {
    Constants48();
    Entries48();
    CubeRoots48();
    hide K, PRIMES, CubeRoot;
  }

  lemma CubeRoots56()
    ensures CubeRoot(6, 0x748f_82ee_5def_b2fc, 269)
    ensures CubeRoot(6, 0x78a5_636f_4317_2f60, 271)
    ensures CubeRoot(6, 0x84c8_7814_a1f0_ab72, 277)
    ensures CubeRoot(6, 0x8cc7_0208_1a64_39ec, 281)
    ensures CubeRoot(6, 0x90be_fffa_2363_1e28, 283)
    ensures CubeRoot(6, 0xa450_6ceb_de82_bde9, 293)
    ensures CubeRoot(6, 0xbef9_a3f7_b2c6_7915, 307)
    ensures CubeRoot(6, 0xc671_78f2_e372_532b, 311)
  {
  }

  lemma Fractions56(i: nat)
    requires 56 <= i < 64
    ensures |K| == 80 && |PRIMES| == 80 && CubeFraction(K[i], PRIMES[i])
  {
    Constants56();
    Entries56();
    CubeRoots56();
    hide K, PRIMES, CubeRoot;
  }

  lemma CubeRoots64()
    ensures CubeRoot(6, 0xca27_3ece_ea26_619c, 313)
    ensures CubeRoot(6, 0xd186_b8c7_21c0_c207, 317)
    ensures CubeRoot(6, 0xeada_7dd6_cde0_eb1e, 331)
    ensures CubeRoot(6, 0xf57d_4f7f_ee6e_d178, 337)
    ensures CubeRoot(7, 0x06f0_67aa_7217_6fba, 347)
    ensures CubeRoot(7, 0x0a63_7dc5_a2c8_98a6, 349)
    ensures CubeRoot(7, 0x113f_9804_bef9_0dae, 353)
    ensures CubeRoot(7, 0x1b71_0b35_131c_471b, 359)
  {
  }

  lemma Fractions64(i: nat)
    requires 64 <= i < 72
    ensures |K| == 80 && |PRIMES| == 80 && CubeFraction(K[i], PRIMES[i])
  {
    Constants64();
    Entries64();
    CubeRoots64();
    hide K, PRIMES, CubeRoot;
  }

  lemma CubeRoots72()
    ensures CubeRoot(7, 0x28db_77f5_2304_7d84, 367)
    ensures CubeRoot(7, 0x32ca_ab7b_40c7_2493, 373)
    ensures CubeRoot(7, 0x3c9e_be0a_15c9_bebc, 379)
    ensures CubeRoot(7, 0x431d_67c4_9c10_0d4c, 383)
    ensures CubeRoot(7, 0x4cc5_d4be_cb3e_42b6, 389)
    ensures CubeRoot(7, 0x597f_299c_fc65_7e2a, 397)
    ensures CubeRoot(7, 0x5fcb_6fab_3ad6_faec, 401)
    ensures CubeRoot(7, 0x6c44_198c_4a47_5817, 409)
  {
  }

  lemma Fractions72(i: nat)
    requires 72 <= i < 80
    ensures |K| == 80 && |PRIMES| == 80 && CubeFraction(K[i], PRIMES[i])
  {
    Constants72();
    Entries72();
    CubeRoots72();
    hide K, PRIMES, CubeRoot;
  }

  /** Every round constant is the start of the cube root of its prime. */
  lemma ConstantsAre()
    ensures |K| == 80 && |PRIMES| == 80 && forall i :: 0 <= i < 80 ==> CubeFraction(K[i], PRIMES[i])
  {
    Constants0();
    Entries0();
    hide K, PRIMES, CubeFraction;
    forall i | 0 <= i < 80 ensures CubeFraction(K[i], PRIMES[i]) {
      if i < 8 {
        Fractions0(i);
      } else if i < 16 {
        Fractions8(i);
      } else if i < 24 {
        Fractions16(i);
      } else if i < 32 {
        Fractions24(i);
      } else if i < 40 {
        Fractions32(i);
      } else if i < 48 {
        Fractions40(i);
      } else if i < 56 {
        Fractions48(i);
      } else if i < 64 {
        Fractions56(i);
      } else if i < 72 {
        Fractions64(i);
      } else {
        Fractions72(i);
      }
    }
  }

  lemma InitialValues()
    ensures |IV| == 8 && IV[0] == 0x6a09_e667_f3bc_c908 && IV[1] == 0xbb67_ae85_84ca_a73b
    ensures IV[2] == 0x3c6e_f372_fe94_f82b && IV[3] == 0xa54f_f53a_5f1d_36f1
    ensures IV[4] == 0x510e_527f_ade6_82d1 && IV[5] == 0x9b05_688c_2b3e_6c1f
    ensures IV[6] == 0x1f83_d9ab_fb41_bd6b && IV[7] == 0x5be0_cd19_137e_2179
  {
  }

  lemma SquareRoots()
    ensures SquareRoot(1, 0x6a09_e667_f3bc_c908, 2)
    ensures SquareRoot(1, 0xbb67_ae85_84ca_a73b, 3)
    ensures SquareRoot(2, 0x3c6e_f372_fe94_f82b, 5)
    ensures SquareRoot(2, 0xa54f_f53a_5f1d_36f1, 7)
    ensures SquareRoot(3, 0x510e_527f_ade6_82d1, 11)
    ensures SquareRoot(3, 0x9b05_688c_2b3e_6c1f, 13)
    ensures SquareRoot(4, 0x1f83_d9ab_fb41_bd6b, 17)
    ensures SquareRoot(4, 0x5be0_cd19_137e_2179, 19)
  {
  }

  /** Every word of the initial value is the start of the square root of its prime. */
  lemma InitialValuesAre()
    ensures |IV| == 8 && |PRIMES| == 80 && forall i :: 0 <= i < 8 ==> SquareFraction(IV[i], PRIMES[i])
  {
    InitialValues();
    Entries0();
    SquareRoots();
    hide IV, PRIMES, SquareRoot;
  }
}
