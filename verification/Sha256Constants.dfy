/** Where the constants of Sha256 come from (sections 4.2.2 and 5.3.3 of FIPS 180-4): the first 32 bits of
    the fractional parts of the cube roots of the first sixty-four primes, and of the square roots of the
    first eight. */
module Sha256Constants {
  import opened Primes
  import opened Sha256Spec

  function Cube(x: nat): nat {
    x * x * x
  }

  /** n.k is the cube root of p, cut after 32 bits. */
  predicate CubeRoot(n: nat, k: word, p: nat) {
    Cube(0x0001_0000_0000 * n + k) <= p * Cube(0x0001_0000_0000) < Cube(0x0001_0000_0000 * n + k + 1)
  }

  /** n.k is the square root of p, cut after 32 bits. */
  predicate SquareRoot(n: nat, k: word, p: nat) {
    (0x0001_0000_0000 * n + k) * (0x0001_0000_0000 * n + k) <= p * 0x0001_0000_0000 * 0x0001_0000_0000
      < (0x0001_0000_0000 * n + k + 1) * (0x0001_0000_0000 * n + k + 1)
  }

  ghost predicate CubeFraction(k: word, p: nat) {
    exists n: nat :: CubeRoot(n, k, p)
  }

  ghost predicate SquareFraction(k: word, p: nat) {
    exists n: nat :: SquareRoot(n, k, p)
  }

  lemma Constants0()
    ensures |K| == 64
    ensures K[0] == 0x428a_2f98 && K[1] == 0x7137_4491
    ensures K[2] == 0xb5c0_fbcf && K[3] == 0xe9b5_dba5
    ensures K[4] == 0x3956_c25b && K[5] == 0x59f1_11f1
    ensures K[6] == 0x923f_82a4 && K[7] == 0xab1c_5ed5
  {
  }

  lemma Constants8()
    ensures |K| == 64
    ensures K[8] == 0xd807_aa98 && K[9] == 0x1283_5b01
    ensures K[10] == 0x2431_85be && K[11] == 0x550c_7dc3
    ensures K[12] == 0x72be_5d74 && K[13] == 0x80de_b1fe
    ensures K[14] == 0x9bdc_06a7 && K[15] == 0xc19b_f174
  {
  }

  lemma Constants16()
    ensures |K| == 64
    ensures K[16] == 0xe49b_69c1 && K[17] == 0xefbe_4786
    ensures K[18] == 0x0fc1_9dc6 && K[19] == 0x240c_a1cc
    ensures K[20] == 0x2de9_2c6f && K[21] == 0x4a74_84aa
    ensures K[22] == 0x5cb0_a9dc && K[23] == 0x76f9_88da
  {
  }

  lemma Constants24()
    ensures |K| == 64
    ensures K[24] == 0x983e_5152 && K[25] == 0xa831_c66d
    ensures K[26] == 0xb003_27c8 && K[27] == 0xbf59_7fc7
    ensures K[28] == 0xc6e0_0bf3 && K[29] == 0xd5a7_9147
    ensures K[30] == 0x06ca_6351 && K[31] == 0x1429_2967
  {
  }

  lemma Constants32()
    ensures |K| == 64
    ensures K[32] == 0x27b7_0a85 && K[33] == 0x2e1b_2138
    ensures K[34] == 0x4d2c_6dfc && K[35] == 0x5338_0d13
    ensures K[36] == 0x650a_7354 && K[37] == 0x766a_0abb
    ensures K[38] == 0x81c2_c92e && K[39] == 0x9272_2c85
  {
  }

  lemma Constants40()
    ensures |K| == 64
    ensures K[40] == 0xa2bf_e8a1 && K[41] == 0xa81a_664b
    ensures K[42] == 0xc24b_8b70 && K[43] == 0xc76c_51a3
    ensures K[44] == 0xd192_e819 && K[45] == 0xd699_0624
    ensures K[46] == 0xf40e_3585 && K[47] == 0x106a_a070
  {
  }

  lemma Constants48()
    ensures |K| == 64
    ensures K[48] == 0x19a4_c116 && K[49] == 0x1e37_6c08
    ensures K[50] == 0x2748_774c && K[51] == 0x34b0_bcb5
    ensures K[52] == 0x391c_0cb3 && K[53] == 0x4ed8_aa4a
    ensures K[54] == 0x5b9c_ca4f && K[55] == 0x682e_6ff3
  {
  }

  lemma Constants56()
    ensures |K| == 64
    ensures K[56] == 0x748f_82ee && K[57] == 0x78a5_636f
    ensures K[58] == 0x84c8_7814 && K[59] == 0x8cc7_0208
    ensures K[60] == 0x90be_fffa && K[61] == 0xa450_6ceb
    ensures K[62] == 0xbef9_a3f7 && K[63] == 0xc671_78f2
  {
  }

  lemma CubeRoots0()
    ensures CubeRoot(1, 0x428a_2f98, 2)
    ensures CubeRoot(1, 0x7137_4491, 3)
    ensures CubeRoot(1, 0xb5c0_fbcf, 5)
    ensures CubeRoot(1, 0xe9b5_dba5, 7)
    ensures CubeRoot(2, 0x3956_c25b, 11)
    ensures CubeRoot(2, 0x59f1_11f1, 13)
    ensures CubeRoot(2, 0x923f_82a4, 17)
    ensures CubeRoot(2, 0xab1c_5ed5, 19)
  {
  }

  lemma Fractions0(i: nat)
    requires 0 <= i < 8
    ensures |K| == 64 && |PRIMES| == 80 && CubeFraction(K[i], PRIMES[i])
  {
    Constants0();
    Entries0();
    CubeRoots0();
    hide K, PRIMES, CubeRoot;
  }

  lemma CubeRoots8()
    ensures CubeRoot(2, 0xd807_aa98, 23)
    ensures CubeRoot(3, 0x1283_5b01, 29)
    ensures CubeRoot(3, 0x2431_85be, 31)
    ensures CubeRoot(3, 0x550c_7dc3, 37)
    ensures CubeRoot(3, 0x72be_5d74, 41)
    ensures CubeRoot(3, 0x80de_b1fe, 43)
    ensures CubeRoot(3, 0x9bdc_06a7, 47)
    ensures CubeRoot(3, 0xc19b_f174, 53)
  {
  }

  lemma Fractions8(i: nat)
    requires 8 <= i < 16
    ensures |K| == 64 && |PRIMES| == 80 && CubeFraction(K[i], PRIMES[i])
  {
    Constants8();
    Entries8();
    CubeRoots8();
    hide K, PRIMES, CubeRoot;
  }

  lemma CubeRoots16()
    ensures CubeRoot(3, 0xe49b_69c1, 59)
    ensures CubeRoot(3, 0xefbe_4786, 61)
    ensures CubeRoot(4, 0x0fc1_9dc6, 67)
    ensures CubeRoot(4, 0x240c_a1cc, 71)
    ensures CubeRoot(4, 0x2de9_2c6f, 73)
    ensures CubeRoot(4, 0x4a74_84aa, 79)
    ensures CubeRoot(4, 0x5cb0_a9dc, 83)
    ensures CubeRoot(4, 0x76f9_88da, 89)
  {
  }

  lemma Fractions16(i: nat)
    requires 16 <= i < 24
    ensures |K| == 64 && |PRIMES| == 80 && CubeFraction(K[i], PRIMES[i])
  {
    Constants16();
    Entries16();
    CubeRoots16();
    hide K, PRIMES, CubeRoot;
  }

  lemma CubeRoots24()
    ensures CubeRoot(4, 0x983e_5152, 97)
    ensures CubeRoot(4, 0xa831_c66d, 101)
    ensures CubeRoot(4, 0xb003_27c8, 103)
    ensures CubeRoot(4, 0xbf59_7fc7, 107)
    ensures CubeRoot(4, 0xc6e0_0bf3, 109)
    ensures CubeRoot(4, 0xd5a7_9147, 113)
    ensures CubeRoot(5, 0x06ca_6351, 127)
    ensures CubeRoot(5, 0x1429_2967, 131)
  {
  }

  lemma Fractions24(i: nat)
    requires 24 <= i < 32
    ensures |K| == 64 && |PRIMES| == 80 && CubeFraction(K[i], PRIMES[i])
  {
    Constants24();
    Entries24();
    CubeRoots24();
    hide K, PRIMES, CubeRoot;
  }

  lemma CubeRoots32()
    ensures CubeRoot(5, 0x27b7_0a85, 137)
    ensures CubeRoot(5, 0x2e1b_2138, 139)
    ensures CubeRoot(5, 0x4d2c_6dfc, 149)
    ensures CubeRoot(5, 0x5338_0d13, 151)
    ensures CubeRoot(5, 0x650a_7354, 157)
    ensures CubeRoot(5, 0x766a_0abb, 163)
    ensures CubeRoot(5, 0x81c2_c92e, 167)
    ensures CubeRoot(5, 0x9272_2c85, 173)
  {
  }

  lemma Fractions32(i: nat)
    requires 32 <= i < 40
    ensures |K| == 64 && |PRIMES| == 80 && CubeFraction(K[i], PRIMES[i])
  {
    Constants32();
    Entries32();
    CubeRoots32();
    hide K, PRIMES, CubeRoot;
  }

  lemma CubeRoots40()
    ensures CubeRoot(5, 0xa2bf_e8a1, 179)
    ensures CubeRoot(5, 0xa81a_664b, 181)
    ensures CubeRoot(5, 0xc24b_8b70, 191)
    ensures CubeRoot(5, 0xc76c_51a3, 193)
    ensures CubeRoot(5, 0xd192_e819, 197)
    ensures CubeRoot(5, 0xd699_0624, 199)
    ensures CubeRoot(5, 0xf40e_3585, 211)
    ensures CubeRoot(6, 0x106a_a070, 223)
  {
  }

  lemma Fractions40(i: nat)
    requires 40 <= i < 48
    ensures |K| == 64 && |PRIMES| == 80 && CubeFraction(K[i], PRIMES[i])
  {
    Constants40();
    Entries40();
    CubeRoots40();
    hide K, PRIMES, CubeRoot;
  }

  lemma CubeRoots48()
    ensures CubeRoot(6, 0x19a4_c116, 227)
    ensures CubeRoot(6, 0x1e37_6c08, 229)
    ensures CubeRoot(6, 0x2748_774c, 233)
    ensures CubeRoot(6, 0x34b0_bcb5, 239)
    ensures CubeRoot(6, 0x391c_0cb3, 241)
    ensures CubeRoot(6, 0x4ed8_aa4a, 251)
    ensures CubeRoot(6, 0x5b9c_ca4f, 257)
    ensures CubeRoot(6, 0x682e_6ff3, 263)
  {
  }

  lemma Fractions48(i: nat)
    requires 48 <= i < 56
    ensures |K| == 64 && |PRIMES| == 80 && CubeFraction(K[i], PRIMES[i])
  {
    Constants48();
    Entries48();
    CubeRoots48();
    hide K, PRIMES, CubeRoot;
  }

  lemma CubeRoots56()
    ensures CubeRoot(6, 0x748f_82ee, 269)
    ensures CubeRoot(6, 0x78a5_636f, 271)
    ensures CubeRoot(6, 0x84c8_7814, 277)
    ensures CubeRoot(6, 0x8cc7_0208, 281)
    ensures CubeRoot(6, 0x90be_fffa, 283)
    ensures CubeRoot(6, 0xa450_6ceb, 293)
    ensures CubeRoot(6, 0xbef9_a3f7, 307)
    ensures CubeRoot(6, 0xc671_78f2, 311)
  {
  }

  lemma Fractions56(i: nat)
    requires 56 <= i < 64
    ensures |K| == 64 && |PRIMES| == 80 && CubeFraction(K[i], PRIMES[i])
  {
    Constants56();
    Entries56();
    CubeRoots56();
    hide K, PRIMES, CubeRoot;
  }

  /** Every round constant is the start of the cube root of its prime. */
  lemma ConstantsAre()
    ensures |K| == 64 && |PRIMES| == 80 && forall i :: 0 <= i < 64 ==> CubeFraction(K[i], PRIMES[i])
  {
    Constants0();
    Entries0();
    hide K, PRIMES, CubeFraction;
    forall i | 0 <= i < 64 ensures CubeFraction(K[i], PRIMES[i]) {
      if i < 8 {
        Fractions0(i);
      } else if i < 16 {
        Fractions8(i);
      } else if i < 24 {
        Fractions16(i);
      } else if i < 32 {
        Fractions24(i);
      } else if i < 40 {
        Fractions32(i);
      } else if i < 48 {
        Fractions40(i);
      } else if i < 56 {
        Fractions48(i);
      } else {
        Fractions56(i);
      }
    }
  }

  lemma InitialValues()
    ensures |IV| == 8 && IV[0] == 0x6a09_e667 && IV[1] == 0xbb67_ae85
    ensures IV[2] == 0x3c6e_f372 && IV[3] == 0xa54f_f53a
    ensures IV[4] == 0x510e_527f && IV[5] == 0x9b05_688c
    ensures IV[6] == 0x1f83_d9ab && IV[7] == 0x5be0_cd19
  {
  }

  lemma SquareRoots()
    ensures SquareRoot(1, 0x6a09_e667, 2)
    ensures SquareRoot(1, 0xbb67_ae85, 3)
    ensures SquareRoot(2, 0x3c6e_f372, 5)
    ensures SquareRoot(2, 0xa54f_f53a, 7)
    ensures SquareRoot(3, 0x510e_527f, 11)
    ensures SquareRoot(3, 0x9b05_688c, 13)
    ensures SquareRoot(4, 0x1f83_d9ab, 17)
    ensures SquareRoot(4, 0x5be0_cd19, 19)
  {
  }

  /** Every word of the initial value is the start of the square root of its prime. */
  lemma InitialValuesAre()
    ensures |IV| == 8 && |PRIMES| == 80 && forall i :: 0 <= i < 8 ==> SquareFraction(IV[i], PRIMES[i])
  {
    InitialValues();
    Entries0();
    SquareRoots();
    hide IV, PRIMES, SquareRoot;
  }
}
