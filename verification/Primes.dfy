/** The first eighty primes, from which the constants of the SHA-2 family are taken. */
module Primes {
  import opened Arithmetic

  const ROW0: seq<nat> := [2, 3, 5, 7]
  const ROW4: seq<nat> := [11, 13, 17, 19]
  const ROW8: seq<nat> := [23, 29, 31, 37]
  const ROW12: seq<nat> := [41, 43, 47, 53]
  const ROW16: seq<nat> := [59, 61, 67, 71]
  const ROW20: seq<nat> := [73, 79, 83, 89]
  const ROW24: seq<nat> := [97, 101, 103, 107]
  const ROW28: seq<nat> := [109, 113, 127, 131]
  const ROW32: seq<nat> := [137, 139, 149, 151]
  const ROW36: seq<nat> := [157, 163, 167, 173]
  const ROW40: seq<nat> := [179, 181, 191, 193]
  const ROW44: seq<nat> := [197, 199, 211, 223]
  const ROW48: seq<nat> := [227, 229, 233, 239]
  const ROW52: seq<nat> := [241, 251, 257, 263]
  const ROW56: seq<nat> := [269, 271, 277, 281]
  const ROW60: seq<nat> := [283, 293, 307, 311]
  const ROW64: seq<nat> := [313, 317, 331, 337]
  const ROW68: seq<nat> := [347, 349, 353, 359]
  const ROW72: seq<nat> := [367, 373, 379, 383]
  const ROW76: seq<nat> := [389, 397, 401, 409]

  const PRIMES: seq<nat> := (ROW0 + ROW4 + ROW8 + ROW12 + ROW16) +
    (ROW20 + ROW24 + ROW28 + ROW32 + ROW36) +
    (ROW40 + ROW44 + ROW48 + ROW52 + ROW56) +
    (ROW60 + ROW64 + ROW68 + ROW72 + ROW76)

  ghost predicate IsPrime(n: nat) {
    n >= 2 && forall k :: 2 <= k < n ==> n % k != 0
  }

  /** No prime below 23 divides n, n itself aside. */
  predicate Sieved(n: nat) {
    && n >= 2
    && (n % 2 != 0 || n == 2) && (n % 3 != 0 || n == 3) && (n % 5 != 0 || n == 5) && (n % 7 != 0 || n == 7)
    && (n % 11 != 0 || n == 11) && (n % 13 != 0 || n == 13) && (n % 17 != 0 || n == 17) && (n % 19 != 0 || n == 19)
  }

  /** Every number from 2 to 22 is a multiple of one of the eight. */
  lemma SmallFactor(k: nat)
    requires 2 <= k < 23
    ensures k % 2 == 0 || k % 3 == 0 || k % 5 == 0 || k % 7 == 0 || k == 11 || k == 13 || k == 17 || k == 19
  {
  }

  lemma FactorDivides(n: nat, k: nat, j: nat, p: nat)
    requires p > 0 && n == k * j && k % p == 0
    ensures n % p == 0
  {
    var q := k / p;
    assert n == p * (q * j) by {
      assert k == p * q;
    }
    MultipleRemainder(p, q * j);
  }

  lemma MultipleRemainder(p: nat, t: int)
    requires p > 0
    ensures p * t % p == 0
  {
    DivUnique(p * t, p, t, 0);
  }

  /** A small proper factor is caught. */
  lemma Caught(n: nat, k: nat, j: nat)
    requires n == k * j && 2 <= k < 23 && j >= 2
    ensures !Sieved(n)
  {
    SmallFactor(k);
    assert n > k;
    if k % 2 == 0 {
      FactorDivides(n, k, j, 2);
    } else if k % 3 == 0 {
      FactorDivides(n, k, j, 3);
    } else if k % 5 == 0 {
      FactorDivides(n, k, j, 5);
    } else if k % 7 == 0 {
      FactorDivides(n, k, j, 7);
    } else {
      MultipleRemainder(k, j);
    }
  }

  /** Below 23^2 a sieved number is prime. */
  lemma SievedIsPrime(n: nat)
    requires n < 529 && Sieved(n)
    ensures IsPrime(n)
  {
    forall k | 2 <= k < n ensures n % k != 0 {
      if n % k == 0 {
        var j := n / k;
        Cofactors(n, k, j);
        if k < 23 {
          Caught(n, k, j);
        } else {
          Caught(n, j, k);
        }
      }
    }
  }

  lemma Cofactors(n: nat, k: nat, j: nat)
    requires 2 <= k < n < 529 && n % k == 0 && j == n / k
    ensures n == k * j && j >= 2 && (k < 23 || j < 23)
  {
    assert n == k * j;
    ProductBounds(k, j);
  }

  lemma ProductBounds(k: nat, j: nat)
    ensures j <= 1 ==> k * j <= k
    ensures k >= 23 && j >= 23 ==> k * j >= 529
  {
    if k >= 23 && j >= 23 {
      assert k * j >= 23 * j;
    }
  }

  lemma PrimeIsSieved(n: nat)
    requires IsPrime(n)
    ensures Sieved(n)
  {
  }

  lemma Numbers0()
    ensures Sieved(2) && Sieved(3) && !Sieved(4) && Sieved(5) && !Sieved(6) && Sieved(7)
  {
  }

  lemma Row0(n: nat)
    ensures n in ROW0 <==> 2 <= n <= 7 && Sieved(n)
  {
    Numbers0();
    hide Sieved;
  }

  lemma Numbers4()
    ensures !Sieved(8) && !Sieved(9) && !Sieved(10) && Sieved(11) && !Sieved(12) && Sieved(13)
    ensures !Sieved(14) && !Sieved(15) && !Sieved(16) && Sieved(17) && !Sieved(18) && Sieved(19)
  {
  }

  lemma Row4(n: nat)
    ensures n in ROW4 <==> 8 <= n <= 19 && Sieved(n)
  {
    Numbers4();
    hide Sieved;
  }

  lemma Numbers8()
    ensures !Sieved(20) && !Sieved(21) && !Sieved(22) && Sieved(23) && !Sieved(24) && !Sieved(25)
    ensures !Sieved(26) && !Sieved(27) && !Sieved(28) && Sieved(29) && !Sieved(30) && Sieved(31)
    ensures !Sieved(32) && !Sieved(33) && !Sieved(34) && !Sieved(35) && !Sieved(36) && Sieved(37)
  {
  }

  lemma Row8(n: nat)
    ensures n in ROW8 <==> 20 <= n <= 37 && Sieved(n)
  {
    Numbers8();
    hide Sieved;
  }

  lemma Numbers12()
    ensures !Sieved(38) && !Sieved(39) && !Sieved(40) && Sieved(41) && !Sieved(42) && Sieved(43)
    ensures !Sieved(44) && !Sieved(45) && !Sieved(46) && Sieved(47) && !Sieved(48) && !Sieved(49)
    ensures !Sieved(50) && !Sieved(51) && !Sieved(52) && Sieved(53)
  {
  }

  lemma Row12(n: nat)
    ensures n in ROW12 <==> 38 <= n <= 53 && Sieved(n)
  {
    Numbers12();
    hide Sieved;
  }

  lemma Numbers16()
    ensures !Sieved(54) && !Sieved(55) && !Sieved(56) && !Sieved(57) && !Sieved(58) && Sieved(59)
    ensures !Sieved(60) && Sieved(61) && !Sieved(62) && !Sieved(63) && !Sieved(64) && !Sieved(65)
    ensures !Sieved(66) && Sieved(67) && !Sieved(68) && !Sieved(69) && !Sieved(70) && Sieved(71)
  {
  }

  lemma Row16(n: nat)
    ensures n in ROW16 <==> 54 <= n <= 71 && Sieved(n)
  {
    Numbers16();
    hide Sieved;
  }

  lemma Numbers20()
    ensures !Sieved(72) && Sieved(73) && !Sieved(74) && !Sieved(75) && !Sieved(76) && !Sieved(77)
    ensures !Sieved(78) && Sieved(79) && !Sieved(80) && !Sieved(81) && !Sieved(82) && Sieved(83)
    ensures !Sieved(84) && !Sieved(85) && !Sieved(86) && !Sieved(87) && !Sieved(88) && Sieved(89)
  {
  }

  lemma Row20(n: nat)
    ensures n in ROW20 <==> 72 <= n <= 89 && Sieved(n)
  {
    Numbers20();
    hide Sieved;
  }

  lemma Numbers24()
    ensures !Sieved(90) && !Sieved(91) && !Sieved(92) && !Sieved(93) && !Sieved(94) && !Sieved(95)
    ensures !Sieved(96) && Sieved(97) && !Sieved(98) && !Sieved(99) && !Sieved(100) && Sieved(101)
    ensures !Sieved(102) && Sieved(103) && !Sieved(104) && !Sieved(105) && !Sieved(106) && Sieved(107)
  {
  }

  lemma Row24(n: nat)
    ensures n in ROW24 <==> 90 <= n <= 107 && Sieved(n)
  {
    Numbers24();
    hide Sieved;
  }

  lemma Numbers28()
    ensures !Sieved(108) && Sieved(109) && !Sieved(110) && !Sieved(111) && !Sieved(112) && Sieved(113)
    ensures !Sieved(114) && !Sieved(115) && !Sieved(116) && !Sieved(117) && !Sieved(118) && !Sieved(119)
    ensures !Sieved(120) && !Sieved(121) && !Sieved(122) && !Sieved(123) && !Sieved(124) && !Sieved(125)
    ensures !Sieved(126) && Sieved(127) && !Sieved(128) && !Sieved(129) && !Sieved(130) && Sieved(131)
  {
  }

  lemma Row28(n: nat)
    ensures n in ROW28 <==> 108 <= n <= 131 && Sieved(n)
  {
    Numbers28();
    hide Sieved;
  }

  lemma Numbers32()
    ensures !Sieved(132) && !Sieved(133) && !Sieved(134) && !Sieved(135) && !Sieved(136) && Sieved(137)
    ensures !Sieved(138) && Sieved(139) && !Sieved(140) && !Sieved(141) && !Sieved(142) && !Sieved(143)
    ensures !Sieved(144) && !Sieved(145) && !Sieved(146) && !Sieved(147) && !Sieved(148) && Sieved(149)
    ensures !Sieved(150) && Sieved(151)
  {
  }

  lemma Row32(n: nat)
    ensures n in ROW32 <==> 132 <= n <= 151 && Sieved(n)
  {
    Numbers32();
    hide Sieved;
  }

  lemma Numbers36()
    ensures !Sieved(152) && !Sieved(153) && !Sieved(154) && !Sieved(155) && !Sieved(156) && Sieved(157)
    ensures !Sieved(158) && !Sieved(159) && !Sieved(160) && !Sieved(161) && !Sieved(162) && Sieved(163)
    ensures !Sieved(164) && !Sieved(165) && !Sieved(166) && Sieved(167) && !Sieved(168) && !Sieved(169)
    ensures !Sieved(170) && !Sieved(171) && !Sieved(172) && Sieved(173)
  {
  }

  lemma Row36(n: nat)
    ensures n in ROW36 <==> 152 <= n <= 173 && Sieved(n)
  {
    Numbers36();
    hide Sieved;
  }

  lemma Numbers40()
    ensures !Sieved(174) && !Sieved(175) && !Sieved(176) && !Sieved(177) && !Sieved(178) && Sieved(179)
    ensures !Sieved(180) && Sieved(181) && !Sieved(182) && !Sieved(183) && !Sieved(184) && !Sieved(185)
    ensures !Sieved(186) && !Sieved(187) && !Sieved(188) && !Sieved(189) && !Sieved(190) && Sieved(191)
    ensures !Sieved(192) && Sieved(193)
  {
  }

  lemma Row40(n: nat)
    ensures n in ROW40 <==> 174 <= n <= 193 && Sieved(n)
  {
    Numbers40();
    hide Sieved;
  }

  lemma Numbers44()
    ensures !Sieved(194) && !Sieved(195) && !Sieved(196) && Sieved(197) && !Sieved(198) && Sieved(199)
    ensures !Sieved(200) && !Sieved(201) && !Sieved(202) && !Sieved(203) && !Sieved(204) && !Sieved(205)
    ensures !Sieved(206) && !Sieved(207) && !Sieved(208) && !Sieved(209) && !Sieved(210) && Sieved(211)
    ensures !Sieved(212) && !Sieved(213) && !Sieved(214) && !Sieved(215) && !Sieved(216) && !Sieved(217)
    ensures !Sieved(218) && !Sieved(219) && !Sieved(220) && !Sieved(221) && !Sieved(222) && Sieved(223)
  {
  }

  lemma Row44(n: nat)
    ensures n in ROW44 <==> 194 <= n <= 223 && Sieved(n)
  {
    Numbers44();
    hide Sieved;
  }

  lemma Numbers48()
    ensures !Sieved(224) && !Sieved(225) && !Sieved(226) && Sieved(227) && !Sieved(228) && Sieved(229)
    ensures !Sieved(230) && !Sieved(231) && !Sieved(232) && Sieved(233) && !Sieved(234) && !Sieved(235)
    ensures !Sieved(236) && !Sieved(237) && !Sieved(238) && Sieved(239)
  {
  }

  lemma Row48(n: nat)
    ensures n in ROW48 <==> 224 <= n <= 239 && Sieved(n)
  {
    Numbers48();
    hide Sieved;
  }

  lemma Numbers52()
    ensures !Sieved(240) && Sieved(241) && !Sieved(242) && !Sieved(243) && !Sieved(244) && !Sieved(245)
    ensures !Sieved(246) && !Sieved(247) && !Sieved(248) && !Sieved(249) && !Sieved(250) && Sieved(251)
    ensures !Sieved(252) && !Sieved(253) && !Sieved(254) && !Sieved(255) && !Sieved(256) && Sieved(257)
    ensures !Sieved(258) && !Sieved(259) && !Sieved(260) && !Sieved(261) && !Sieved(262) && Sieved(263)
  {
  }

  lemma Row52(n: nat)
    ensures n in ROW52 <==> 240 <= n <= 263 && Sieved(n)
  {
    Numbers52();
    hide Sieved;
  }

  lemma Numbers56()
    ensures !Sieved(264) && !Sieved(265) && !Sieved(266) && !Sieved(267) && !Sieved(268) && Sieved(269)
    ensures !Sieved(270) && Sieved(271) && !Sieved(272) && !Sieved(273) && !Sieved(274) && !Sieved(275)
    ensures !Sieved(276) && Sieved(277) && !Sieved(278) && !Sieved(279) && !Sieved(280) && Sieved(281)
  {
  }

  lemma Row56(n: nat)
    ensures n in ROW56 <==> 264 <= n <= 281 && Sieved(n)
  {
    Numbers56();
    hide Sieved;
  }

  lemma Numbers60()
    ensures !Sieved(282) && Sieved(283) && !Sieved(284) && !Sieved(285) && !Sieved(286) && !Sieved(287)
    ensures !Sieved(288) && !Sieved(289) && !Sieved(290) && !Sieved(291) && !Sieved(292) && Sieved(293)
    ensures !Sieved(294) && !Sieved(295) && !Sieved(296) && !Sieved(297) && !Sieved(298) && !Sieved(299)
    ensures !Sieved(300) && !Sieved(301) && !Sieved(302) && !Sieved(303) && !Sieved(304) && !Sieved(305)
    ensures !Sieved(306) && Sieved(307) && !Sieved(308) && !Sieved(309) && !Sieved(310) && Sieved(311)
  {
  }

  lemma Row60(n: nat)
    ensures n in ROW60 <==> 282 <= n <= 311 && Sieved(n)
  {
    Numbers60();
    hide Sieved;
  }

  lemma Numbers64()
    ensures !Sieved(312) && Sieved(313) && !Sieved(314) && !Sieved(315) && !Sieved(316) && Sieved(317)
    ensures !Sieved(318) && !Sieved(319) && !Sieved(320) && !Sieved(321) && !Sieved(322) && !Sieved(323)
    ensures !Sieved(324) && !Sieved(325) && !Sieved(326) && !Sieved(327) && !Sieved(328) && !Sieved(329)
    ensures !Sieved(330) && Sieved(331) && !Sieved(332) && !Sieved(333) && !Sieved(334) && !Sieved(335)
    ensures !Sieved(336) && Sieved(337)
  {
  }

  lemma Row64(n: nat)
    ensures n in ROW64 <==> 312 <= n <= 337 && Sieved(n)
  {
    Numbers64();
    hide Sieved;
  }

  lemma Numbers68()
    ensures !Sieved(338) && !Sieved(339) && !Sieved(340) && !Sieved(341) && !Sieved(342) && !Sieved(343)
    ensures !Sieved(344) && !Sieved(345) && !Sieved(346) && Sieved(347) && !Sieved(348) && Sieved(349)
    ensures !Sieved(350) && !Sieved(351) && !Sieved(352) && Sieved(353) && !Sieved(354) && !Sieved(355)
    ensures !Sieved(356) && !Sieved(357) && !Sieved(358) && Sieved(359)
  {
  }

  lemma Row68(n: nat)
    ensures n in ROW68 <==> 338 <= n <= 359 && Sieved(n)
  {
    Numbers68();
    hide Sieved;
  }

  lemma Numbers72()
    ensures !Sieved(360) && !Sieved(361) && !Sieved(362) && !Sieved(363) && !Sieved(364) && !Sieved(365)
    ensures !Sieved(366) && Sieved(367) && !Sieved(368) && !Sieved(369) && !Sieved(370) && !Sieved(371)
    ensures !Sieved(372) && Sieved(373) && !Sieved(374) && !Sieved(375) && !Sieved(376) && !Sieved(377)
    ensures !Sieved(378) && Sieved(379) && !Sieved(380) && !Sieved(381) && !Sieved(382) && Sieved(383)
  {
  }

  lemma Row72(n: nat)
    ensures n in ROW72 <==> 360 <= n <= 383 && Sieved(n)
  {
    Numbers72();
    hide Sieved;
  }

  lemma Numbers76()
    ensures !Sieved(384) && !Sieved(385) && !Sieved(386) && !Sieved(387) && !Sieved(388) && Sieved(389)
    ensures !Sieved(390) && !Sieved(391) && !Sieved(392) && !Sieved(393) && !Sieved(394) && !Sieved(395)
    ensures !Sieved(396) && Sieved(397) && !Sieved(398) && !Sieved(399) && !Sieved(400) && Sieved(401)
    ensures !Sieved(402) && !Sieved(403) && !Sieved(404) && !Sieved(405) && !Sieved(406) && !Sieved(407)
    ensures !Sieved(408) && Sieved(409)
  {
  }

  lemma Row76(n: nat)
    ensures n in ROW76 <==> 384 <= n <= 409 && Sieved(n)
  {
    Numbers76();
    hide Sieved;
  }

  lemma Entries0()
    ensures |PRIMES| == 80 && PRIMES[0] == 2 && PRIMES[1] == 3 && PRIMES[2] == 5 && PRIMES[3] == 7
    ensures PRIMES[4] == 11 && PRIMES[5] == 13 && PRIMES[6] == 17 && PRIMES[7] == 19 && PRIMES[8] == 23
  {
  }

  lemma Entries8()
    ensures |PRIMES| == 80 && PRIMES[8] == 23 && PRIMES[9] == 29 && PRIMES[10] == 31 && PRIMES[11] == 37
    ensures PRIMES[12] == 41 && PRIMES[13] == 43 && PRIMES[14] == 47 && PRIMES[15] == 53 && PRIMES[16] == 59
  {
  }

  lemma Entries16()
    ensures |PRIMES| == 80 && PRIMES[16] == 59 && PRIMES[17] == 61 && PRIMES[18] == 67 && PRIMES[19] == 71
    ensures PRIMES[20] == 73 && PRIMES[21] == 79 && PRIMES[22] == 83 && PRIMES[23] == 89 && PRIMES[24] == 97
  {
  }

  lemma Entries24()
    ensures |PRIMES| == 80 && PRIMES[24] == 97 && PRIMES[25] == 101 && PRIMES[26] == 103 && PRIMES[27] == 107
    ensures PRIMES[28] == 109 && PRIMES[29] == 113 && PRIMES[30] == 127 && PRIMES[31] == 131 && PRIMES[32] == 137
  {
  }

  lemma Entries32()
    ensures |PRIMES| == 80 && PRIMES[32] == 137 && PRIMES[33] == 139 && PRIMES[34] == 149 && PRIMES[35] == 151
    ensures PRIMES[36] == 157 && PRIMES[37] == 163 && PRIMES[38] == 167 && PRIMES[39] == 173 && PRIMES[40] == 179
  {
  }

  lemma Entries40()
    ensures |PRIMES| == 80 && PRIMES[40] == 179 && PRIMES[41] == 181 && PRIMES[42] == 191 && PRIMES[43] == 193
    ensures PRIMES[44] == 197 && PRIMES[45] == 199 && PRIMES[46] == 211 && PRIMES[47] == 223 && PRIMES[48] == 227
  {
  }

  lemma Entries48()
    ensures |PRIMES| == 80 && PRIMES[48] == 227 && PRIMES[49] == 229 && PRIMES[50] == 233 && PRIMES[51] == 239
    ensures PRIMES[52] == 241 && PRIMES[53] == 251 && PRIMES[54] == 257 && PRIMES[55] == 263 && PRIMES[56] == 269
  {
  }

  lemma Entries56()
    ensures |PRIMES| == 80 && PRIMES[56] == 269 && PRIMES[57] == 271 && PRIMES[58] == 277 && PRIMES[59] == 281
    ensures PRIMES[60] == 283 && PRIMES[61] == 293 && PRIMES[62] == 307 && PRIMES[63] == 311 && PRIMES[64] == 313
  {
  }

  lemma Entries64()
    ensures |PRIMES| == 80 && PRIMES[64] == 313 && PRIMES[65] == 317 && PRIMES[66] == 331 && PRIMES[67] == 337
    ensures PRIMES[68] == 347 && PRIMES[69] == 349 && PRIMES[70] == 353 && PRIMES[71] == 359 && PRIMES[72] == 367
  {
  }

  lemma Entries72()
    ensures |PRIMES| == 80 && PRIMES[72] == 367 && PRIMES[73] == 373 && PRIMES[74] == 379 && PRIMES[75] == 383
    ensures PRIMES[76] == 389 && PRIMES[77] == 397 && PRIMES[78] == 401 && PRIMES[79] == 409
  {
  }

  lemma Neighbours0(i: nat)
    requires 0 <= i < 8
    ensures |PRIMES| == 80 && PRIMES[i] < PRIMES[i + 1]
  {
    Entries0();
    hide PRIMES;
  }

  lemma Neighbours8(i: nat)
    requires 8 <= i < 16
    ensures |PRIMES| == 80 && PRIMES[i] < PRIMES[i + 1]
  {
    Entries8();
    hide PRIMES;
  }

  lemma Neighbours16(i: nat)
    requires 16 <= i < 24
    ensures |PRIMES| == 80 && PRIMES[i] < PRIMES[i + 1]
  {
    Entries16();
    hide PRIMES;
  }

  lemma Neighbours24(i: nat)
    requires 24 <= i < 32
    ensures |PRIMES| == 80 && PRIMES[i] < PRIMES[i + 1]
  {
    Entries24();
    hide PRIMES;
  }

  lemma Neighbours32(i: nat)
    requires 32 <= i < 40
    ensures |PRIMES| == 80 && PRIMES[i] < PRIMES[i + 1]
  {
    Entries32();
    hide PRIMES;
  }

  lemma Neighbours40(i: nat)
    requires 40 <= i < 48
    ensures |PRIMES| == 80 && PRIMES[i] < PRIMES[i + 1]
  {
    Entries40();
    hide PRIMES;
  }

  lemma Neighbours48(i: nat)
    requires 48 <= i < 56
    ensures |PRIMES| == 80 && PRIMES[i] < PRIMES[i + 1]
  {
    Entries48();
    hide PRIMES;
  }

  lemma Neighbours56(i: nat)
    requires 56 <= i < 64
    ensures |PRIMES| == 80 && PRIMES[i] < PRIMES[i + 1]
  {
    Entries56();
    hide PRIMES;
  }

  lemma Neighbours64(i: nat)
    requires 64 <= i < 72
    ensures |PRIMES| == 80 && PRIMES[i] < PRIMES[i + 1]
  {
    Entries64();
    hide PRIMES;
  }

  lemma Neighbours72(i: nat)
    requires 72 <= i < 79
    ensures |PRIMES| == 80 && PRIMES[i] < PRIMES[i + 1]
  {
    Entries72();
    hide PRIMES;
  }

  lemma Neighbour(i: nat)
    requires i < 79
    ensures |PRIMES| == 80 && PRIMES[i] < PRIMES[i + 1]
  {
    hide PRIMES;
    if i < 8 {
      Neighbours0(i);
    } else if i < 16 {
      Neighbours8(i);
    } else if i < 24 {
      Neighbours16(i);
    } else if i < 32 {
      Neighbours24(i);
    } else if i < 40 {
      Neighbours32(i);
    } else if i < 48 {
      Neighbours40(i);
    } else if i < 56 {
      Neighbours48(i);
    } else if i < 64 {
      Neighbours56(i);
    } else if i < 72 {
      Neighbours64(i);
    } else {
      Neighbours72(i);
    }
  }

  lemma {:induction false} Ascending(i: nat, j: nat)
    requires i < j < 80
    ensures |PRIMES| == 80 && PRIMES[i] < PRIMES[j]
  {
    Neighbour(j - 1);
    hide PRIMES;
    if i + 1 < j {
      Ascending(i, j - 1);
    }
  }

  /** The sieve up to the eightieth prime finds exactly the entries of the list. */
  lemma ListedIff(n: nat)
    requires n <= 409
    ensures Sieved(n) <==> n in PRIMES
  {
    assert Sieved(n) ==> n >= 2;
    Row0(n);
    Row4(n);
    Row8(n);
    Row12(n);
    Row16(n);
    Row20(n);
    Row24(n);
    Row28(n);
    Row32(n);
    Row36(n);
    Row40(n);
    Row44(n);
    Row48(n);
    Row52(n);
    Row56(n);
    Row60(n);
    Row64(n);
    Row68(n);
    Row72(n);
    Row76(n);
    hide Sieved, ROW0, ROW4, ROW8, ROW12, ROW16, ROW20, ROW24, ROW28, ROW32, ROW36, ROW40, ROW44, ROW48, ROW52, ROW56, ROW60, ROW64, ROW68, ROW72, ROW76;
    assert n in PRIMES <==>
             n in ROW0 || n in ROW4 || n in ROW8 || n in ROW12 || n in ROW16 || n in ROW20 || n in ROW24 || n in ROW28 || n in ROW32 || n in ROW36 ||
             n in ROW40 || n in ROW44 || n in ROW48 || n in ROW52 || n in ROW56 || n in ROW60 || n in ROW64 || n in ROW68 || n in ROW72 || n in ROW76;
  }

  /** The first eighty primes, in order: every entry is prime, they ascend, and no prime below the
      last is missing. */
  lemma FirstEighty()
    ensures |PRIMES| == 80
    ensures forall i :: 0 <= i < 80 ==> IsPrime(PRIMES[i])
    ensures forall i, j :: 0 <= i < j < 80 ==> PRIMES[i] < PRIMES[j]
    ensures forall n :: 0 <= n <= PRIMES[79] && IsPrime(n) ==> n in PRIMES
  {
    Entries72();
    hide PRIMES, Sieved;
    forall i, j | 0 <= i < j < 80 ensures PRIMES[i] < PRIMES[j] {
      Ascending(i, j);
    }
    forall n: nat | n <= PRIMES[79] && IsPrime(n) ensures n in PRIMES {
      PrimeIsSieved(n);
      ListedIff(n);
    }
    forall i | 0 <= i < 80 ensures IsPrime(PRIMES[i]) {
      if i < 79 {
        Ascending(i, 79);
      }
      ListedIff(PRIMES[i]);
      SievedIsPrime(PRIMES[i]);
    }
  }
}
