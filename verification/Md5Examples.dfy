/** A worked example: the message of 62 letters and digits from the test suite in section A.5 of RFC 1321.
    It fills one block with sixteen different words and spills into a second. */
module Md5Examples {
  import opened Md5Spec

  ghost predicate Are(s: Regs, a: bv32, b: bv32, c: bv32, d: bv32) { s.a == a && s.b == b && s.c == c && s.d == d }

  /** One more operation, with the word `w`, the shift `s` and the constant `k`. */
  lemma {:induction false} Next(r: Regs, x: seq<bv32>, n: nat, a: bv32, b: bv32, c: bv32, d: bv32,
                                w: bv32, s: bv8, k: bv32, e: bv32)
    requires |x| == 16 && Are(Steps(r, x, n), a, b, c, d) && WordIndex(n) < 16 && x[WordIndex(n)] == w
    requires 1 <= s <= 31 && Shift(n) == s && T(n) == k && Op(n / 16, a, b, c, d, w, s, k) == e
    ensures Are(Steps(r, x, n + 1), d, e, b, c)
  {}

  // ---------- the rows of the four rounds ----------

  lemma Rows1()
    ensures WordIndex(0) == 0 && Shift(0) == 7 && T(0) == 0xD76A_A478
    ensures WordIndex(1) == 1 && Shift(1) == 12 && T(1) == 0xE8C7_B756
    ensures WordIndex(2) == 2 && Shift(2) == 17 && T(2) == 0x2420_70DB
    ensures WordIndex(3) == 3 && Shift(3) == 22 && T(3) == 0xC1BD_CEEE
    ensures WordIndex(4) == 4 && Shift(4) == 7 && T(4) == 0xF57C_0FAF
    ensures WordIndex(5) == 5 && Shift(5) == 12 && T(5) == 0x4787_C62A
    ensures WordIndex(6) == 6 && Shift(6) == 17 && T(6) == 0xA830_4613
    ensures WordIndex(7) == 7 && Shift(7) == 22 && T(7) == 0xFD46_9501
  {}

  lemma Rows2()
    ensures WordIndex(8) == 8 && Shift(8) == 7 && T(8) == 0x6980_98D8
    ensures WordIndex(9) == 9 && Shift(9) == 12 && T(9) == 0x8B44_F7AF
    ensures WordIndex(10) == 10 && Shift(10) == 17 && T(10) == 0xFFFF_5BB1
    ensures WordIndex(11) == 11 && Shift(11) == 22 && T(11) == 0x895C_D7BE
    ensures WordIndex(12) == 12 && Shift(12) == 7 && T(12) == 0x6B90_1122
    ensures WordIndex(13) == 13 && Shift(13) == 12 && T(13) == 0xFD98_7193
    ensures WordIndex(14) == 14 && Shift(14) == 17 && T(14) == 0xA679_438E
    ensures WordIndex(15) == 15 && Shift(15) == 22 && T(15) == 0x49B4_0821
  {}

  lemma Rows3()
    ensures WordIndex(16) == 1 && Shift(16) == 5 && T(16) == 0xF61E_2562
    ensures WordIndex(17) == 6 && Shift(17) == 9 && T(17) == 0xC040_B340
    ensures WordIndex(18) == 11 && Shift(18) == 14 && T(18) == 0x265E_5A51
    ensures WordIndex(19) == 0 && Shift(19) == 20 && T(19) == 0xE9B6_C7AA
    ensures WordIndex(20) == 5 && Shift(20) == 5 && T(20) == 0xD62F_105D
    ensures WordIndex(21) == 10 && Shift(21) == 9 && T(21) == 0x0244_1453
    ensures WordIndex(22) == 15 && Shift(22) == 14 && T(22) == 0xD8A1_E681
    ensures WordIndex(23) == 4 && Shift(23) == 20 && T(23) == 0xE7D3_FBC8
  {}

  lemma Rows4()
    ensures WordIndex(24) == 9 && Shift(24) == 5 && T(24) == 0x21E1_CDE6
    ensures WordIndex(25) == 14 && Shift(25) == 9 && T(25) == 0xC337_07D6
    ensures WordIndex(26) == 3 && Shift(26) == 14 && T(26) == 0xF4D5_0D87
    ensures WordIndex(27) == 8 && Shift(27) == 20 && T(27) == 0x455A_14ED
    ensures WordIndex(28) == 13 && Shift(28) == 5 && T(28) == 0xA9E3_E905
    ensures WordIndex(29) == 2 && Shift(29) == 9 && T(29) == 0xFCEF_A3F8
    ensures WordIndex(30) == 7 && Shift(30) == 14 && T(30) == 0x676F_02D9
    ensures WordIndex(31) == 12 && Shift(31) == 20 && T(31) == 0x8D2A_4C8A
  {}

  lemma Rows5()
    ensures WordIndex(32) == 5 && Shift(32) == 4 && T(32) == 0xFFFA_3942
    ensures WordIndex(33) == 8 && Shift(33) == 11 && T(33) == 0x8771_F681
    ensures WordIndex(34) == 11 && Shift(34) == 16 && T(34) == 0x6D9D_6122
    ensures WordIndex(35) == 14 && Shift(35) == 23 && T(35) == 0xFDE5_380C
    ensures WordIndex(36) == 1 && Shift(36) == 4 && T(36) == 0xA4BE_EA44
    ensures WordIndex(37) == 4 && Shift(37) == 11 && T(37) == 0x4BDE_CFA9
    ensures WordIndex(38) == 7 && Shift(38) == 16 && T(38) == 0xF6BB_4B60
    ensures WordIndex(39) == 10 && Shift(39) == 23 && T(39) == 0xBEBF_BC70
  {}

  lemma Rows6()
    ensures WordIndex(40) == 13 && Shift(40) == 4 && T(40) == 0x289B_7EC6
    ensures WordIndex(41) == 0 && Shift(41) == 11 && T(41) == 0xEAA1_27FA
    ensures WordIndex(42) == 3 && Shift(42) == 16 && T(42) == 0xD4EF_3085
    ensures WordIndex(43) == 6 && Shift(43) == 23 && T(43) == 0x0488_1D05
    ensures WordIndex(44) == 9 && Shift(44) == 4 && T(44) == 0xD9D4_D039
    ensures WordIndex(45) == 12 && Shift(45) == 11 && T(45) == 0xE6DB_99E5
    ensures WordIndex(46) == 15 && Shift(46) == 16 && T(46) == 0x1FA2_7CF8
    ensures WordIndex(47) == 2 && Shift(47) == 23 && T(47) == 0xC4AC_5665
  {}

  lemma Rows7()
    ensures WordIndex(48) == 0 && Shift(48) == 6 && T(48) == 0xF429_2244
    ensures WordIndex(49) == 7 && Shift(49) == 10 && T(49) == 0x432A_FF97
    ensures WordIndex(50) == 14 && Shift(50) == 15 && T(50) == 0xAB94_23A7
    ensures WordIndex(51) == 5 && Shift(51) == 21 && T(51) == 0xFC93_A039
    ensures WordIndex(52) == 12 && Shift(52) == 6 && T(52) == 0x655B_59C3
    ensures WordIndex(53) == 3 && Shift(53) == 10 && T(53) == 0x8F0C_CC92
    ensures WordIndex(54) == 10 && Shift(54) == 15 && T(54) == 0xFFEF_F47D
    ensures WordIndex(55) == 1 && Shift(55) == 21 && T(55) == 0x8584_5DD1
  {}

  lemma Rows8()
    ensures WordIndex(56) == 8 && Shift(56) == 6 && T(56) == 0x6FA8_7E4F
    ensures WordIndex(57) == 15 && Shift(57) == 10 && T(57) == 0xFE2C_E6E0
    ensures WordIndex(58) == 6 && Shift(58) == 15 && T(58) == 0xA301_4314
    ensures WordIndex(59) == 13 && Shift(59) == 21 && T(59) == 0x4E08_11A1
    ensures WordIndex(60) == 4 && Shift(60) == 6 && T(60) == 0xF753_7E82
    ensures WordIndex(61) == 11 && Shift(61) == 10 && T(61) == 0xBD3A_F235
    ensures WordIndex(62) == 2 && Shift(62) == 15 && T(62) == 0x2AD7_D2BB
    ensures WordIndex(63) == 9 && Shift(63) == 21 && T(63) == 0xEB86_D391
  {}

  // ---------- the first block ----------

  ghost predicate Bytes1(s: seq<Byte>) {
    && |s| == 64
    && s[0] == 0x41 && s[1] == 0x42 && s[2] == 0x43 && s[3] == 0x44
    && s[4] == 0x45 && s[5] == 0x46 && s[6] == 0x47 && s[7] == 0x48
    && s[8] == 0x49 && s[9] == 0x4A && s[10] == 0x4B && s[11] == 0x4C
    && s[12] == 0x4D && s[13] == 0x4E && s[14] == 0x4F && s[15] == 0x50
    && s[16] == 0x51 && s[17] == 0x52 && s[18] == 0x53 && s[19] == 0x54
    && s[20] == 0x55 && s[21] == 0x56 && s[22] == 0x57 && s[23] == 0x58
    && s[24] == 0x59 && s[25] == 0x5A && s[26] == 0x61 && s[27] == 0x62
    && s[28] == 0x63 && s[29] == 0x64 && s[30] == 0x65 && s[31] == 0x66
    && s[32] == 0x67 && s[33] == 0x68 && s[34] == 0x69 && s[35] == 0x6A
    && s[36] == 0x6B && s[37] == 0x6C && s[38] == 0x6D && s[39] == 0x6E
    && s[40] == 0x6F && s[41] == 0x70 && s[42] == 0x71 && s[43] == 0x72
    && s[44] == 0x73 && s[45] == 0x74 && s[46] == 0x75 && s[47] == 0x76
    && s[48] == 0x77 && s[49] == 0x78 && s[50] == 0x79 && s[51] == 0x7A
    && s[52] == 0x30 && s[53] == 0x31 && s[54] == 0x32 && s[55] == 0x33
    && s[56] == 0x34 && s[57] == 0x35 && s[58] == 0x36 && s[59] == 0x37
    && s[60] == 0x38 && s[61] == 0x39 && s[62] == 0x80 && s[63] == 0x00
  }

  ghost predicate Words1(x: seq<bv32>) {
    && |x| == 16
    && x[0] == 0x4443_4241 && x[1] == 0x4847_4645 && x[2] == 0x4C4B_4A49 && x[3] == 0x504F_4E4D
    && x[4] == 0x5453_5251 && x[5] == 0x5857_5655 && x[6] == 0x6261_5A59 && x[7] == 0x6665_6463
    && x[8] == 0x6A69_6867 && x[9] == 0x6E6D_6C6B && x[10] == 0x7271_706F && x[11] == 0x7675_7473
    && x[12] == 0x7A79_7877 && x[13] == 0x3332_3130 && x[14] == 0x3736_3534 && x[15] == 0x0080_3938
  }

  lemma Packed1()
    ensures Word(0x41, 0x42, 0x43, 0x44) == 0x4443_4241
    ensures Word(0x45, 0x46, 0x47, 0x48) == 0x4847_4645
    ensures Word(0x49, 0x4A, 0x4B, 0x4C) == 0x4C4B_4A49
    ensures Word(0x4D, 0x4E, 0x4F, 0x50) == 0x504F_4E4D
    ensures Word(0x51, 0x52, 0x53, 0x54) == 0x5453_5251
    ensures Word(0x55, 0x56, 0x57, 0x58) == 0x5857_5655
    ensures Word(0x59, 0x5A, 0x61, 0x62) == 0x6261_5A59
    ensures Word(0x63, 0x64, 0x65, 0x66) == 0x6665_6463
    ensures Word(0x67, 0x68, 0x69, 0x6A) == 0x6A69_6867
    ensures Word(0x6B, 0x6C, 0x6D, 0x6E) == 0x6E6D_6C6B
    ensures Word(0x6F, 0x70, 0x71, 0x72) == 0x7271_706F
    ensures Word(0x73, 0x74, 0x75, 0x76) == 0x7675_7473
    ensures Word(0x77, 0x78, 0x79, 0x7A) == 0x7A79_7877
    ensures Word(0x30, 0x31, 0x32, 0x33) == 0x3332_3130
    ensures Word(0x34, 0x35, 0x36, 0x37) == 0x3736_3534
    ensures Word(0x38, 0x39, 0x80, 0x00) == 0x0080_3938
  {}

  lemma Loaded1(s: seq<Byte>)
    requires Bytes1(s)
    ensures Words1(Words(s))
  {
    Packed1();
  }

  lemma Ops1_1()
    ensures Op(0, 0x6745_2301, 0xEFCD_AB89, 0x98BA_DCFE, 0x1032_5476, 0x4443_4241, 7, 0xD76A_A478) == 0xC6C1_0796
    ensures Op(0, 0x1032_5476, 0xC6C1_0796, 0xEFCD_AB89, 0x98BA_DCFE, 0x4847_4645, 12, 0xE8C7_B756) == 0x99A0_9999
    ensures Op(0, 0x98BA_DCFE, 0x99A0_9999, 0xC6C1_0796, 0xEFCD_AB89, 0x4C4B_4A49, 17, 0x2420_70DB) == 0x1106_7980
    ensures Op(0, 0xEFCD_AB89, 0x1106_7980, 0x99A0_9999, 0xC6C1_0796, 0x504F_4E4D, 22, 0xC1BD_CEEE) == 0x27BC_E07A
    ensures Op(0, 0xC6C1_0796, 0x27BC_E07A, 0x1106_7980, 0x99A0_9999, 0x5453_5251, 7, 0xF57C_0FAF) == 0xF22E_6C4E
    ensures Op(0, 0x99A0_9999, 0xF22E_6C4E, 0x27BC_E07A, 0x1106_7980, 0x5857_5655, 12, 0x4787_C62A) == 0xB4AC_9218
    ensures Op(0, 0x1106_7980, 0xB4AC_9218, 0xF22E_6C4E, 0x27BC_E07A, 0x6261_5A59, 17, 0xA830_4613) == 0xA95A_2FC0
    ensures Op(0, 0x27BC_E07A, 0xA95A_2FC0, 0xB4AC_9218, 0xF22E_6C4E, 0x6665_6463, 22, 0xFD46_9501) == 0xA479_9506
  {}

  lemma Ops1_2()
    ensures Op(0, 0xF22E_6C4E, 0xA479_9506, 0xA95A_2FC0, 0xB4AC_9218, 0x6A69_6867, 7, 0x6980_98D8) == 0x1EB3_E7C1
    ensures Op(0, 0xB4AC_9218, 0x1EB3_E7C1, 0xA479_9506, 0xA95A_2FC0, 0x6E6D_6C6B, 12, 0x8B44_F7AF) == 0xA6E7_0CFE
    ensures Op(0, 0xA95A_2FC0, 0xA6E7_0CFE, 0x1EB3_E7C1, 0xA479_9506, 0x7271_706F, 17, 0xFFFF_5BB1) == 0xCA27_520B
    ensures Op(0, 0xA479_9506, 0xCA27_520B, 0xA6E7_0CFE, 0x1EB3_E7C1, 0x7675_7473, 22, 0x895C_D7BE) == 0x8A76_12EC
    ensures Op(0, 0x1EB3_E7C1, 0x8A76_12EC, 0xCA27_520B, 0xA6E7_0CFE, 0x7A79_7877, 7, 0x6B90_1122) == 0x3CBD_CD45
    ensures Op(0, 0xA6E7_0CFE, 0x3CBD_CD45, 0x8A76_12EC, 0xCA27_520B, 0x3332_3130, 12, 0xFD98_7193) == 0xB8DE_C763
    ensures Op(0, 0xCA27_520B, 0xB8DE_C763, 0x3CBD_CD45, 0x8A76_12EC, 0x3736_3534, 17, 0xA679_438E) == 0xFA14_8C8A
    ensures Op(0, 0x8A76_12EC, 0xFA14_8C8A, 0xB8DE_C763, 0x3CBD_CD45, 0x0080_3938, 22, 0x49B4_0821) == 0x5D38_E690
  {}

  lemma Ops1_3()
    ensures Op(1, 0x3CBD_CD45, 0x5D38_E690, 0xFA14_8C8A, 0xB8DE_C763, 0x4847_4645, 5, 0xF61E_2562) == 0x04B9_D52A
    ensures Op(1, 0xB8DE_C763, 0x04B9_D52A, 0x5D38_E690, 0xFA14_8C8A, 0x6261_5A59, 9, 0xC040_B340) == 0x7830_02EB
    ensures Op(1, 0xFA14_8C8A, 0x7830_02EB, 0x04B9_D52A, 0x5D38_E690, 0x7675_7473, 14, 0x265E_5A51) == 0xD3EE_3ED1
    ensures Op(1, 0x5D38_E690, 0xD3EE_3ED1, 0x7830_02EB, 0x04B9_D52A, 0x4443_4241, 20, 0xE9B6_C7AA) == 0x47AE_7C81
    ensures Op(1, 0x04B9_D52A, 0x47AE_7C81, 0xD3EE_3ED1, 0x7830_02EB, 0x5857_5655, 5, 0xD62F_105D) == 0x2D7D_8A3F
    ensures Op(1, 0x7830_02EB, 0x2D7D_8A3F, 0x47AE_7C81, 0xD3EE_3ED1, 0x7271_706F, 9, 0x0244_1453) == 0xD121_0823
    ensures Op(1, 0xD3EE_3ED1, 0xD121_0823, 0x2D7D_8A3F, 0x47AE_7C81, 0x0080_3938, 14, 0xD8A1_E681) == 0x4B53_4DC3
    ensures Op(1, 0x47AE_7C81, 0x4B53_4DC3, 0xD121_0823, 0x2D7D_8A3F, 0x5453_5251, 20, 0xE7D3_FBC8) == 0x7529_2030
  {}

  lemma Ops1_4()
    ensures Op(1, 0x2D7D_8A3F, 0x7529_2030, 0x4B53_4DC3, 0xD121_0823, 0x6E6D_6C6B, 5, 0x21E1_CDE6) == 0x9D2A_6E33
    ensures Op(1, 0xD121_0823, 0x9D2A_6E33, 0x7529_2030, 0x4B53_4DC3, 0x3736_3534, 9, 0xC337_07D6) == 0x0E8D_2E44
    ensures Op(1, 0x4B53_4DC3, 0x0E8D_2E44, 0x9D2A_6E33, 0x7529_2030, 0x504F_4E4D, 14, 0xF4D5_0D87) == 0xD473_B564
    ensures Op(1, 0x7529_2030, 0xD473_B564, 0x0E8D_2E44, 0x9D2A_6E33, 0x6A69_6867, 20, 0x455A_14ED) == 0xF2FF_6EA0
    ensures Op(1, 0x9D2A_6E33, 0xF2FF_6EA0, 0xD473_B564, 0x0E8D_2E44, 0x3332_3130, 5, 0xA9E3_E905) == 0x9B08_5FA9
    ensures Op(1, 0x0E8D_2E44, 0x9B08_5FA9, 0xF2FF_6EA0, 0xD473_B564, 0x4C4B_4A49, 9, 0xFCEF_A3F8) == 0x4400_A9BD
    ensures Op(1, 0xD473_B564, 0x4400_A9BD, 0x9B08_5FA9, 0xF2FF_6EA0, 0x6665_6463, 14, 0x676F_02D9) == 0x5993_248F
    ensures Op(1, 0xF2FF_6EA0, 0x5993_248F, 0x4400_A9BD, 0x9B08_5FA9, 0x7A79_7877, 20, 0x8D2A_4C8A) == 0xDD78_9ECC
  {}

  lemma Ops1_5()
    ensures Op(2, 0x9B08_5FA9, 0xDD78_9ECC, 0x5993_248F, 0x4400_A9BD, 0x5857_5655, 4, 0xFFFA_3942) == 0x21C8_D2B7
    ensures Op(2, 0x4400_A9BD, 0x21C8_D2B7, 0xDD78_9ECC, 0x5993_248F, 0x6A69_6867, 11, 0x8771_F681) == 0x1D55_A18E
    ensures Op(2, 0x5993_248F, 0x1D55_A18E, 0x21C8_D2B7, 0xDD78_9ECC, 0x7675_7473, 16, 0x6D9D_6122) == 0x056E_C119
    ensures Op(2, 0xDD78_9ECC, 0x056E_C119, 0x1D55_A18E, 0x21C8_D2B7, 0x3736_3534, 23, 0xFDE5_380C) == 0x1B95_04F8
    ensures Op(2, 0x21C8_D2B7, 0x1B95_04F8, 0x056E_C119, 0x1D55_A18E, 0x4847_4645, 4, 0xA4BE_EA44) == 0x436B_7FE9
    ensures Op(2, 0x1D55_A18E, 0x436B_7FE9, 0x1B95_04F8, 0x056E_C119, 0x5453_5251, 11, 0x4BDE_CFA9) == 0x0758_00C1
    ensures Op(2, 0x056E_C119, 0x0758_00C1, 0x436B_7FE9, 0x1B95_04F8, 0x6665_6463, 16, 0xF6BB_4B60) == 0xF404_C2F6
    ensures Op(2, 0x1B95_04F8, 0xF404_C2F6, 0x0758_00C1, 0x436B_7FE9, 0x7271_706F, 23, 0xBEBF_BC70) == 0xCF03_41ED
  {}

  lemma Ops1_6()
    ensures Op(2, 0x436B_7FE9, 0xCF03_41ED, 0xF404_C2F6, 0x0758_00C1, 0x3332_3130, 4, 0x289B_7EC6) == 0x888E_7D8A
    ensures Op(2, 0x0758_00C1, 0x888E_7D8A, 0xCF03_41ED, 0xF404_C2F6, 0x4443_4241, 11, 0xEAA1_27FA) == 0xBBDA_ECD8
    ensures Op(2, 0xF404_C2F6, 0xBBDA_ECD8, 0x888E_7D8A, 0xCF03_41ED, 0x504F_4E4D, 16, 0xD4EF_3085) == 0xCE62_0273
    ensures Op(2, 0xCF03_41ED, 0xCE62_0273, 0xBBDA_ECD8, 0x888E_7D8A, 0x6261_5A59, 23, 0x0488_1D05) == 0x047B_9419
    ensures Op(2, 0x888E_7D8A, 0x047B_9419, 0xCE62_0273, 0xBBDA_ECD8, 0x6E6D_6C6B, 4, 0xD9D4_D039) == 0x2DBE_E21D
    ensures Op(2, 0xBBDA_ECD8, 0x2DBE_E21D, 0x047B_9419, 0xCE62_0273, 0x7A79_7877, 11, 0xE6DB_99E5) == 0xE95C_3A43
    ensures Op(2, 0xCE62_0273, 0xE95C_3A43, 0x2DBE_E21D, 0x047B_9419, 0x0080_3938, 16, 0x1FA2_7CF8) == 0xEE46_E961
    ensures Op(2, 0x047B_9419, 0xEE46_E961, 0xE95C_3A43, 0x2DBE_E21D, 0x4C4B_4A49, 23, 0xC4AC_5665) == 0xF166_F514
  {}

  lemma Ops1_7()
    ensures Op(3, 0x2DBE_E21D, 0xF166_F514, 0xEE46_E961, 0xE95C_3A43, 0x4443_4241, 6, 0xF429_2244) == 0xE47F_D4F3
    ensures Op(3, 0xE95C_3A43, 0xE47F_D4F3, 0xF166_F514, 0xEE46_E961, 0x6665_6463, 10, 0x432A_FF97) == 0xFB88_7751
    ensures Op(3, 0xEE46_E961, 0xFB88_7751, 0xE47F_D4F3, 0xF166_F514, 0x3736_3534, 15, 0xAB94_23A7) == 0xF22A_EDCC
    ensures Op(3, 0xF166_F514, 0xF22A_EDCC, 0xFB88_7751, 0xE47F_D4F3, 0x5857_5655, 21, 0xFC93_A039) == 0x7A13_BC5C
    ensures Op(3, 0xE47F_D4F3, 0x7A13_BC5C, 0xF22A_EDCC, 0xFB88_7751, 0x7A79_7877, 6, 0x655B_59C3) == 0xA691_D430
    ensures Op(3, 0xFB88_7751, 0xA691_D430, 0x7A13_BC5C, 0xF22A_EDCC, 0x504F_4E4D, 10, 0x8F0C_CC92) == 0x5284_52F2
    ensures Op(3, 0xF22A_EDCC, 0x5284_52F2, 0xA691_D430, 0x7A13_BC5C, 0x7271_706F, 15, 0xFFEF_F47D) == 0x3FC2_3DF6
    ensures Op(3, 0x7A13_BC5C, 0x3FC2_3DF6, 0x5284_52F2, 0xA691_D430, 0x4847_4645, 21, 0x8584_5DD1) == 0xEFB0_E72F
  {}

  lemma Ops1_8()
    ensures Op(3, 0xA691_D430, 0xEFB0_E72F, 0x3FC2_3DF6, 0x5284_52F2, 0x6A69_6867, 6, 0x6FA8_7E4F) == 0x2714_5703
    ensures Op(3, 0x5284_52F2, 0x2714_5703, 0xEFB0_E72F, 0x3FC2_3DF6, 0x0080_3938, 10, 0xFE2C_E6E0) == 0x21A1_1069
    ensures Op(3, 0x3FC2_3DF6, 0x21A1_1069, 0x2714_5703, 0xEFB0_E72F, 0x6261_5A59, 15, 0xA301_4314) == 0x374F_BE79
    ensures Op(3, 0xEFB0_E72F, 0x374F_BE79, 0x21A1_1069, 0x2714_5703, 0x3332_3130, 21, 0x4E08_11A1) == 0x49D9_A5B4
    ensures Op(3, 0x2714_5703, 0x49D9_A5B4, 0x374F_BE79, 0x21A1_1069, 0x5453_5251, 6, 0xF753_7E82) == 0x1CB8_0F0A
    ensures Op(3, 0x21A1_1069, 0x1CB8_0F0A, 0x49D9_A5B4, 0x374F_BE79, 0x7675_7473, 10, 0xBD3A_F235) == 0xEA3D_3EB4
    ensures Op(3, 0x374F_BE79, 0xEA3D_3EB4, 0x1CB8_0F0A, 0x49D9_A5B4, 0x4C4B_4A49, 15, 0x2AD7_D2BB) == 0x10F6_8731
    ensures Op(3, 0x49D9_A5B4, 0x10F6_8731, 0xEA3D_3EB4, 0x1CB8_0F0A, 0x6E6D_6C6B, 21, 0xEB86_D391) == 0xEF2E_3A46
  {}

  lemma {:induction false} Part1_1(r: Regs, x: seq<bv32>)
    requires Words1(x) && Are(Steps(r, x, 0), 0x6745_2301, 0xEFCD_AB89, 0x98BA_DCFE, 0x1032_5476)
    ensures Are(Steps(r, x, 8), 0xF22E_6C4E, 0xA479_9506, 0xA95A_2FC0, 0xB4AC_9218)
  {
    Rows1();
    Ops1_1();
    Next(r, x, 0, 0x6745_2301, 0xEFCD_AB89, 0x98BA_DCFE, 0x1032_5476, 0x4443_4241, 7, 0xD76A_A478, 0xC6C1_0796);
    Next(r, x, 1, 0x1032_5476, 0xC6C1_0796, 0xEFCD_AB89, 0x98BA_DCFE, 0x4847_4645, 12, 0xE8C7_B756, 0x99A0_9999);
    Next(r, x, 2, 0x98BA_DCFE, 0x99A0_9999, 0xC6C1_0796, 0xEFCD_AB89, 0x4C4B_4A49, 17, 0x2420_70DB, 0x1106_7980);
    Next(r, x, 3, 0xEFCD_AB89, 0x1106_7980, 0x99A0_9999, 0xC6C1_0796, 0x504F_4E4D, 22, 0xC1BD_CEEE, 0x27BC_E07A);
    Next(r, x, 4, 0xC6C1_0796, 0x27BC_E07A, 0x1106_7980, 0x99A0_9999, 0x5453_5251, 7, 0xF57C_0FAF, 0xF22E_6C4E);
    Next(r, x, 5, 0x99A0_9999, 0xF22E_6C4E, 0x27BC_E07A, 0x1106_7980, 0x5857_5655, 12, 0x4787_C62A, 0xB4AC_9218);
    Next(r, x, 6, 0x1106_7980, 0xB4AC_9218, 0xF22E_6C4E, 0x27BC_E07A, 0x6261_5A59, 17, 0xA830_4613, 0xA95A_2FC0);
    Next(r, x, 7, 0x27BC_E07A, 0xA95A_2FC0, 0xB4AC_9218, 0xF22E_6C4E, 0x6665_6463, 22, 0xFD46_9501, 0xA479_9506);
  }

  lemma {:induction false} Part1_2(r: Regs, x: seq<bv32>)
    requires Words1(x) && Are(Steps(r, x, 8), 0xF22E_6C4E, 0xA479_9506, 0xA95A_2FC0, 0xB4AC_9218)
    ensures Are(Steps(r, x, 16), 0x3CBD_CD45, 0x5D38_E690, 0xFA14_8C8A, 0xB8DE_C763)
  {
    Rows2();
    Ops1_2();
    Next(r, x, 8, 0xF22E_6C4E, 0xA479_9506, 0xA95A_2FC0, 0xB4AC_9218, 0x6A69_6867, 7, 0x6980_98D8, 0x1EB3_E7C1);
    Next(r, x, 9, 0xB4AC_9218, 0x1EB3_E7C1, 0xA479_9506, 0xA95A_2FC0, 0x6E6D_6C6B, 12, 0x8B44_F7AF, 0xA6E7_0CFE);
    Next(r, x, 10, 0xA95A_2FC0, 0xA6E7_0CFE, 0x1EB3_E7C1, 0xA479_9506, 0x7271_706F, 17, 0xFFFF_5BB1, 0xCA27_520B);
    Next(r, x, 11, 0xA479_9506, 0xCA27_520B, 0xA6E7_0CFE, 0x1EB3_E7C1, 0x7675_7473, 22, 0x895C_D7BE, 0x8A76_12EC);
    Next(r, x, 12, 0x1EB3_E7C1, 0x8A76_12EC, 0xCA27_520B, 0xA6E7_0CFE, 0x7A79_7877, 7, 0x6B90_1122, 0x3CBD_CD45);
    Next(r, x, 13, 0xA6E7_0CFE, 0x3CBD_CD45, 0x8A76_12EC, 0xCA27_520B, 0x3332_3130, 12, 0xFD98_7193, 0xB8DE_C763);
    Next(r, x, 14, 0xCA27_520B, 0xB8DE_C763, 0x3CBD_CD45, 0x8A76_12EC, 0x3736_3534, 17, 0xA679_438E, 0xFA14_8C8A);
    Next(r, x, 15, 0x8A76_12EC, 0xFA14_8C8A, 0xB8DE_C763, 0x3CBD_CD45, 0x0080_3938, 22, 0x49B4_0821, 0x5D38_E690);
  }

  lemma {:induction false} Part1_3(r: Regs, x: seq<bv32>)
    requires Words1(x) && Are(Steps(r, x, 16), 0x3CBD_CD45, 0x5D38_E690, 0xFA14_8C8A, 0xB8DE_C763)
    ensures Are(Steps(r, x, 24), 0x2D7D_8A3F, 0x7529_2030, 0x4B53_4DC3, 0xD121_0823)
  {
    Rows3();
    Ops1_3();
    Next(r, x, 16, 0x3CBD_CD45, 0x5D38_E690, 0xFA14_8C8A, 0xB8DE_C763, 0x4847_4645, 5, 0xF61E_2562, 0x04B9_D52A);
    Next(r, x, 17, 0xB8DE_C763, 0x04B9_D52A, 0x5D38_E690, 0xFA14_8C8A, 0x6261_5A59, 9, 0xC040_B340, 0x7830_02EB);
    Next(r, x, 18, 0xFA14_8C8A, 0x7830_02EB, 0x04B9_D52A, 0x5D38_E690, 0x7675_7473, 14, 0x265E_5A51, 0xD3EE_3ED1);
    Next(r, x, 19, 0x5D38_E690, 0xD3EE_3ED1, 0x7830_02EB, 0x04B9_D52A, 0x4443_4241, 20, 0xE9B6_C7AA, 0x47AE_7C81);
    Next(r, x, 20, 0x04B9_D52A, 0x47AE_7C81, 0xD3EE_3ED1, 0x7830_02EB, 0x5857_5655, 5, 0xD62F_105D, 0x2D7D_8A3F);
    Next(r, x, 21, 0x7830_02EB, 0x2D7D_8A3F, 0x47AE_7C81, 0xD3EE_3ED1, 0x7271_706F, 9, 0x0244_1453, 0xD121_0823);
    Next(r, x, 22, 0xD3EE_3ED1, 0xD121_0823, 0x2D7D_8A3F, 0x47AE_7C81, 0x0080_3938, 14, 0xD8A1_E681, 0x4B53_4DC3);
    Next(r, x, 23, 0x47AE_7C81, 0x4B53_4DC3, 0xD121_0823, 0x2D7D_8A3F, 0x5453_5251, 20, 0xE7D3_FBC8, 0x7529_2030);
  }

  lemma {:induction false} Part1_4(r: Regs, x: seq<bv32>)
    requires Words1(x) && Are(Steps(r, x, 24), 0x2D7D_8A3F, 0x7529_2030, 0x4B53_4DC3, 0xD121_0823)
    ensures Are(Steps(r, x, 32), 0x9B08_5FA9, 0xDD78_9ECC, 0x5993_248F, 0x4400_A9BD)
  {
    Rows4();
    Ops1_4();
    Next(r, x, 24, 0x2D7D_8A3F, 0x7529_2030, 0x4B53_4DC3, 0xD121_0823, 0x6E6D_6C6B, 5, 0x21E1_CDE6, 0x9D2A_6E33);
    Next(r, x, 25, 0xD121_0823, 0x9D2A_6E33, 0x7529_2030, 0x4B53_4DC3, 0x3736_3534, 9, 0xC337_07D6, 0x0E8D_2E44);
    Next(r, x, 26, 0x4B53_4DC3, 0x0E8D_2E44, 0x9D2A_6E33, 0x7529_2030, 0x504F_4E4D, 14, 0xF4D5_0D87, 0xD473_B564);
    Next(r, x, 27, 0x7529_2030, 0xD473_B564, 0x0E8D_2E44, 0x9D2A_6E33, 0x6A69_6867, 20, 0x455A_14ED, 0xF2FF_6EA0);
    Next(r, x, 28, 0x9D2A_6E33, 0xF2FF_6EA0, 0xD473_B564, 0x0E8D_2E44, 0x3332_3130, 5, 0xA9E3_E905, 0x9B08_5FA9);
    Next(r, x, 29, 0x0E8D_2E44, 0x9B08_5FA9, 0xF2FF_6EA0, 0xD473_B564, 0x4C4B_4A49, 9, 0xFCEF_A3F8, 0x4400_A9BD);
    Next(r, x, 30, 0xD473_B564, 0x4400_A9BD, 0x9B08_5FA9, 0xF2FF_6EA0, 0x6665_6463, 14, 0x676F_02D9, 0x5993_248F);
    Next(r, x, 31, 0xF2FF_6EA0, 0x5993_248F, 0x4400_A9BD, 0x9B08_5FA9, 0x7A79_7877, 20, 0x8D2A_4C8A, 0xDD78_9ECC);
  }

  lemma {:induction false} Part1_5(r: Regs, x: seq<bv32>)
    requires Words1(x) && Are(Steps(r, x, 32), 0x9B08_5FA9, 0xDD78_9ECC, 0x5993_248F, 0x4400_A9BD)
    ensures Are(Steps(r, x, 40), 0x436B_7FE9, 0xCF03_41ED, 0xF404_C2F6, 0x0758_00C1)
  {
    Rows5();
    Ops1_5();
    Next(r, x, 32, 0x9B08_5FA9, 0xDD78_9ECC, 0x5993_248F, 0x4400_A9BD, 0x5857_5655, 4, 0xFFFA_3942, 0x21C8_D2B7);
    Next(r, x, 33, 0x4400_A9BD, 0x21C8_D2B7, 0xDD78_9ECC, 0x5993_248F, 0x6A69_6867, 11, 0x8771_F681, 0x1D55_A18E);
    Next(r, x, 34, 0x5993_248F, 0x1D55_A18E, 0x21C8_D2B7, 0xDD78_9ECC, 0x7675_7473, 16, 0x6D9D_6122, 0x056E_C119);
    Next(r, x, 35, 0xDD78_9ECC, 0x056E_C119, 0x1D55_A18E, 0x21C8_D2B7, 0x3736_3534, 23, 0xFDE5_380C, 0x1B95_04F8);
    Next(r, x, 36, 0x21C8_D2B7, 0x1B95_04F8, 0x056E_C119, 0x1D55_A18E, 0x4847_4645, 4, 0xA4BE_EA44, 0x436B_7FE9);
    Next(r, x, 37, 0x1D55_A18E, 0x436B_7FE9, 0x1B95_04F8, 0x056E_C119, 0x5453_5251, 11, 0x4BDE_CFA9, 0x0758_00C1);
    Next(r, x, 38, 0x056E_C119, 0x0758_00C1, 0x436B_7FE9, 0x1B95_04F8, 0x6665_6463, 16, 0xF6BB_4B60, 0xF404_C2F6);
    Next(r, x, 39, 0x1B95_04F8, 0xF404_C2F6, 0x0758_00C1, 0x436B_7FE9, 0x7271_706F, 23, 0xBEBF_BC70, 0xCF03_41ED);
  }

  lemma {:induction false} Part1_6(r: Regs, x: seq<bv32>)
    requires Words1(x) && Are(Steps(r, x, 40), 0x436B_7FE9, 0xCF03_41ED, 0xF404_C2F6, 0x0758_00C1)
    ensures Are(Steps(r, x, 48), 0x2DBE_E21D, 0xF166_F514, 0xEE46_E961, 0xE95C_3A43)
  {
    Rows6();
    Ops1_6();
    Next(r, x, 40, 0x436B_7FE9, 0xCF03_41ED, 0xF404_C2F6, 0x0758_00C1, 0x3332_3130, 4, 0x289B_7EC6, 0x888E_7D8A);
    Next(r, x, 41, 0x0758_00C1, 0x888E_7D8A, 0xCF03_41ED, 0xF404_C2F6, 0x4443_4241, 11, 0xEAA1_27FA, 0xBBDA_ECD8);
    Next(r, x, 42, 0xF404_C2F6, 0xBBDA_ECD8, 0x888E_7D8A, 0xCF03_41ED, 0x504F_4E4D, 16, 0xD4EF_3085, 0xCE62_0273);
    Next(r, x, 43, 0xCF03_41ED, 0xCE62_0273, 0xBBDA_ECD8, 0x888E_7D8A, 0x6261_5A59, 23, 0x0488_1D05, 0x047B_9419);
    Next(r, x, 44, 0x888E_7D8A, 0x047B_9419, 0xCE62_0273, 0xBBDA_ECD8, 0x6E6D_6C6B, 4, 0xD9D4_D039, 0x2DBE_E21D);
    Next(r, x, 45, 0xBBDA_ECD8, 0x2DBE_E21D, 0x047B_9419, 0xCE62_0273, 0x7A79_7877, 11, 0xE6DB_99E5, 0xE95C_3A43);
    Next(r, x, 46, 0xCE62_0273, 0xE95C_3A43, 0x2DBE_E21D, 0x047B_9419, 0x0080_3938, 16, 0x1FA2_7CF8, 0xEE46_E961);
    Next(r, x, 47, 0x047B_9419, 0xEE46_E961, 0xE95C_3A43, 0x2DBE_E21D, 0x4C4B_4A49, 23, 0xC4AC_5665, 0xF166_F514);
  }

  lemma {:induction false} Part1_7(r: Regs, x: seq<bv32>)
    requires Words1(x) && Are(Steps(r, x, 48), 0x2DBE_E21D, 0xF166_F514, 0xEE46_E961, 0xE95C_3A43)
    ensures Are(Steps(r, x, 56), 0xA691_D430, 0xEFB0_E72F, 0x3FC2_3DF6, 0x5284_52F2)
  {
    Rows7();
    Ops1_7();
    Next(r, x, 48, 0x2DBE_E21D, 0xF166_F514, 0xEE46_E961, 0xE95C_3A43, 0x4443_4241, 6, 0xF429_2244, 0xE47F_D4F3);
    Next(r, x, 49, 0xE95C_3A43, 0xE47F_D4F3, 0xF166_F514, 0xEE46_E961, 0x6665_6463, 10, 0x432A_FF97, 0xFB88_7751);
    Next(r, x, 50, 0xEE46_E961, 0xFB88_7751, 0xE47F_D4F3, 0xF166_F514, 0x3736_3534, 15, 0xAB94_23A7, 0xF22A_EDCC);
    Next(r, x, 51, 0xF166_F514, 0xF22A_EDCC, 0xFB88_7751, 0xE47F_D4F3, 0x5857_5655, 21, 0xFC93_A039, 0x7A13_BC5C);
    Next(r, x, 52, 0xE47F_D4F3, 0x7A13_BC5C, 0xF22A_EDCC, 0xFB88_7751, 0x7A79_7877, 6, 0x655B_59C3, 0xA691_D430);
    Next(r, x, 53, 0xFB88_7751, 0xA691_D430, 0x7A13_BC5C, 0xF22A_EDCC, 0x504F_4E4D, 10, 0x8F0C_CC92, 0x5284_52F2);
    Next(r, x, 54, 0xF22A_EDCC, 0x5284_52F2, 0xA691_D430, 0x7A13_BC5C, 0x7271_706F, 15, 0xFFEF_F47D, 0x3FC2_3DF6);
    Next(r, x, 55, 0x7A13_BC5C, 0x3FC2_3DF6, 0x5284_52F2, 0xA691_D430, 0x4847_4645, 21, 0x8584_5DD1, 0xEFB0_E72F);
  }

  lemma {:induction false} Part1_8(r: Regs, x: seq<bv32>)
    requires Words1(x) && Are(Steps(r, x, 56), 0xA691_D430, 0xEFB0_E72F, 0x3FC2_3DF6, 0x5284_52F2)
    ensures Are(Steps(r, x, 64), 0x1CB8_0F0A, 0xEF2E_3A46, 0x10F6_8731, 0xEA3D_3EB4)
  {
    Rows8();
    Ops1_8();
    Next(r, x, 56, 0xA691_D430, 0xEFB0_E72F, 0x3FC2_3DF6, 0x5284_52F2, 0x6A69_6867, 6, 0x6FA8_7E4F, 0x2714_5703);
    Next(r, x, 57, 0x5284_52F2, 0x2714_5703, 0xEFB0_E72F, 0x3FC2_3DF6, 0x0080_3938, 10, 0xFE2C_E6E0, 0x21A1_1069);
    Next(r, x, 58, 0x3FC2_3DF6, 0x21A1_1069, 0x2714_5703, 0xEFB0_E72F, 0x6261_5A59, 15, 0xA301_4314, 0x374F_BE79);
    Next(r, x, 59, 0xEFB0_E72F, 0x374F_BE79, 0x21A1_1069, 0x2714_5703, 0x3332_3130, 21, 0x4E08_11A1, 0x49D9_A5B4);
    Next(r, x, 60, 0x2714_5703, 0x49D9_A5B4, 0x374F_BE79, 0x21A1_1069, 0x5453_5251, 6, 0xF753_7E82, 0x1CB8_0F0A);
    Next(r, x, 61, 0x21A1_1069, 0x1CB8_0F0A, 0x49D9_A5B4, 0x374F_BE79, 0x7675_7473, 10, 0xBD3A_F235, 0xEA3D_3EB4);
    Next(r, x, 62, 0x374F_BE79, 0xEA3D_3EB4, 0x1CB8_0F0A, 0x49D9_A5B4, 0x4C4B_4A49, 15, 0x2AD7_D2BB, 0x10F6_8731);
    Next(r, x, 63, 0x49D9_A5B4, 0x10F6_8731, 0xEA3D_3EB4, 0x1CB8_0F0A, 0x6E6D_6C6B, 21, 0xEB86_D391, 0xEF2E_3A46);
  }

  lemma {:induction false} Block1(r: Regs, s: seq<Byte>)
    requires Are(r, 0x6745_2301, 0xEFCD_AB89, 0x98BA_DCFE, 0x1032_5476) && Bytes1(s)
    ensures Are(Compress(r, s), 0x83FD_320B, 0xDEFB_E5CF, 0xA9B1_642F, 0xFA6F_932A)
  {
    Loaded1(s);
    Part1_1(r, Words(s));
    Part1_2(r, Words(s));
    Part1_3(r, Words(s));
    Part1_4(r, Words(s));
    Part1_5(r, Words(s));
    Part1_6(r, Words(s));
    Part1_7(r, Words(s));
    Part1_8(r, Words(s));
    Sums1();
  }

  lemma Sums1()
    ensures Plus(0x6745_2301, 0x1CB8_0F0A) == 0x83FD_320B
    ensures Plus(0xEFCD_AB89, 0xEF2E_3A46) == 0xDEFB_E5CF
    ensures Plus(0x98BA_DCFE, 0x10F6_8731) == 0xA9B1_642F
    ensures Plus(0x1032_5476, 0xEA3D_3EB4) == 0xFA6F_932A
  {}

  // ---------- the second block ----------

  ghost predicate Bytes2(s: seq<Byte>) {
    && |s| == 64
    && s[0] == 0x00 && s[1] == 0x00 && s[2] == 0x00 && s[3] == 0x00
    && s[4] == 0x00 && s[5] == 0x00 && s[6] == 0x00 && s[7] == 0x00
    && s[8] == 0x00 && s[9] == 0x00 && s[10] == 0x00 && s[11] == 0x00
    && s[12] == 0x00 && s[13] == 0x00 && s[14] == 0x00 && s[15] == 0x00
    && s[16] == 0x00 && s[17] == 0x00 && s[18] == 0x00 && s[19] == 0x00
    && s[20] == 0x00 && s[21] == 0x00 && s[22] == 0x00 && s[23] == 0x00
    && s[24] == 0x00 && s[25] == 0x00 && s[26] == 0x00 && s[27] == 0x00
    && s[28] == 0x00 && s[29] == 0x00 && s[30] == 0x00 && s[31] == 0x00
    && s[32] == 0x00 && s[33] == 0x00 && s[34] == 0x00 && s[35] == 0x00
    && s[36] == 0x00 && s[37] == 0x00 && s[38] == 0x00 && s[39] == 0x00
    && s[40] == 0x00 && s[41] == 0x00 && s[42] == 0x00 && s[43] == 0x00
    && s[44] == 0x00 && s[45] == 0x00 && s[46] == 0x00 && s[47] == 0x00
    && s[48] == 0x00 && s[49] == 0x00 && s[50] == 0x00 && s[51] == 0x00
    && s[52] == 0x00 && s[53] == 0x00 && s[54] == 0x00 && s[55] == 0x00
    && s[56] == 0xF0 && s[57] == 0x01 && s[58] == 0x00 && s[59] == 0x00
    && s[60] == 0x00 && s[61] == 0x00 && s[62] == 0x00 && s[63] == 0x00
  }

  ghost predicate Words2(x: seq<bv32>) {
    && |x| == 16
    && x[0] == 0x0000_0000 && x[1] == 0x0000_0000 && x[2] == 0x0000_0000 && x[3] == 0x0000_0000
    && x[4] == 0x0000_0000 && x[5] == 0x0000_0000 && x[6] == 0x0000_0000 && x[7] == 0x0000_0000
    && x[8] == 0x0000_0000 && x[9] == 0x0000_0000 && x[10] == 0x0000_0000 && x[11] == 0x0000_0000
    && x[12] == 0x0000_0000 && x[13] == 0x0000_0000 && x[14] == 0x0000_01F0 && x[15] == 0x0000_0000
  }

  lemma Packed2()
    ensures Word(0x00, 0x00, 0x00, 0x00) == 0x0000_0000
    ensures Word(0xF0, 0x01, 0x00, 0x00) == 0x0000_01F0
  {}

  lemma Loaded2(s: seq<Byte>)
    requires Bytes2(s)
    ensures Words2(Words(s))
  {
    Packed2();
  }

  lemma Ops2_1()
    ensures Op(0, 0x83FD_320B, 0xDEFB_E5CF, 0xA9B1_642F, 0xFA6F_932A, 0x0000_0000, 7, 0xD76A_A478) == 0xEDA2_3ED1
    ensures Op(0, 0xFA6F_932A, 0xEDA2_3ED1, 0xDEFB_E5CF, 0xA9B1_642F, 0x0000_0000, 12, 0xE8C7_B756) == 0x9899_39CF
    ensures Op(0, 0xA9B1_642F, 0x9899_39CF, 0xEDA2_3ED1, 0xDEFB_E5CF, 0x0000_0000, 17, 0x2420_70DB) == 0x3C30_7338
    ensures Op(0, 0xDEFB_E5CF, 0x3C30_7338, 0x9899_39CF, 0xEDA2_3ED1, 0x0000_0000, 22, 0xC1BD_CEEE) == 0xDDCF_0634
    ensures Op(0, 0xEDA2_3ED1, 0xDDCF_0634, 0x3C30_7338, 0x9899_39CF, 0x0000_0000, 7, 0xF57C_0FAF) == 0x7514_4433
    ensures Op(0, 0x9899_39CF, 0x7514_4433, 0xDDCF_0634, 0x3C30_7338, 0x0000_0000, 12, 0x4787_C62A) == 0xC887_5807
    ensures Op(0, 0x3C30_7338, 0xC887_5807, 0x7514_4433, 0xDDCF_0634, 0x0000_0000, 17, 0xA830_4613) == 0xC783_CB60
    ensures Op(0, 0xDDCF_0634, 0xC783_CB60, 0xC887_5807, 0x7514_4433, 0x0000_0000, 22, 0xFD46_9501) == 0x99B6_B699
  {}

  lemma Ops2_2()
    ensures Op(0, 0x7514_4433, 0x99B6_B699, 0xC783_CB60, 0xC887_5807, 0x0000_0000, 7, 0x6980_98D8) == 0xA60A_3F69
    ensures Op(0, 0xC887_5807, 0xA60A_3F69, 0x99B6_B699, 0xC783_CB60, 0x0000_0000, 12, 0x8B44_F7AF) == 0xAA66_30BE
    ensures Op(0, 0xC783_CB60, 0xAA66_30BE, 0xA60A_3F69, 0x99B6_B699, 0x0000_0000, 17, 0xFFFF_5BB1) == 0x64DB_26E9
    ensures Op(0, 0x99B6_B699, 0x64DB_26E9, 0xAA66_30BE, 0xA60A_3F69, 0x0000_0000, 22, 0x895C_D7BE) == 0x64CC_7C5A
    ensures Op(0, 0xA60A_3F69, 0x64CC_7C5A, 0x64DB_26E9, 0xAA66_30BE, 0x0000_0000, 7, 0x6B90_1122) == 0xA707_37DA
    ensures Op(0, 0xAA66_30BE, 0xA707_37DA, 0x64CC_7C5A, 0x64DB_26E9, 0x0000_0000, 12, 0xFD98_7193) == 0x5473_F8A7
    ensures Op(0, 0x64DB_26E9, 0x5473_F8A7, 0xA707_37DA, 0x64CC_7C5A, 0x0000_01F0, 17, 0xA679_438E) == 0x96F6_586E
    ensures Op(0, 0x64CC_7C5A, 0x96F6_586E, 0x5473_F8A7, 0xA707_37DA, 0x0000_0000, 22, 0x49B4_0821) == 0xA36F_556F
  {}

  lemma Ops2_3()
    ensures Op(1, 0xA707_37DA, 0xA36F_556F, 0x96F6_586E, 0x5473_F8A7, 0x0000_0000, 5, 0xF61E_2562) == 0xA505_0AD3
    ensures Op(1, 0x5473_F8A7, 0xA505_0AD3, 0xA36F_556F, 0x96F6_586E, 0x0000_0000, 9, 0xC040_B340) == 0x2877_6046
    ensures Op(1, 0x96F6_586E, 0x2877_6046, 0xA505_0AD3, 0xA36F_556F, 0x0000_0000, 14, 0x265E_5A51) == 0x27DC_D8B4
    ensures Op(1, 0xA36F_556F, 0x27DC_D8B4, 0x2877_6046, 0xA505_0AD3, 0x0000_0000, 20, 0xE9B6_C7AA) == 0x82B8_827C
    ensures Op(1, 0xA505_0AD3, 0x82B8_827C, 0x27DC_D8B4, 0x2877_6046, 0x0000_0000, 5, 0xD62F_105D) == 0xE04F_070C
    ensures Op(1, 0x2877_6046, 0xE04F_070C, 0x82B8_827C, 0x27DC_D8B4, 0x0000_0000, 9, 0x0244_1453) == 0x2F3C_D2A2
    ensures Op(1, 0x27DC_D8B4, 0x2F3C_D2A2, 0xE04F_070C, 0x82B8_827C, 0x0000_0000, 14, 0xD8A1_E681) == 0xC0D2_2B61
    ensures Op(1, 0x82B8_827C, 0xC0D2_2B61, 0x2F3C_D2A2, 0xE04F_070C, 0x0000_0000, 20, 0xE7D3_FBC8) == 0xDF35_CB56
  {}

  lemma Ops2_4()
    ensures Op(1, 0xE04F_070C, 0xDF35_CB56, 0xC0D2_2B61, 0x2F3C_D2A2, 0x0000_0000, 5, 0x21E1_CDE6) == 0x242D_D210
    ensures Op(1, 0x2F3C_D2A2, 0x242D_D210, 0xDF35_CB56, 0xC0D2_2B61, 0x0000_01F0, 9, 0xC337_07D6) == 0x576A_CE33
    ensures Op(1, 0xC0D2_2B61, 0x576A_CE33, 0x242D_D210, 0xDF35_CB56, 0x0000_0000, 14, 0xF4D5_0D87) == 0x5C29_5967
    ensures Op(1, 0xDF35_CB56, 0x5C29_5967, 0x576A_CE33, 0x242D_D210, 0x0000_0000, 20, 0x455A_14ED) == 0x2291_191A
    ensures Op(1, 0x242D_D210, 0x2291_191A, 0x5C29_5967, 0x576A_CE33, 0x0000_0000, 5, 0xA9E3_E905) == 0x24EB_A695
    ensures Op(1, 0x576A_CE33, 0x24EB_A695, 0x2291_191A, 0x5C29_5967, 0x0000_0000, 9, 0xFCEF_A3F8) == 0x4BD0_378B
    ensures Op(1, 0x5C29_5967, 0x4BD0_378B, 0x24EB_A695, 0x2291_191A, 0x0000_0000, 14, 0x676F_02D9) == 0x10C4_2A2F
    ensures Op(1, 0x2291_191A, 0x10C4_2A2F, 0x4BD0_378B, 0x24EB_A695, 0x0000_0000, 20, 0x8D2A_4C8A) == 0x9C03_E2E8
  {}

  lemma Ops2_5()
    ensures Op(2, 0x24EB_A695, 0x9C03_E2E8, 0x10C4_2A2F, 0x4BD0_378B, 0x0000_0000, 4, 0xFFFA_3942) == 0x5BE1_D526
    ensures Op(2, 0x4BD0_378B, 0x5BE1_D526, 0x9C03_E2E8, 0x10C4_2A2F, 0x0000_0000, 11, 0x8771_F681) == 0x9E41_4279
    ensures Op(2, 0x10C4_2A2F, 0x9E41_4279, 0x5BE1_D526, 0x9C03_E2E8, 0x0000_0000, 16, 0x6D9D_6122) == 0x9F4A_1A7E
    ensures Op(2, 0x9C03_E2E8, 0x9F4A_1A7E, 0x9E41_4279, 0x5BE1_D526, 0x0000_01F0, 23, 0xFDE5_380C) == 0xA244_8453
    ensures Op(2, 0x5BE1_D526, 0xA244_8453, 0x9F4A_1A7E, 0x9E41_4279, 0x0000_0000, 4, 0xA4BE_EA44) == 0xE14E_403D
    ensures Op(2, 0x9E41_4279, 0xE14E_403D, 0xA244_8453, 0x9F4A_1A7E, 0x0000_0000, 11, 0x4BDE_CFA9) == 0xE8CF_D670
    ensures Op(2, 0x9F4A_1A7E, 0xE8CF_D670, 0xE14E_403D, 0xA244_8453, 0x0000_0000, 16, 0xF6BB_4B60) == 0x60CC_183A
    ensures Op(2, 0xA244_8453, 0x60CC_183A, 0xE8CF_D670, 0xE14E_403D, 0x0000_0000, 23, 0xBEBF_BC70) == 0xFE31_4121
  {}

  lemma Ops2_6()
    ensures Op(2, 0xE14E_403D, 0xFE31_4121, 0x60CC_183A, 0xE8CF_D670, 0x0000_0000, 4, 0x289B_7EC6) == 0xFFF6_2809
    ensures Op(2, 0xE8CF_D670, 0xFFF6_2809, 0xFE31_4121, 0x60CC_183A, 0x0000_0000, 11, 0xEAA1_27FA) == 0xE372_09AC
    ensures Op(2, 0x60CC_183A, 0xE372_09AC, 0xFFF6_2809, 0xFE31_4121, 0x0000_0000, 16, 0xD4EF_3085) == 0x8CB5_221C
    ensures Op(2, 0xFE31_4121, 0x8CB5_221C, 0xE372_09AC, 0xFFF6_2809, 0x0000_0000, 23, 0x0488_1D05) == 0x7C7E_974C
    ensures Op(2, 0xFFF6_2809, 0x7C7E_974C, 0x8CB5_221C, 0xE372_09AC, 0x0000_0000, 4, 0xD9D4_D039) == 0x54C9_EB3A
    ensures Op(2, 0xE372_09AC, 0x54C9_EB3A, 0x7C7E_974C, 0x8CB5_221C, 0x0000_0000, 11, 0xE6DB_99E5) == 0xD4D9_C6AC
    ensures Op(2, 0x8CB5_221C, 0xD4D9_C6AC, 0x54C9_EB3A, 0x7C7E_974C, 0x0000_0000, 16, 0x1FA2_7CF8) == 0x2EC8_6F72
    ensures Op(2, 0x7C7E_974C, 0x2EC8_6F72, 0xD4D9_C6AC, 0x54C9_EB3A, 0x0000_0000, 23, 0xC4AC_5665) == 0x79C0_710A
  {}

  lemma Ops2_7()
    ensures Op(3, 0x54C9_EB3A, 0x79C0_710A, 0x2EC8_6F72, 0xD4D9_C6AC, 0x0000_0000, 6, 0xF429_2244) == 0x0209_5AF1
    ensures Op(3, 0xD4D9_C6AC, 0x0209_5AF1, 0x79C0_710A, 0x2EC8_6F72, 0x0000_0000, 10, 0x432A_FF97) == 0x13D2_45FD
    ensures Op(3, 0x2EC8_6F72, 0x13D2_45FD, 0x0209_5AF1, 0x79C0_710A, 0x0000_01F0, 15, 0xAB94_23A7) == 0xA8DC_FE26
    ensures Op(3, 0x79C0_710A, 0xA8DC_FE26, 0x13D2_45FD, 0x0209_5AF1, 0x0000_0000, 21, 0xFC93_A039) == 0x2BA9_8E3F
    ensures Op(3, 0x0209_5AF1, 0x2BA9_8E3F, 0xA8DC_FE26, 0x13D2_45FD, 0x0000_0000, 6, 0x655B_59C3) == 0xE126_C1AA
    ensures Op(3, 0x13D2_45FD, 0xE126_C1AA, 0x2BA9_8E3F, 0xA8DC_FE26, 0x0000_0000, 10, 0x8F0C_CC92) == 0x96B0_0FA7
    ensures Op(3, 0xA8DC_FE26, 0x96B0_0FA7, 0xE126_C1AA, 0x2BA9_8E3F, 0x0000_0000, 15, 0xFFEF_F47D) == 0x6F28_7FF5
    ensures Op(3, 0x2BA9_8E3F, 0x6F28_7FF5, 0x96B0_0FA7, 0xE126_C1AA, 0x0000_0000, 21, 0x8584_5DD1) == 0xFB7B_CEE0
  {}

  lemma Ops2_8()
    ensures Op(3, 0xE126_C1AA, 0xFB7B_CEE0, 0x6F28_7FF5, 0x96B0_0FA7, 0x0000_0000, 6, 0x6FA8_7E4F) == 0x452C_1099
    ensures Op(3, 0x96B0_0FA7, 0x452C_1099, 0xFB7B_CEE0, 0x6F28_7FF5, 0x0000_0000, 10, 0xFE2C_E6E0) == 0xCA80_1BA6
    ensures Op(3, 0x6F28_7FF5, 0xCA80_1BA6, 0x452C_1099, 0xFB7B_CEE0, 0x0000_0000, 15, 0xA301_4314) == 0xC197_EA8E
    ensures Op(3, 0xFB7B_CEE0, 0xC197_EA8E, 0xCA80_1BA6, 0x452C_1099, 0x0000_0000, 21, 0x4E08_11A1) == 0x5AC7_4608
    ensures Op(3, 0x452C_1099, 0x5AC7_4608, 0xC197_EA8E, 0xCA80_1BA6, 0x0000_0000, 6, 0xF753_7E82) == 0x14AE_42C6
    ensures Op(3, 0xCA80_1BA6, 0x14AE_42C6, 0x5AC7_4608, 0xC197_EA8E, 0x0000_0000, 10, 0xBD3A_F235) == 0xA52D_AE75
    ensures Op(3, 0xC197_EA8E, 0xA52D_AE75, 0x14AE_42C6, 0x5AC7_4608, 0x0000_0000, 15, 0x2AD7_D2BB) == 0x826A_FD76
    ensures Op(3, 0x5AC7_4608, 0x826A_FD76, 0xA52D_AE75, 0x14AE_42C6, 0x0000_0000, 21, 0xEB86_D391) == 0x16DD_9203
  {}

  lemma {:induction false} Part2_1(r: Regs, x: seq<bv32>)
    requires Words2(x) && Are(Steps(r, x, 0), 0x83FD_320B, 0xDEFB_E5CF, 0xA9B1_642F, 0xFA6F_932A)
    ensures Are(Steps(r, x, 8), 0x7514_4433, 0x99B6_B699, 0xC783_CB60, 0xC887_5807)
  {
    Rows1();
    Ops2_1();
    Next(r, x, 0, 0x83FD_320B, 0xDEFB_E5CF, 0xA9B1_642F, 0xFA6F_932A, 0x0000_0000, 7, 0xD76A_A478, 0xEDA2_3ED1);
    Next(r, x, 1, 0xFA6F_932A, 0xEDA2_3ED1, 0xDEFB_E5CF, 0xA9B1_642F, 0x0000_0000, 12, 0xE8C7_B756, 0x9899_39CF);
    Next(r, x, 2, 0xA9B1_642F, 0x9899_39CF, 0xEDA2_3ED1, 0xDEFB_E5CF, 0x0000_0000, 17, 0x2420_70DB, 0x3C30_7338);
    Next(r, x, 3, 0xDEFB_E5CF, 0x3C30_7338, 0x9899_39CF, 0xEDA2_3ED1, 0x0000_0000, 22, 0xC1BD_CEEE, 0xDDCF_0634);
    Next(r, x, 4, 0xEDA2_3ED1, 0xDDCF_0634, 0x3C30_7338, 0x9899_39CF, 0x0000_0000, 7, 0xF57C_0FAF, 0x7514_4433);
    Next(r, x, 5, 0x9899_39CF, 0x7514_4433, 0xDDCF_0634, 0x3C30_7338, 0x0000_0000, 12, 0x4787_C62A, 0xC887_5807);
    Next(r, x, 6, 0x3C30_7338, 0xC887_5807, 0x7514_4433, 0xDDCF_0634, 0x0000_0000, 17, 0xA830_4613, 0xC783_CB60);
    Next(r, x, 7, 0xDDCF_0634, 0xC783_CB60, 0xC887_5807, 0x7514_4433, 0x0000_0000, 22, 0xFD46_9501, 0x99B6_B699);
  }

  lemma {:induction false} Part2_2(r: Regs, x: seq<bv32>)
    requires Words2(x) && Are(Steps(r, x, 8), 0x7514_4433, 0x99B6_B699, 0xC783_CB60, 0xC887_5807)
    ensures Are(Steps(r, x, 16), 0xA707_37DA, 0xA36F_556F, 0x96F6_586E, 0x5473_F8A7)
  {
    Rows2();
    Ops2_2();
    Next(r, x, 8, 0x7514_4433, 0x99B6_B699, 0xC783_CB60, 0xC887_5807, 0x0000_0000, 7, 0x6980_98D8, 0xA60A_3F69);
    Next(r, x, 9, 0xC887_5807, 0xA60A_3F69, 0x99B6_B699, 0xC783_CB60, 0x0000_0000, 12, 0x8B44_F7AF, 0xAA66_30BE);
    Next(r, x, 10, 0xC783_CB60, 0xAA66_30BE, 0xA60A_3F69, 0x99B6_B699, 0x0000_0000, 17, 0xFFFF_5BB1, 0x64DB_26E9);
    Next(r, x, 11, 0x99B6_B699, 0x64DB_26E9, 0xAA66_30BE, 0xA60A_3F69, 0x0000_0000, 22, 0x895C_D7BE, 0x64CC_7C5A);
    Next(r, x, 12, 0xA60A_3F69, 0x64CC_7C5A, 0x64DB_26E9, 0xAA66_30BE, 0x0000_0000, 7, 0x6B90_1122, 0xA707_37DA);
    Next(r, x, 13, 0xAA66_30BE, 0xA707_37DA, 0x64CC_7C5A, 0x64DB_26E9, 0x0000_0000, 12, 0xFD98_7193, 0x5473_F8A7);
    Next(r, x, 14, 0x64DB_26E9, 0x5473_F8A7, 0xA707_37DA, 0x64CC_7C5A, 0x0000_01F0, 17, 0xA679_438E, 0x96F6_586E);
    Next(r, x, 15, 0x64CC_7C5A, 0x96F6_586E, 0x5473_F8A7, 0xA707_37DA, 0x0000_0000, 22, 0x49B4_0821, 0xA36F_556F);
  }

  lemma {:induction false} Part2_3(r: Regs, x: seq<bv32>)
    requires Words2(x) && Are(Steps(r, x, 16), 0xA707_37DA, 0xA36F_556F, 0x96F6_586E, 0x5473_F8A7)
    ensures Are(Steps(r, x, 24), 0xE04F_070C, 0xDF35_CB56, 0xC0D2_2B61, 0x2F3C_D2A2)
  {
    Rows3();
    Ops2_3();
    Next(r, x, 16, 0xA707_37DA, 0xA36F_556F, 0x96F6_586E, 0x5473_F8A7, 0x0000_0000, 5, 0xF61E_2562, 0xA505_0AD3);
    Next(r, x, 17, 0x5473_F8A7, 0xA505_0AD3, 0xA36F_556F, 0x96F6_586E, 0x0000_0000, 9, 0xC040_B340, 0x2877_6046);
    Next(r, x, 18, 0x96F6_586E, 0x2877_6046, 0xA505_0AD3, 0xA36F_556F, 0x0000_0000, 14, 0x265E_5A51, 0x27DC_D8B4);
    Next(r, x, 19, 0xA36F_556F, 0x27DC_D8B4, 0x2877_6046, 0xA505_0AD3, 0x0000_0000, 20, 0xE9B6_C7AA, 0x82B8_827C);
    Next(r, x, 20, 0xA505_0AD3, 0x82B8_827C, 0x27DC_D8B4, 0x2877_6046, 0x0000_0000, 5, 0xD62F_105D, 0xE04F_070C);
    Next(r, x, 21, 0x2877_6046, 0xE04F_070C, 0x82B8_827C, 0x27DC_D8B4, 0x0000_0000, 9, 0x0244_1453, 0x2F3C_D2A2);
    Next(r, x, 22, 0x27DC_D8B4, 0x2F3C_D2A2, 0xE04F_070C, 0x82B8_827C, 0x0000_0000, 14, 0xD8A1_E681, 0xC0D2_2B61);
    Next(r, x, 23, 0x82B8_827C, 0xC0D2_2B61, 0x2F3C_D2A2, 0xE04F_070C, 0x0000_0000, 20, 0xE7D3_FBC8, 0xDF35_CB56);
  }

  lemma {:induction false} Part2_4(r: Regs, x: seq<bv32>)
    requires Words2(x) && Are(Steps(r, x, 24), 0xE04F_070C, 0xDF35_CB56, 0xC0D2_2B61, 0x2F3C_D2A2)
    ensures Are(Steps(r, x, 32), 0x24EB_A695, 0x9C03_E2E8, 0x10C4_2A2F, 0x4BD0_378B)
  {
    Rows4();
    Ops2_4();
    Next(r, x, 24, 0xE04F_070C, 0xDF35_CB56, 0xC0D2_2B61, 0x2F3C_D2A2, 0x0000_0000, 5, 0x21E1_CDE6, 0x242D_D210);
    Next(r, x, 25, 0x2F3C_D2A2, 0x242D_D210, 0xDF35_CB56, 0xC0D2_2B61, 0x0000_01F0, 9, 0xC337_07D6, 0x576A_CE33);
    Next(r, x, 26, 0xC0D2_2B61, 0x576A_CE33, 0x242D_D210, 0xDF35_CB56, 0x0000_0000, 14, 0xF4D5_0D87, 0x5C29_5967);
    Next(r, x, 27, 0xDF35_CB56, 0x5C29_5967, 0x576A_CE33, 0x242D_D210, 0x0000_0000, 20, 0x455A_14ED, 0x2291_191A);
    Next(r, x, 28, 0x242D_D210, 0x2291_191A, 0x5C29_5967, 0x576A_CE33, 0x0000_0000, 5, 0xA9E3_E905, 0x24EB_A695);
    Next(r, x, 29, 0x576A_CE33, 0x24EB_A695, 0x2291_191A, 0x5C29_5967, 0x0000_0000, 9, 0xFCEF_A3F8, 0x4BD0_378B);
    Next(r, x, 30, 0x5C29_5967, 0x4BD0_378B, 0x24EB_A695, 0x2291_191A, 0x0000_0000, 14, 0x676F_02D9, 0x10C4_2A2F);
    Next(r, x, 31, 0x2291_191A, 0x10C4_2A2F, 0x4BD0_378B, 0x24EB_A695, 0x0000_0000, 20, 0x8D2A_4C8A, 0x9C03_E2E8);
  }

  lemma {:induction false} Part2_5(r: Regs, x: seq<bv32>)
    requires Words2(x) && Are(Steps(r, x, 32), 0x24EB_A695, 0x9C03_E2E8, 0x10C4_2A2F, 0x4BD0_378B)
    ensures Are(Steps(r, x, 40), 0xE14E_403D, 0xFE31_4121, 0x60CC_183A, 0xE8CF_D670)
  {
    Rows5();
    Ops2_5();
    Next(r, x, 32, 0x24EB_A695, 0x9C03_E2E8, 0x10C4_2A2F, 0x4BD0_378B, 0x0000_0000, 4, 0xFFFA_3942, 0x5BE1_D526);
    Next(r, x, 33, 0x4BD0_378B, 0x5BE1_D526, 0x9C03_E2E8, 0x10C4_2A2F, 0x0000_0000, 11, 0x8771_F681, 0x9E41_4279);
    Next(r, x, 34, 0x10C4_2A2F, 0x9E41_4279, 0x5BE1_D526, 0x9C03_E2E8, 0x0000_0000, 16, 0x6D9D_6122, 0x9F4A_1A7E);
    Next(r, x, 35, 0x9C03_E2E8, 0x9F4A_1A7E, 0x9E41_4279, 0x5BE1_D526, 0x0000_01F0, 23, 0xFDE5_380C, 0xA244_8453);
    Next(r, x, 36, 0x5BE1_D526, 0xA244_8453, 0x9F4A_1A7E, 0x9E41_4279, 0x0000_0000, 4, 0xA4BE_EA44, 0xE14E_403D);
    Next(r, x, 37, 0x9E41_4279, 0xE14E_403D, 0xA244_8453, 0x9F4A_1A7E, 0x0000_0000, 11, 0x4BDE_CFA9, 0xE8CF_D670);
    Next(r, x, 38, 0x9F4A_1A7E, 0xE8CF_D670, 0xE14E_403D, 0xA244_8453, 0x0000_0000, 16, 0xF6BB_4B60, 0x60CC_183A);
    Next(r, x, 39, 0xA244_8453, 0x60CC_183A, 0xE8CF_D670, 0xE14E_403D, 0x0000_0000, 23, 0xBEBF_BC70, 0xFE31_4121);
  }

  lemma {:induction false} Part2_6(r: Regs, x: seq<bv32>)
    requires Words2(x) && Are(Steps(r, x, 40), 0xE14E_403D, 0xFE31_4121, 0x60CC_183A, 0xE8CF_D670)
    ensures Are(Steps(r, x, 48), 0x54C9_EB3A, 0x79C0_710A, 0x2EC8_6F72, 0xD4D9_C6AC)
  {
    Rows6();
    Ops2_6();
    Next(r, x, 40, 0xE14E_403D, 0xFE31_4121, 0x60CC_183A, 0xE8CF_D670, 0x0000_0000, 4, 0x289B_7EC6, 0xFFF6_2809);
    Next(r, x, 41, 0xE8CF_D670, 0xFFF6_2809, 0xFE31_4121, 0x60CC_183A, 0x0000_0000, 11, 0xEAA1_27FA, 0xE372_09AC);
    Next(r, x, 42, 0x60CC_183A, 0xE372_09AC, 0xFFF6_2809, 0xFE31_4121, 0x0000_0000, 16, 0xD4EF_3085, 0x8CB5_221C);
    Next(r, x, 43, 0xFE31_4121, 0x8CB5_221C, 0xE372_09AC, 0xFFF6_2809, 0x0000_0000, 23, 0x0488_1D05, 0x7C7E_974C);
    Next(r, x, 44, 0xFFF6_2809, 0x7C7E_974C, 0x8CB5_221C, 0xE372_09AC, 0x0000_0000, 4, 0xD9D4_D039, 0x54C9_EB3A);
    Next(r, x, 45, 0xE372_09AC, 0x54C9_EB3A, 0x7C7E_974C, 0x8CB5_221C, 0x0000_0000, 11, 0xE6DB_99E5, 0xD4D9_C6AC);
    Next(r, x, 46, 0x8CB5_221C, 0xD4D9_C6AC, 0x54C9_EB3A, 0x7C7E_974C, 0x0000_0000, 16, 0x1FA2_7CF8, 0x2EC8_6F72);
    Next(r, x, 47, 0x7C7E_974C, 0x2EC8_6F72, 0xD4D9_C6AC, 0x54C9_EB3A, 0x0000_0000, 23, 0xC4AC_5665, 0x79C0_710A);
  }

  lemma {:induction false} Part2_7(r: Regs, x: seq<bv32>)
    requires Words2(x) && Are(Steps(r, x, 48), 0x54C9_EB3A, 0x79C0_710A, 0x2EC8_6F72, 0xD4D9_C6AC)
    ensures Are(Steps(r, x, 56), 0xE126_C1AA, 0xFB7B_CEE0, 0x6F28_7FF5, 0x96B0_0FA7)
  {
    Rows7();
    Ops2_7();
    Next(r, x, 48, 0x54C9_EB3A, 0x79C0_710A, 0x2EC8_6F72, 0xD4D9_C6AC, 0x0000_0000, 6, 0xF429_2244, 0x0209_5AF1);
    Next(r, x, 49, 0xD4D9_C6AC, 0x0209_5AF1, 0x79C0_710A, 0x2EC8_6F72, 0x0000_0000, 10, 0x432A_FF97, 0x13D2_45FD);
    Next(r, x, 50, 0x2EC8_6F72, 0x13D2_45FD, 0x0209_5AF1, 0x79C0_710A, 0x0000_01F0, 15, 0xAB94_23A7, 0xA8DC_FE26);
    Next(r, x, 51, 0x79C0_710A, 0xA8DC_FE26, 0x13D2_45FD, 0x0209_5AF1, 0x0000_0000, 21, 0xFC93_A039, 0x2BA9_8E3F);
    Next(r, x, 52, 0x0209_5AF1, 0x2BA9_8E3F, 0xA8DC_FE26, 0x13D2_45FD, 0x0000_0000, 6, 0x655B_59C3, 0xE126_C1AA);
    Next(r, x, 53, 0x13D2_45FD, 0xE126_C1AA, 0x2BA9_8E3F, 0xA8DC_FE26, 0x0000_0000, 10, 0x8F0C_CC92, 0x96B0_0FA7);
    Next(r, x, 54, 0xA8DC_FE26, 0x96B0_0FA7, 0xE126_C1AA, 0x2BA9_8E3F, 0x0000_0000, 15, 0xFFEF_F47D, 0x6F28_7FF5);
    Next(r, x, 55, 0x2BA9_8E3F, 0x6F28_7FF5, 0x96B0_0FA7, 0xE126_C1AA, 0x0000_0000, 21, 0x8584_5DD1, 0xFB7B_CEE0);
  }

  lemma {:induction false} Part2_8(r: Regs, x: seq<bv32>)
    requires Words2(x) && Are(Steps(r, x, 56), 0xE126_C1AA, 0xFB7B_CEE0, 0x6F28_7FF5, 0x96B0_0FA7)
    ensures Are(Steps(r, x, 64), 0x14AE_42C6, 0x16DD_9203, 0x826A_FD76, 0xA52D_AE75)
  {
    Rows8();
    Ops2_8();
    Next(r, x, 56, 0xE126_C1AA, 0xFB7B_CEE0, 0x6F28_7FF5, 0x96B0_0FA7, 0x0000_0000, 6, 0x6FA8_7E4F, 0x452C_1099);
    Next(r, x, 57, 0x96B0_0FA7, 0x452C_1099, 0xFB7B_CEE0, 0x6F28_7FF5, 0x0000_0000, 10, 0xFE2C_E6E0, 0xCA80_1BA6);
    Next(r, x, 58, 0x6F28_7FF5, 0xCA80_1BA6, 0x452C_1099, 0xFB7B_CEE0, 0x0000_0000, 15, 0xA301_4314, 0xC197_EA8E);
    Next(r, x, 59, 0xFB7B_CEE0, 0xC197_EA8E, 0xCA80_1BA6, 0x452C_1099, 0x0000_0000, 21, 0x4E08_11A1, 0x5AC7_4608);
    Next(r, x, 60, 0x452C_1099, 0x5AC7_4608, 0xC197_EA8E, 0xCA80_1BA6, 0x0000_0000, 6, 0xF753_7E82, 0x14AE_42C6);
    Next(r, x, 61, 0xCA80_1BA6, 0x14AE_42C6, 0x5AC7_4608, 0xC197_EA8E, 0x0000_0000, 10, 0xBD3A_F235, 0xA52D_AE75);
    Next(r, x, 62, 0xC197_EA8E, 0xA52D_AE75, 0x14AE_42C6, 0x5AC7_4608, 0x0000_0000, 15, 0x2AD7_D2BB, 0x826A_FD76);
    Next(r, x, 63, 0x5AC7_4608, 0x826A_FD76, 0xA52D_AE75, 0x14AE_42C6, 0x0000_0000, 21, 0xEB86_D391, 0x16DD_9203);
  }

  lemma {:induction false} Block2(r: Regs, s: seq<Byte>)
    requires Are(r, 0x83FD_320B, 0xDEFB_E5CF, 0xA9B1_642F, 0xFA6F_932A) && Bytes2(s)
    ensures Are(Compress(r, s), 0x98AB_74D1, 0xF5D9_77D2, 0x2C1C_61A5, 0x9F9D_419F)
  {
    Loaded2(s);
    Part2_1(r, Words(s));
    Part2_2(r, Words(s));
    Part2_3(r, Words(s));
    Part2_4(r, Words(s));
    Part2_5(r, Words(s));
    Part2_6(r, Words(s));
    Part2_7(r, Words(s));
    Part2_8(r, Words(s));
    Sums2();
  }

  lemma Sums2()
    ensures Plus(0x83FD_320B, 0x14AE_42C6) == 0x98AB_74D1
    ensures Plus(0xDEFB_E5CF, 0x16DD_9203) == 0xF5D9_77D2
    ensures Plus(0xA9B1_642F, 0x826A_FD76) == 0x2C1C_61A5
    ensures Plus(0xFA6F_932A, 0xA52D_AE75) == 0x9F9D_419F
  {}

  // ---------- the whole message ----------

  /** The characters A to Z, a to z and 0 to 9. */
  ghost predicate Alphabet(m: seq<Byte>) {
    && |m| == 62
    && m[0] == 0x41 && m[1] == 0x42 && m[2] == 0x43 && m[3] == 0x44 && m[4] == 0x45 && m[5] == 0x46
    && m[6] == 0x47 && m[7] == 0x48 && m[8] == 0x49 && m[9] == 0x4A && m[10] == 0x4B && m[11] == 0x4C
    && m[12] == 0x4D && m[13] == 0x4E && m[14] == 0x4F && m[15] == 0x50 && m[16] == 0x51 && m[17] == 0x52
    && m[18] == 0x53 && m[19] == 0x54 && m[20] == 0x55 && m[21] == 0x56 && m[22] == 0x57 && m[23] == 0x58
    && m[24] == 0x59 && m[25] == 0x5A && m[26] == 0x61 && m[27] == 0x62 && m[28] == 0x63 && m[29] == 0x64
    && m[30] == 0x65 && m[31] == 0x66 && m[32] == 0x67 && m[33] == 0x68 && m[34] == 0x69 && m[35] == 0x6A
    && m[36] == 0x6B && m[37] == 0x6C && m[38] == 0x6D && m[39] == 0x6E && m[40] == 0x6F && m[41] == 0x70
    && m[42] == 0x71 && m[43] == 0x72 && m[44] == 0x73 && m[45] == 0x74 && m[46] == 0x75 && m[47] == 0x76
    && m[48] == 0x77 && m[49] == 0x78 && m[50] == 0x79 && m[51] == 0x7A && m[52] == 0x30 && m[53] == 0x31
    && m[54] == 0x32 && m[55] == 0x33 && m[56] == 0x34 && m[57] == 0x35 && m[58] == 0x36 && m[59] == 0x37
    && m[60] == 0x38 && m[61] == 0x39
  }

  lemma LengthLow()
    ensures 496 as bv32 == 0x0000_01F0
  {}

  lemma LengthWords(lo: bv32, hi: bv32)
    requires lo == 0x0000_01F0 && hi == 0
    ensures WordBytes(lo) == [0xF0, 0x01, 0x00, 0x00] && WordBytes(hi) == [0x00, 0x00, 0x00, 0x00]
  {}

  lemma LengthDef(bits: nat, lo: bv32, hi: bv32)
    requires lo == (bits % 0x1_0000_0000) as bv32 && hi == (bits / 0x1_0000_0000 % 0x1_0000_0000) as bv32
    ensures LengthBytes(bits) == WordBytes(lo) + WordBytes(hi)
  {}

  lemma LengthValues(bits: nat)
    requires bits == 496
    ensures (bits % 0x1_0000_0000) as bv32 == 0x0000_01F0
    ensures (bits / 0x1_0000_0000 % 0x1_0000_0000) as bv32 == 0
  {
    LengthLow();
    assert bits % 0x1_0000_0000 == 496 && bits / 0x1_0000_0000 % 0x1_0000_0000 == 0;
  }

  lemma Length(bits: nat)
    requires bits == 496
    ensures LengthBytes(bits) == [0xF0, 0x01, 0x00, 0x00, 0x00, 0x00, 0x00, 0x00]
  {
    var lo, hi := (bits % 0x1_0000_0000) as bv32, (bits / 0x1_0000_0000 % 0x1_0000_0000) as bv32;
    LengthValues(bits);
    LengthWords(lo, hi);
    LengthDef(bits, lo, hi);
  }

  /** What padding 62 bytes adds: the byte 0x80, 57 zero bytes and the length of 496 bits. */
  lemma Tail(m: seq<Byte>, p: seq<Byte>)
    requires |m| == 62 && p == Padded(m)
    ensures |p| == 128 && p[..62] == m && p[62] == 0x80 && forall i :: 63 <= i < 120 ==> p[i] == 0
    ensures p[120..] == [0xF0, 0x01, 0x00, 0x00, 0x00, 0x00, 0x00, 0x00]
  {
    Length(8 * |m|);
  }

  lemma FirstBlock(m: seq<Byte>, p: seq<Byte>)
    requires Alphabet(m) && |p| == 128 && p[..62] == m && p[62] == 0x80 && p[63] == 0
    ensures Bytes1(p[..64])
  {
    assert p[..64][..62] == m;
    assert p[..64] == m + [0x80, 0];
  }

  lemma SecondBlock(p: seq<Byte>)
    requires |p| == 128 && p[120..] == [0xF0, 0x01, 0x00, 0x00, 0x00, 0x00, 0x00, 0x00]
    requires forall i :: 63 <= i < 120 ==> p[i] == 0
    ensures Bytes2(p[64..])
  {
    var s := p[64..];
    assert forall i :: 0 <= i < 56 ==> s[i] == p[64 + i] == 0;
    assert s[56..] == p[120..];
  }

  lemma TwoFolds(r: Regs, p: seq<Byte>)
    requires |p| == 128
    ensures Fold(r, p) == Compress(Compress(r, p[..64]), p[64..])
  {
    assert p[..64][..0] == [] && p[..64][0..] == p[..64];
    assert Fold(r, p[..64]) == Compress(Fold(r, []), p[..64]);
  }

  lemma Output(r: Regs)
    requires Are(r, 0x98AB_74D1, 0xF5D9_77D2, 0x2C1C_61A5, 0x9F9D_419F)
    ensures WordBytes(r.a) == [0xD1, 0x74, 0xAB, 0x98]
    ensures WordBytes(r.b) == [0xD2, 0x77, 0xD9, 0xF5]
    ensures WordBytes(r.c) == [0xA5, 0x61, 0x1C, 0x2C]
    ensures WordBytes(r.d) == [0x9F, 0x41, 0x9D, 0x9F]
  {}

  lemma Folded(m: seq<Byte>, p: seq<Byte>)
    requires Alphabet(m) && p == Padded(m)
    ensures Are(Fold(IV, p), 0x98AB_74D1, 0xF5D9_77D2, 0x2C1C_61A5, 0x9F9D_419F)
  {
    Tail(m, p);
    FirstBlock(m, p);
    SecondBlock(p);
    TwoFolds(IV, p);
    Block1(IV, p[..64]);
    Block2(Compress(IV, p[..64]), p[64..]);
  }

  /** The digest of the standard. */
  lemma Vector(m: seq<Byte>)
    requires Alphabet(m)
    ensures Digest(m) == [
      0xD1, 0x74, 0xAB, 0x98, 0xD2, 0x77, 0xD9, 0xF5,
      0xA5, 0x61, 0x1C, 0x2C, 0x9F, 0x41, 0x9D, 0x9F
    ]
  {
    Folded(m, Padded(m));
    Output(Fold(IV, Padded(m)));
  }
}
