/** The table-driven checksum of deltaupgmcu.py. */
module CrcTable {
  /** crctab, sixteen entries a row. */
  function Crctab(i: bv8): bv32 {
    if i < 0x10 then Row0(i)
    else if i < 0x20 then Row1(i)
    else if i < 0x30 then Row2(i)
    else if i < 0x40 then Row3(i)
    else if i < 0x50 then Row4(i)
    else if i < 0x60 then Row5(i)
    else if i < 0x70 then Row6(i)
    else if i < 0x80 then Row7(i)
    else if i < 0x90 then Row8(i)
    else if i < 0xA0 then Row9(i)
    else if i < 0xB0 then RowA(i)
    else if i < 0xC0 then RowB(i)
    else if i < 0xD0 then RowC(i)
    else if i < 0xE0 then RowD(i)
    else if i < 0xF0 then RowE(i)
    else RowF(i)
  }

  function Row0(i: bv8): bv32 {
    if i == 0x00 then 0x0000_0000 else if i == 0x01 then 0x04C1_1DB7
    else if i == 0x02 then 0x0982_3B6E else if i == 0x03 then 0x0D43_26D9
    else if i == 0x04 then 0x1304_76DC else if i == 0x05 then 0x17C5_6B6B
    else if i == 0x06 then 0x1A86_4DB2 else if i == 0x07 then 0x1E47_5005
    else if i == 0x08 then 0x2608_EDB8 else if i == 0x09 then 0x22C9_F00F
    else if i == 0x0A then 0x2F8A_D6D6 else if i == 0x0B then 0x2B4B_CB61
    else if i == 0x0C then 0x350C_9B64 else if i == 0x0D then 0x31CD_86D3
    else if i == 0x0E then 0x3C8E_A00A else 0x384F_BDBD
  }

  function Row1(i: bv8): bv32 {
    if i == 0x10 then 0x4C11_DB70 else if i == 0x11 then 0x48D0_C6C7
    else if i == 0x12 then 0x4593_E01E else if i == 0x13 then 0x4152_FDA9
    else if i == 0x14 then 0x5F15_ADAC else if i == 0x15 then 0x5BD4_B01B
    else if i == 0x16 then 0x5697_96C2 else if i == 0x17 then 0x5256_8B75
    else if i == 0x18 then 0x6A19_36C8 else if i == 0x19 then 0x6ED8_2B7F
    else if i == 0x1A then 0x639B_0DA6 else if i == 0x1B then 0x675A_1011
    else if i == 0x1C then 0x791D_4014 else if i == 0x1D then 0x7DDC_5DA3
    else if i == 0x1E then 0x709F_7B7A else 0x745E_66CD
  }

  function Row2(i: bv8): bv32 {
    if i == 0x20 then 0x9823_B6E0 else if i == 0x21 then 0x9CE2_AB57
    else if i == 0x22 then 0x91A1_8D8E else if i == 0x23 then 0x9560_9039
    else if i == 0x24 then 0x8B27_C03C else if i == 0x25 then 0x8FE6_DD8B
    else if i == 0x26 then 0x82A5_FB52 else if i == 0x27 then 0x8664_E6E5
    else if i == 0x28 then 0xBE2B_5B58 else if i == 0x29 then 0xBAEA_46EF
    else if i == 0x2A then 0xB7A9_6036 else if i == 0x2B then 0xB368_7D81
    else if i == 0x2C then 0xAD2F_2D84 else if i == 0x2D then 0xA9EE_3033
    else if i == 0x2E then 0xA4AD_16EA else 0xA06C_0B5D
  }

  function Row3(i: bv8): bv32 {
    if i == 0x30 then 0xD432_6D90 else if i == 0x31 then 0xD0F3_7027
    else if i == 0x32 then 0xDDB0_56FE else if i == 0x33 then 0xD971_4B49
    else if i == 0x34 then 0xC736_1B4C else if i == 0x35 then 0xC3F7_06FB
    else if i == 0x36 then 0xCEB4_2022 else if i == 0x37 then 0xCA75_3D95
    else if i == 0x38 then 0xF23A_8028 else if i == 0x39 then 0xF6FB_9D9F
    else if i == 0x3A then 0xFBB8_BB46 else if i == 0x3B then 0xFF79_A6F1
    else if i == 0x3C then 0xE13E_F6F4 else if i == 0x3D then 0xE5FF_EB43
    else if i == 0x3E then 0xE8BC_CD9A else 0xEC7D_D02D
  }

  function Row4(i: bv8): bv32 {
    if i == 0x40 then 0x3486_7077 else if i == 0x41 then 0x3047_6DC0
    else if i == 0x42 then 0x3D04_4B19 else if i == 0x43 then 0x39C5_56AE
    else if i == 0x44 then 0x2782_06AB else if i == 0x45 then 0x2343_1B1C
    else if i == 0x46 then 0x2E00_3DC5 else if i == 0x47 then 0x2AC1_2072
    else if i == 0x48 then 0x128E_9DCF else if i == 0x49 then 0x164F_8078
    else if i == 0x4A then 0x1B0C_A6A1 else if i == 0x4B then 0x1FCD_BB16
    else if i == 0x4C then 0x018A_EB13 else if i == 0x4D then 0x054B_F6A4
    else if i == 0x4E then 0x0808_D07D else 0x0CC9_CDCA
  }

  function Row5(i: bv8): bv32 {
    if i == 0x50 then 0x7897_AB07 else if i == 0x51 then 0x7C56_B6B0
    else if i == 0x52 then 0x7115_9069 else if i == 0x53 then 0x75D4_8DDE
    else if i == 0x54 then 0x6B93_DDDB else if i == 0x55 then 0x6F52_C06C
    else if i == 0x56 then 0x6211_E6B5 else if i == 0x57 then 0x66D0_FB02
    else if i == 0x58 then 0x5E9F_46BF else if i == 0x59 then 0x5A5E_5B08
    else if i == 0x5A then 0x571D_7DD1 else if i == 0x5B then 0x53DC_6066
    else if i == 0x5C then 0x4D9B_3063 else if i == 0x5D then 0x495A_2DD4
    else if i == 0x5E then 0x4419_0B0D else 0x40D8_16BA
  }

  function Row6(i: bv8): bv32 {
    if i == 0x60 then 0xACA5_C697 else if i == 0x61 then 0xA864_DB20
    else if i == 0x62 then 0xA527_FDF9 else if i == 0x63 then 0xA1E6_E04E
    else if i == 0x64 then 0xBFA1_B04B else if i == 0x65 then 0xBB60_ADFC
    else if i == 0x66 then 0xB623_8B25 else if i == 0x67 then 0xB2E2_9692
    else if i == 0x68 then 0x8AAD_2B2F else if i == 0x69 then 0x8E6C_3698
    else if i == 0x6A then 0x832F_1041 else if i == 0x6B then 0x87EE_0DF6
    else if i == 0x6C then 0x99A9_5DF3 else if i == 0x6D then 0x9D68_4044
    else if i == 0x6E then 0x902B_669D else 0x94EA_7B2A
  }

  function Row7(i: bv8): bv32 {
    if i == 0x70 then 0xE0B4_1DE7 else if i == 0x71 then 0xE475_0050
    else if i == 0x72 then 0xE936_2689 else if i == 0x73 then 0xEDF7_3B3E
    else if i == 0x74 then 0xF3B0_6B3B else if i == 0x75 then 0xF771_768C
    else if i == 0x76 then 0xFA32_5055 else if i == 0x77 then 0xFEF3_4DE2
    else if i == 0x78 then 0xC6BC_F05F else if i == 0x79 then 0xC27D_EDE8
    else if i == 0x7A then 0xCF3E_CB31 else if i == 0x7B then 0xCBFF_D686
    else if i == 0x7C then 0xD5B8_8683 else if i == 0x7D then 0xD179_9B34
    else if i == 0x7E then 0xDC3A_BDED else 0xD8FB_A05A
  }

  function Row8(i: bv8): bv32 {
    if i == 0x80 then 0x690C_E0EE else if i == 0x81 then 0x6DCD_FD59
    else if i == 0x82 then 0x608E_DB80 else if i == 0x83 then 0x644F_C637
    else if i == 0x84 then 0x7A08_9632 else if i == 0x85 then 0x7EC9_8B85
    else if i == 0x86 then 0x738A_AD5C else if i == 0x87 then 0x774B_B0EB
    else if i == 0x88 then 0x4F04_0D56 else if i == 0x89 then 0x4BC5_10E1
    else if i == 0x8A then 0x4686_3638 else if i == 0x8B then 0x4247_2B8F
    else if i == 0x8C then 0x5C00_7B8A else if i == 0x8D then 0x58C1_663D
    else if i == 0x8E then 0x5582_40E4 else 0x5143_5D53
  }

  function Row9(i: bv8): bv32 {
    if i == 0x90 then 0x251D_3B9E else if i == 0x91 then 0x21DC_2629
    else if i == 0x92 then 0x2C9F_00F0 else if i == 0x93 then 0x285E_1D47
    else if i == 0x94 then 0x3619_4D42 else if i == 0x95 then 0x32D8_50F5
    else if i == 0x96 then 0x3F9B_762C else if i == 0x97 then 0x3B5A_6B9B
    else if i == 0x98 then 0x0315_D626 else if i == 0x99 then 0x07D4_CB91
    else if i == 0x9A then 0x0A97_ED48 else if i == 0x9B then 0x0E56_F0FF
    else if i == 0x9C then 0x1011_A0FA else if i == 0x9D then 0x14D0_BD4D
    else if i == 0x9E then 0x1993_9B94 else 0x1D52_8623
  }

  function RowA(i: bv8): bv32 {
    if i == 0xA0 then 0xF12F_560E else if i == 0xA1 then 0xF5EE_4BB9
    else if i == 0xA2 then 0xF8AD_6D60 else if i == 0xA3 then 0xFC6C_70D7
    else if i == 0xA4 then 0xE22B_20D2 else if i == 0xA5 then 0xE6EA_3D65
    else if i == 0xA6 then 0xEBA9_1BBC else if i == 0xA7 then 0xEF68_060B
    else if i == 0xA8 then 0xD727_BBB6 else if i == 0xA9 then 0xD3E6_A601
    else if i == 0xAA then 0xDEA5_80D8 else if i == 0xAB then 0xDA64_9D6F
    else if i == 0xAC then 0xC423_CD6A else if i == 0xAD then 0xC0E2_D0DD
    else if i == 0xAE then 0xCDA1_F604 else 0xC960_EBB3
  }

  function RowB(i: bv8): bv32 {
    if i == 0xB0 then 0xBD3E_8D7E else if i == 0xB1 then 0xB9FF_90C9
    else if i == 0xB2 then 0xB4BC_B610 else if i == 0xB3 then 0xB07D_ABA7
    else if i == 0xB4 then 0xAE3A_FBA2 else if i == 0xB5 then 0xAAFB_E615
    else if i == 0xB6 then 0xA7B8_C0CC else if i == 0xB7 then 0xA379_DD7B
    else if i == 0xB8 then 0x9B36_60C6 else if i == 0xB9 then 0x9FF7_7D71
    else if i == 0xBA then 0x92B4_5BA8 else if i == 0xBB then 0x9675_461F
    else if i == 0xBC then 0x8832_161A else if i == 0xBD then 0x8CF3_0BAD
    else if i == 0xBE then 0x81B0_2D74 else 0x8571_30C3
  }

  function RowC(i: bv8): bv32 {
    if i == 0xC0 then 0x5D8A_9099 else if i == 0xC1 then 0x594B_8D2E
    else if i == 0xC2 then 0x5408_ABF7 else if i == 0xC3 then 0x50C9_B640
    else if i == 0xC4 then 0x4E8E_E645 else if i == 0xC5 then 0x4A4F_FBF2
    else if i == 0xC6 then 0x470C_DD2B else if i == 0xC7 then 0x43CD_C09C
    else if i == 0xC8 then 0x7B82_7D21 else if i == 0xC9 then 0x7F43_6096
    else if i == 0xCA then 0x7200_464F else if i == 0xCB then 0x76C1_5BF8
    else if i == 0xCC then 0x6886_0BFD else if i == 0xCD then 0x6C47_164A
    else if i == 0xCE then 0x6104_3093 else 0x65C5_2D24
  }

  function RowD(i: bv8): bv32 {
    if i == 0xD0 then 0x119B_4BE9 else if i == 0xD1 then 0x155A_565E
    else if i == 0xD2 then 0x1819_7087 else if i == 0xD3 then 0x1CD8_6D30
    else if i == 0xD4 then 0x029F_3D35 else if i == 0xD5 then 0x065E_2082
    else if i == 0xD6 then 0x0B1D_065B else if i == 0xD7 then 0x0FDC_1BEC
    else if i == 0xD8 then 0x3793_A651 else if i == 0xD9 then 0x3352_BBE6
    else if i == 0xDA then 0x3E11_9D3F else if i == 0xDB then 0x3AD0_8088
    else if i == 0xDC then 0x2497_D08D else if i == 0xDD then 0x2056_CD3A
    else if i == 0xDE then 0x2D15_EBE3 else 0x29D4_F654
  }

  function RowE(i: bv8): bv32 {
    if i == 0xE0 then 0xC5A9_2679 else if i == 0xE1 then 0xC168_3BCE
    else if i == 0xE2 then 0xCC2B_1D17 else if i == 0xE3 then 0xC8EA_00A0
    else if i == 0xE4 then 0xD6AD_50A5 else if i == 0xE5 then 0xD26C_4D12
    else if i == 0xE6 then 0xDF2F_6BCB else if i == 0xE7 then 0xDBEE_767C
    else if i == 0xE8 then 0xE3A1_CBC1 else if i == 0xE9 then 0xE760_D676
    else if i == 0xEA then 0xEA23_F0AF else if i == 0xEB then 0xEEE2_ED18
    else if i == 0xEC then 0xF0A5_BD1D else if i == 0xED then 0xF464_A0AA
    else if i == 0xEE then 0xF927_8673 else 0xFDE6_9BC4
  }

  function RowF(i: bv8): bv32 {
    if i == 0xF0 then 0x89B8_FD09 else if i == 0xF1 then 0x8D79_E0BE
    else if i == 0xF2 then 0x803A_C667 else if i == 0xF3 then 0x84FB_DBD0
    else if i == 0xF4 then 0x9ABC_8BD5 else if i == 0xF5 then 0x9E7D_9662
    else if i == 0xF6 then 0x933E_B0BB else if i == 0xF7 then 0x97FF_AD0C
    else if i == 0xF8 then 0xAFB0_10B1 else if i == 0xF9 then 0xAB71_0D06
    else if i == 0xFA then 0xA632_2BDF else if i == 0xFB then 0xA2F3_3668
    else if i == 0xFC then 0xBCB4_666D else if i == 0xFD then 0xB875_7BDA
    else if i == 0xFE then 0xB536_5D03 else 0xB1F7_40B4
  }

  predicate Top(r: bv32) { r & 0x8000_0000 != 0 }

  function Double(r: bv32): bv32 { r << 1 }

  function Xor(a: bv32, b: bv32): bv32 { a ^ b }

  const G: bv32 := 0x04C1_1DB7

  /** Multiplication by x modulo the generator x^32 + G. */
  function Times(r: bv32): bv32 {
    Reduce(Top(r), Double(r))
  }

  /** Subtracts the generator if it divides. */
  function Reduce(carry: bool, r: bv32): bv32 {
    if carry then Xor(r, G) else r
  }

  function Times4(r: bv32): bv32 { Times(Times(Times(Times(r)))) }

  function Times8(r: bv32): bv32 { Times4(Times4(r)) }

  lemma Row0Holds(i: bv8)
    requires i < 0x10
    ensures Row0(i) == Times8((i as bv32) << 24)
  {}

  lemma Row1Holds(i: bv8)
    requires 0x10 <= i && i < 0x20
    ensures Row1(i) == Times8((i as bv32) << 24)
  {}

  lemma Row2Holds(i: bv8)
    requires 0x20 <= i && i < 0x30
    ensures Row2(i) == Times8((i as bv32) << 24)
  {}

  lemma Row3Holds(i: bv8)
    requires 0x30 <= i && i < 0x40
    ensures Row3(i) == Times8((i as bv32) << 24)
  {}

  lemma Row4Holds(i: bv8)
    requires 0x40 <= i && i < 0x50
    ensures Row4(i) == Times8((i as bv32) << 24)
  {}

  lemma Row5Holds(i: bv8)
    requires 0x50 <= i && i < 0x60
    ensures Row5(i) == Times8((i as bv32) << 24)
  {}

  lemma Row6Holds(i: bv8)
    requires 0x60 <= i && i < 0x70
    ensures Row6(i) == Times8((i as bv32) << 24)
  {}

  lemma Row7Holds(i: bv8)
    requires 0x70 <= i && i < 0x80
    ensures Row7(i) == Times8((i as bv32) << 24)
  {}

  lemma Row8Holds(i: bv8)
    requires 0x80 <= i && i < 0x90
    ensures Row8(i) == Times8((i as bv32) << 24)
  {}

  lemma Row9Holds(i: bv8)
    requires 0x90 <= i && i < 0xA0
    ensures Row9(i) == Times8((i as bv32) << 24)
  {}

  lemma RowAHolds(i: bv8)
    requires 0xA0 <= i && i < 0xB0
    ensures RowA(i) == Times8((i as bv32) << 24)
  {}

  lemma RowBHolds(i: bv8)
    requires 0xB0 <= i && i < 0xC0
    ensures RowB(i) == Times8((i as bv32) << 24)
  {}

  lemma RowCHolds(i: bv8)
    requires 0xC0 <= i && i < 0xD0
    ensures RowC(i) == Times8((i as bv32) << 24)
  {}

  lemma RowDHolds(i: bv8)
    requires 0xD0 <= i && i < 0xE0
    ensures RowD(i) == Times8((i as bv32) << 24)
  {}

  lemma RowEHolds(i: bv8)
    requires 0xE0 <= i && i < 0xF0
    ensures RowE(i) == Times8((i as bv32) << 24)
  {}

  lemma RowFHolds(i: bv8)
    requires 0xF0 <= i
    ensures RowF(i) == Times8((i as bv32) << 24)
  {}

}
