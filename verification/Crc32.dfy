/**
 * The CRC of MPEG-2 sections (ISO/IEC 13818-1, Annex A): the byte-at-a-time table loop against
 * division by the generator polynomial one bit at a time.
 */
module Crc32 {
  import opened Bytes

  const POLY: bv32 := 0x04c1_1db7
  const INIT: bv32 := 0xffff_ffff

  function Xor(a: bv32, b: bv32): bv32 { a ^ b }

  function Double(a: bv32): bv32 { a << 1 }

  predicate Top(a: bv32) { a & 0x8000_0000 != 0 }

  /** One message bit enters the register: shift, and subtract the generator when a bit falls out. */
  function Feed(crc: bv32, bit: bool): bv32
  {
    if Top(crc) != bit then Xor(Double(crc), POLY) else Double(crc)
  }

  /** The top n bits of y enter the register, most significant first. */
  function FeedTop(crc: bv32, y: bv32, n: nat): bv32
    decreases n
  {
    if n == 0 then crc else FeedTop(Feed(crc, Top(y)), Double(y), n - 1)
  }

  function FeedByte(crc: bv32, b: bv8): bv32
  {
    FeedTop(crc, (b as bv32) << 24, 8)
  }

  function Octet(x: u8): bv8 { x as bv8 }

  /** The register after dividing a whole message, bit by bit. */
  function Divide(crc: bv32, s: bytes): bv32
    decreases |s|
  {
    if s == [] then crc else Divide(FeedByte(crc, Octet(s[0])), s[1..])
  }

  // ---------- the table ----------

  /** One step of a register that gets no more message. */
  function Shift(x: bv32): bv32 { if Top(x) then Xor(Double(x), POLY) else Double(x) }

  function Shift8(x: bv32): bv32 { Shift(Shift(Shift(Shift(Shift(Shift(Shift(Shift(x)))))))) }

  function Row0(j: bv8): (r: bv32)
    requires j >> 4 == 0
    ensures r == Shift8((j as bv32) << 24)
  {
    match j
    case 0x00 => 0x0000_0000 case 0x01 => 0x04c1_1db7 case 0x02 => 0x0982_3b6e case 0x03 => 0x0d43_26d9
    case 0x04 => 0x1304_76dc case 0x05 => 0x17c5_6b6b case 0x06 => 0x1a86_4db2 case 0x07 => 0x1e47_5005
    case 0x08 => 0x2608_edb8 case 0x09 => 0x22c9_f00f case 0x0a => 0x2f8a_d6d6 case 0x0b => 0x2b4b_cb61
    case 0x0c => 0x350c_9b64 case 0x0d => 0x31cd_86d3 case 0x0e => 0x3c8e_a00a case _ => 0x384f_bdbd
  }

  function Row1(j: bv8): (r: bv32)
    requires j >> 4 == 1
    ensures r == Shift8((j as bv32) << 24)
  {
    match j
    case 0x10 => 0x4c11_db70 case 0x11 => 0x48d0_c6c7 case 0x12 => 0x4593_e01e case 0x13 => 0x4152_fda9
    case 0x14 => 0x5f15_adac case 0x15 => 0x5bd4_b01b case 0x16 => 0x5697_96c2 case 0x17 => 0x5256_8b75
    case 0x18 => 0x6a19_36c8 case 0x19 => 0x6ed8_2b7f case 0x1a => 0x639b_0da6 case 0x1b => 0x675a_1011
    case 0x1c => 0x791d_4014 case 0x1d => 0x7ddc_5da3 case 0x1e => 0x709f_7b7a case _ => 0x745e_66cd
  }

  function Row2(j: bv8): (r: bv32)
    requires j >> 4 == 2
    ensures r == Shift8((j as bv32) << 24)
  {
    match j
    case 0x20 => 0x9823_b6e0 case 0x21 => 0x9ce2_ab57 case 0x22 => 0x91a1_8d8e case 0x23 => 0x9560_9039
    case 0x24 => 0x8b27_c03c case 0x25 => 0x8fe6_dd8b case 0x26 => 0x82a5_fb52 case 0x27 => 0x8664_e6e5
    case 0x28 => 0xbe2b_5b58 case 0x29 => 0xbaea_46ef case 0x2a => 0xb7a9_6036 case 0x2b => 0xb368_7d81
    case 0x2c => 0xad2f_2d84 case 0x2d => 0xa9ee_3033 case 0x2e => 0xa4ad_16ea case _ => 0xa06c_0b5d
  }

  function Row3(j: bv8): (r: bv32)
    requires j >> 4 == 3
    ensures r == Shift8((j as bv32) << 24)
  {
    match j
    case 0x30 => 0xd432_6d90 case 0x31 => 0xd0f3_7027 case 0x32 => 0xddb0_56fe case 0x33 => 0xd971_4b49
    case 0x34 => 0xc736_1b4c case 0x35 => 0xc3f7_06fb case 0x36 => 0xceb4_2022 case 0x37 => 0xca75_3d95
    case 0x38 => 0xf23a_8028 case 0x39 => 0xf6fb_9d9f case 0x3a => 0xfbb8_bb46 case 0x3b => 0xff79_a6f1
    case 0x3c => 0xe13e_f6f4 case 0x3d => 0xe5ff_eb43 case 0x3e => 0xe8bc_cd9a case _ => 0xec7d_d02d
  }

  function Row4(j: bv8): (r: bv32)
    requires j >> 4 == 4
    ensures r == Shift8((j as bv32) << 24)
  {
    match j
    case 0x40 => 0x3486_7077 case 0x41 => 0x3047_6dc0 case 0x42 => 0x3d04_4b19 case 0x43 => 0x39c5_56ae
    case 0x44 => 0x2782_06ab case 0x45 => 0x2343_1b1c case 0x46 => 0x2e00_3dc5 case 0x47 => 0x2ac1_2072
    case 0x48 => 0x128e_9dcf case 0x49 => 0x164f_8078 case 0x4a => 0x1b0c_a6a1 case 0x4b => 0x1fcd_bb16
    case 0x4c => 0x018a_eb13 case 0x4d => 0x054b_f6a4 case 0x4e => 0x0808_d07d case _ => 0x0cc9_cdca
  }

  function Row5(j: bv8): (r: bv32)
    requires j >> 4 == 5
    ensures r == Shift8((j as bv32) << 24)
  {
    match j
    case 0x50 => 0x7897_ab07 case 0x51 => 0x7c56_b6b0 case 0x52 => 0x7115_9069 case 0x53 => 0x75d4_8dde
    case 0x54 => 0x6b93_dddb case 0x55 => 0x6f52_c06c case 0x56 => 0x6211_e6b5 case 0x57 => 0x66d0_fb02
    case 0x58 => 0x5e9f_46bf case 0x59 => 0x5a5e_5b08 case 0x5a => 0x571d_7dd1 case 0x5b => 0x53dc_6066
    case 0x5c => 0x4d9b_3063 case 0x5d => 0x495a_2dd4 case 0x5e => 0x4419_0b0d case _ => 0x40d8_16ba
  }

  function Row6(j: bv8): (r: bv32)
    requires j >> 4 == 6
    ensures r == Shift8((j as bv32) << 24)
  {
    match j
    case 0x60 => 0xaca5_c697 case 0x61 => 0xa864_db20 case 0x62 => 0xa527_fdf9 case 0x63 => 0xa1e6_e04e
    case 0x64 => 0xbfa1_b04b case 0x65 => 0xbb60_adfc case 0x66 => 0xb623_8b25 case 0x67 => 0xb2e2_9692
    case 0x68 => 0x8aad_2b2f case 0x69 => 0x8e6c_3698 case 0x6a => 0x832f_1041 case 0x6b => 0x87ee_0df6
    case 0x6c => 0x99a9_5df3 case 0x6d => 0x9d68_4044 case 0x6e => 0x902b_669d case _ => 0x94ea_7b2a
  }

  function Row7(j: bv8): (r: bv32)
    requires j >> 4 == 7
    ensures r == Shift8((j as bv32) << 24)
  {
    match j
    case 0x70 => 0xe0b4_1de7 case 0x71 => 0xe475_0050 case 0x72 => 0xe936_2689 case 0x73 => 0xedf7_3b3e
    case 0x74 => 0xf3b0_6b3b case 0x75 => 0xf771_768c case 0x76 => 0xfa32_5055 case 0x77 => 0xfef3_4de2
    case 0x78 => 0xc6bc_f05f case 0x79 => 0xc27d_ede8 case 0x7a => 0xcf3e_cb31 case 0x7b => 0xcbff_d686
    case 0x7c => 0xd5b8_8683 case 0x7d => 0xd179_9b34 case 0x7e => 0xdc3a_bded case _ => 0xd8fb_a05a
  }

  function Row8(j: bv8): (r: bv32)
    requires j >> 4 == 8
    ensures r == Shift8((j as bv32) << 24)
  {
    match j
    case 0x80 => 0x690c_e0ee case 0x81 => 0x6dcd_fd59 case 0x82 => 0x608e_db80 case 0x83 => 0x644f_c637
    case 0x84 => 0x7a08_9632 case 0x85 => 0x7ec9_8b85 case 0x86 => 0x738a_ad5c case 0x87 => 0x774b_b0eb
    case 0x88 => 0x4f04_0d56 case 0x89 => 0x4bc5_10e1 case 0x8a => 0x4686_3638 case 0x8b => 0x4247_2b8f
    case 0x8c => 0x5c00_7b8a case 0x8d => 0x58c1_663d case 0x8e => 0x5582_40e4 case _ => 0x5143_5d53
  }

  function Row9(j: bv8): (r: bv32)
    requires j >> 4 == 9
    ensures r == Shift8((j as bv32) << 24)
  {
    match j
    case 0x90 => 0x251d_3b9e case 0x91 => 0x21dc_2629 case 0x92 => 0x2c9f_00f0 case 0x93 => 0x285e_1d47
    case 0x94 => 0x3619_4d42 case 0x95 => 0x32d8_50f5 case 0x96 => 0x3f9b_762c case 0x97 => 0x3b5a_6b9b
    case 0x98 => 0x0315_d626 case 0x99 => 0x07d4_cb91 case 0x9a => 0x0a97_ed48 case 0x9b => 0x0e56_f0ff
    case 0x9c => 0x1011_a0fa case 0x9d => 0x14d0_bd4d case 0x9e => 0x1993_9b94 case _ => 0x1d52_8623
  }

  function Row10(j: bv8): (r: bv32)
    requires j >> 4 == 10
    ensures r == Shift8((j as bv32) << 24)
  {
    match j
    case 0xa0 => 0xf12f_560e case 0xa1 => 0xf5ee_4bb9 case 0xa2 => 0xf8ad_6d60 case 0xa3 => 0xfc6c_70d7
    case 0xa4 => 0xe22b_20d2 case 0xa5 => 0xe6ea_3d65 case 0xa6 => 0xeba9_1bbc case 0xa7 => 0xef68_060b
    case 0xa8 => 0xd727_bbb6 case 0xa9 => 0xd3e6_a601 case 0xaa => 0xdea5_80d8 case 0xab => 0xda64_9d6f
    case 0xac => 0xc423_cd6a case 0xad => 0xc0e2_d0dd case 0xae => 0xcda1_f604 case _ => 0xc960_ebb3
  }

  function Row11(j: bv8): (r: bv32)
    requires j >> 4 == 11
    ensures r == Shift8((j as bv32) << 24)
  {
    match j
    case 0xb0 => 0xbd3e_8d7e case 0xb1 => 0xb9ff_90c9 case 0xb2 => 0xb4bc_b610 case 0xb3 => 0xb07d_aba7
    case 0xb4 => 0xae3a_fba2 case 0xb5 => 0xaafb_e615 case 0xb6 => 0xa7b8_c0cc case 0xb7 => 0xa379_dd7b
    case 0xb8 => 0x9b36_60c6 case 0xb9 => 0x9ff7_7d71 case 0xba => 0x92b4_5ba8 case 0xbb => 0x9675_461f
    case 0xbc => 0x8832_161a case 0xbd => 0x8cf3_0bad case 0xbe => 0x81b0_2d74 case _ => 0x8571_30c3
  }

  function Row12(j: bv8): (r: bv32)
    requires j >> 4 == 12
    ensures r == Shift8((j as bv32) << 24)
  {
    match j
    case 0xc0 => 0x5d8a_9099 case 0xc1 => 0x594b_8d2e case 0xc2 => 0x5408_abf7 case 0xc3 => 0x50c9_b640
    case 0xc4 => 0x4e8e_e645 case 0xc5 => 0x4a4f_fbf2 case 0xc6 => 0x470c_dd2b case 0xc7 => 0x43cd_c09c
    case 0xc8 => 0x7b82_7d21 case 0xc9 => 0x7f43_6096 case 0xca => 0x7200_464f case 0xcb => 0x76c1_5bf8
    case 0xcc => 0x6886_0bfd case 0xcd => 0x6c47_164a case 0xce => 0x6104_3093 case _ => 0x65c5_2d24
  }

  function Row13(j: bv8): (r: bv32)
    requires j >> 4 == 13
    ensures r == Shift8((j as bv32) << 24)
  {
    match j
    case 0xd0 => 0x119b_4be9 case 0xd1 => 0x155a_565e case 0xd2 => 0x1819_7087 case 0xd3 => 0x1cd8_6d30
    case 0xd4 => 0x029f_3d35 case 0xd5 => 0x065e_2082 case 0xd6 => 0x0b1d_065b case 0xd7 => 0x0fdc_1bec
    case 0xd8 => 0x3793_a651 case 0xd9 => 0x3352_bbe6 case 0xda => 0x3e11_9d3f case 0xdb => 0x3ad0_8088
    case 0xdc => 0x2497_d08d case 0xdd => 0x2056_cd3a case 0xde => 0x2d15_ebe3 case _ => 0x29d4_f654
  }

  function Row14(j: bv8): (r: bv32)
    requires j >> 4 == 14
    ensures r == Shift8((j as bv32) << 24)
  {
    match j
    case 0xe0 => 0xc5a9_2679 case 0xe1 => 0xc168_3bce case 0xe2 => 0xcc2b_1d17 case 0xe3 => 0xc8ea_00a0
    case 0xe4 => 0xd6ad_50a5 case 0xe5 => 0xd26c_4d12 case 0xe6 => 0xdf2f_6bcb case 0xe7 => 0xdbee_767c
    case 0xe8 => 0xe3a1_cbc1 case 0xe9 => 0xe760_d676 case 0xea => 0xea23_f0af case 0xeb => 0xeee2_ed18
    case 0xec => 0xf0a5_bd1d case 0xed => 0xf464_a0aa case 0xee => 0xf927_8673 case _ => 0xfde6_9bc4
  }

  function Row15(j: bv8): (r: bv32)
    requires j >> 4 == 15
    ensures r == Shift8((j as bv32) << 24)
  {
    match j
    case 0xf0 => 0x89b8_fd09 case 0xf1 => 0x8d79_e0be case 0xf2 => 0x803a_c667 case 0xf3 => 0x84fb_dbd0
    case 0xf4 => 0x9abc_8bd5 case 0xf5 => 0x9e7d_9662 case 0xf6 => 0x933e_b0bb case 0xf7 => 0x97ff_ad0c
    case 0xf8 => 0xafb0_10b1 case 0xf9 => 0xab71_0d06 case 0xfa => 0xa632_2bdf case 0xfb => 0xa2f3_3668
    case 0xfc => 0xbcb4_666d case 0xfd => 0xb875_7bda case 0xfe => 0xb536_5d03 case _ => 0xb1f7_40b4
  }

  /** Entry j of the table is what the byte j does to an empty register. */
  function Entry(j: bv8): (r: bv32)
    ensures r == Shift8((j as bv32) << 24)
  {
    if j >> 4 == 0 then Row0(j)
    else if j >> 4 == 1 then Row1(j)
    else if j >> 4 == 2 then Row2(j)
    else if j >> 4 == 3 then Row3(j)
    else if j >> 4 == 4 then Row4(j)
    else if j >> 4 == 5 then Row5(j)
    else if j >> 4 == 6 then Row6(j)
    else if j >> 4 == 7 then Row7(j)
    else if j >> 4 == 8 then Row8(j)
    else if j >> 4 == 9 then Row9(j)
    else if j >> 4 == 10 then Row10(j)
    else if j >> 4 == 11 then Row11(j)
    else if j >> 4 == 12 then Row12(j)
    else if j >> 4 == 13 then Row13(j)
    else if j >> 4 == 14 then Row14(j)
    else Row15(j)
  }

  // ---------- the register's algebra, over words combined by Xor ----------

  lemma XorAssoc(a: bv32, b: bv32, c: bv32)
    ensures Xor(a, Xor(b, c)) == Xor(Xor(a, b), c)
  {
  }

  lemma XorSelf(a: bv32)
    ensures Xor(a, a) == 0
  {
  }

  lemma XorLaws(a: bv32, b: bv32, c: bv32)
    ensures Xor(Xor(a, c), Xor(b, c)) == Xor(a, b)
    ensures Xor(Xor(a, c), b) == Xor(Xor(a, b), c)
    ensures Xor(a, Xor(b, c)) == Xor(Xor(a, b), c)
  {
    hide Xor;
    XorAssoc(a, b, c);
    XorCommutes(b, c);
    XorAssoc(a, c, b);
    XorAssoc(Xor(a, c), c, b);
    XorAssoc(a, c, c);
    XorSelf(c);
    XorZero(a);
  }

  lemma DoubleLinear(a: bv32, b: bv32)
    ensures Double(Xor(a, b)) == Xor(Double(a), Double(b))
  {
  }

  lemma TopLinear(a: bv32, b: bv32)
    ensures Top(Xor(a, b)) == (Top(a) != Top(b))
  {
  }

  lemma ShiftLinear(a: bv32, b: bv32)
    ensures Shift(Xor(a, b)) == Xor(Shift(a), Shift(b))
  {
    DoubleLinear(a, b);
    TopLinear(a, b);
    XorLaws(Double(a), Double(b), POLY);
    hide Xor, Double, Top;
  }

  lemma FeedOne(crc: bv32, y: bv32)
    ensures Xor(Feed(crc, Top(y)), Double(y)) == Shift(Xor(crc, y))
  {
    DoubleLinear(crc, y);
    TopLinear(crc, y);
    XorLaws(Double(crc), Double(y), POLY);
    hide Xor, Double, Top;
  }

  function DoubleN(y: bv32, n: nat): bv32
    decreases n
  {
    if n == 0 then y else DoubleN(Double(y), n - 1)
  }

  function ShiftN(x: bv32, n: nat): bv32
    decreases n
  {
    if n == 0 then x else ShiftN(Shift(x), n - 1)
  }

  /** Feeding bits is shifting the register with the bits added at its top. */
  lemma {:induction false} FeedIsShift(crc: bv32, y: bv32, n: nat)
    ensures Xor(FeedTop(crc, y, n), DoubleN(y, n)) == ShiftN(Xor(crc, y), n)
    decreases n
  {
    hide Xor, Double, Top, Feed, Shift;
    if n > 0 {
      FeedOne(crc, y);
      FeedIsShift(Feed(crc, Top(y)), Double(y), n - 1);
    }
  }

  lemma {:induction false} ShiftNLinear(a: bv32, b: bv32, n: nat)
    ensures ShiftN(Xor(a, b), n) == Xor(ShiftN(a, n), ShiftN(b, n))
    decreases n
  {
    hide Xor, Double, Top, Shift;
    if n > 0 {
      ShiftLinear(a, b);
      ShiftNLinear(Shift(a), Shift(b), n - 1);
    }
  }

  lemma EightShifts(x: bv32)
    ensures ShiftN(x, 8) == Shift8(x)
  {
    hide Shift;
    assert ShiftN(x, 8) == ShiftN(Shift(Shift(x)), 6);
    assert ShiftN(Shift(Shift(x)), 6) == ShiftN(Shift(Shift(Shift(Shift(x)))), 4);
    var y := Shift(Shift(Shift(Shift(x))));
    assert ShiftN(y, 4) == ShiftN(Shift(Shift(y)), 2);
  }

  lemma EightDoubles(x: bv32)
    ensures DoubleN(x, 8) == x << 8
  {
    hide Double;
    FourDoubles(x, 4);
    FourDoubles(Double4(x), 0);
    EightBits(x);
  }

  lemma FourDoubles(x: bv32, n: nat)
    ensures DoubleN(x, n + 4) == DoubleN(Double4(x), n)
  {
    hide Double;
    assert DoubleN(x, n + 4) == DoubleN(Double(Double(x)), n + 2);
  }

  lemma ShiftLow(x: bv32)
    requires x <= 0x7fff_ffff
    ensures Shift(x) == Double(x)
  {
  }

  function Double4(x: bv32): bv32 { Double(Double(Double(Double(x)))) }

  lemma LowDoubles(x: bv32)
    requires x <= 0xff_ffff
    ensures Double(x) <= 0x7fff_ffff
    ensures Double(Double(x)) <= 0x7fff_ffff
    ensures Double(Double(Double(x))) <= 0x7fff_ffff
    ensures Double(Double(Double(Double(x)))) <= 0x7fff_ffff
    ensures Double(Double(Double(Double(Double(x))))) <= 0x7fff_ffff
    ensures Double(Double(Double(Double(Double(Double(x)))))) <= 0x7fff_ffff
    ensures Double(Double(Double(Double(Double(Double(Double(x))))))) <= 0x7fff_ffff
  {
  }

  /** The low 24 bits never reach the top in eight steps. */
  lemma LowBits(x: bv32)
    requires x <= 0xff_ffff
    ensures Shift8(x) == Double4(Double4(x))
  {
    LowDoubles(x);
    hide Shift, Double;
    var y1 := Double(x);
    var y2 := Double(y1);
    var y3 := Double(y2);
    var y4 := Double(y3);
    var y5 := Double(y4);
    var y6 := Double(y5);
    var y7 := Double(y6);
    ShiftLow(x); ShiftLow(y1); ShiftLow(y2); ShiftLow(y3);
    ShiftLow(y4); ShiftLow(y5); ShiftLow(y6); ShiftLow(y7);
  }

  lemma EightBits(x: bv32)
    ensures Double4(Double4(x)) == x << 8
  {
  }

  /** A word splits into its top byte and the rest. */
  lemma Split(crc: bv32, b: bv8)
    ensures var hi := ((((crc >> 24) as bv8) ^ b) as bv32) << 24;
            var lo := crc & 0xff_ffff;
            Xor(crc, (b as bv32) << 24) == Xor(hi, lo) && lo << 8 == crc << 8 && lo <= 0xff_ffff
    ensures ((b as bv32) << 24) << 8 == 0
  {
  }

  lemma XorZero(a: bv32)
    ensures Xor(a, 0) == a
  {
  }

  lemma XorCommutes(a: bv32, b: bv32)
    ensures Xor(a, b) == Xor(b, a)
  {
  }

  /** One table lookup does the work of eight bits. */
  lemma TableStep(crc: bv32, b: bv8)
    ensures FeedByte(crc, b) == Xor(crc << 8, Entry(((crc >> 24) as bv8) ^ b))
  {
    hide Shift8, FeedTop, DoubleN, ShiftN, Xor;
    var y := (b as bv32) << 24;
    var hi, lo := ((((crc >> 24) as bv8) ^ b) as bv32) << 24, crc & 0xff_ffff;
    Split(crc, b);
    LowBits(lo);
    EightBits(lo);
    XorZero(FeedByte(crc, b));
    XorCommutes(Shift8(hi), lo << 8);
    FeedIsShift(crc, y, 8);
    EightDoubles(y);
    EightShifts(lo);
    EightShifts(hi);
    EightShifts(Xor(crc, y));
    ShiftNLinear(hi, lo, 8);
  }

  lemma {:induction false} DivideAppend(crc: bv32, s: bytes, t: bytes)
    ensures Divide(crc, s + t) == Divide(Divide(crc, s), t)
    decreases |s|
  {
    if s == [] {
      assert s + t == t;
    } else {
      DivideAppend(FeedByte(crc, Octet(s[0])), s[1..], t);
      assert (s + t)[1..] == s[1..] + t;
    }
  }

  /** The table-driven loop computes the bitwise division, for every input. */
  method GenCrc32(src: bytes) returns (crc: bv32)
    ensures crc == Divide(INIT, src)
  {
    hide FeedByte, Entry, Xor, Octet;
    crc := INIT;
    for i := 0 to |src|
      invariant crc == Divide(INIT, src[..i])
    {
      var b := Octet(src[i]);
      var j := ((crc >> 24) as bv8) ^ b;
      TableStep(crc, b);
      DivideAppend(INIT, src[..i], [src[i]]);
      assert src[..i + 1] == src[..i] + [src[i]];
      assert Divide(crc, [src[i]]) == FeedByte(crc, b) by { assert [src[i]][1..] == []; }
      crc := Xor(crc << 8, Entry(j));
    }
    assert src[..|src|] == src;
  }

  function TopOf(crc: bv32): bv8 { (crc >> 24) as bv8 }

  function Byte16(crc: bv32): bv8 { ((crc >> 16) & 0xff) as bv8 }

  function Byte8(crc: bv32): bv8 { ((crc >> 8) & 0xff) as bv8 }

  function Byte0(crc: bv32): bv8 { (crc & 0xff) as bv8 }

  /** The register as four bytes, most significant first, as it is written behind a section. */
  function CrcBytes(crc: bv32): (r: bytes)
    ensures |r| == 4
  {
    [TopOf(crc) as int, Byte16(crc) as int, Byte8(crc) as int, Byte0(crc) as int]
  }

  function Shl8(crc: bv32): bv32 { crc << 8 }

  /** A register fed its own top byte loses it. */
  lemma OwnByte(crc: bv32)
    ensures FeedByte(crc, TopOf(crc)) == Shl8(crc)
  {
    TableStep(crc, (crc >> 24) as bv8);
    assert ((crc >> 24) as bv8) ^ ((crc >> 24) as bv8) == 0;
    ZeroEntry();
    XorZero(crc << 8);
  }

  lemma ZeroEntry()
    ensures Entry(0) == 0
  {
  }

  lemma NextBytes(crc: bv32)
    ensures TopOf(Shl8(crc)) == Byte16(crc)
    ensures TopOf(Shl8(Shl8(crc))) == Byte8(crc)
    ensures TopOf(Shl8(Shl8(Shl8(crc)))) == Byte0(crc)
    ensures Shl8(Shl8(Shl8(Shl8(crc)))) == 0
  {
  }

  lemma ByteBack(b: bv8)
    ensures Octet(b as int) == b
  {
  }

  /** Dividing a section together with the check value behind it leaves nothing. */
  lemma ResidueIsZero(s: bytes)
    ensures Divide(INIT, s + CrcBytes(Divide(INIT, s))) == 0
  {
    hide Divide;
    DivideAppend(INIT, s, CrcBytes(Divide(INIT, s)));
    OwnBytes(Divide(INIT, s));
  }

  lemma OwnBytes(c: bv32)
    ensures Divide(c, CrcBytes(c)) == 0
  {
    hide FeedByte, Divide, Octet, TopOf, Byte16, Byte8, Byte0, Shl8;
    NextBytes(c);
    var c1 := Shl8(c);
    var c2 := Shl8(c1);
    var c3 := Shl8(c2);
    FourBytes(c, TopOf(c), TopOf(c1), TopOf(c2), TopOf(c3));
    OwnByte(c); OwnByte(c1); OwnByte(c2); OwnByte(c3);
  }

  lemma FourBytes(c: bv32, b0: bv8, b1: bv8, b2: bv8, b3: bv8)
    ensures Divide(c, [b0 as int, b1 as int, b2 as int, b3 as int]) ==
            FeedByte(FeedByte(FeedByte(FeedByte(c, b0), b1), b2), b3)
  {
    hide FeedByte, Octet, Divide;
    FirstByte(c, b0, [b1 as int, b2 as int, b3 as int]);
    var c1 := FeedByte(c, b0);
    FirstByte(c1, b1, [b2 as int, b3 as int]);
    var c2 := FeedByte(c1, b1);
    FirstByte(c2, b2, [b3 as int]);
    FirstByte(FeedByte(c2, b2), b3, []);
    assert [b3 as int] + [] == [b3 as int] && [b2 as int] + [b3 as int] == [b2 as int, b3 as int];
    assert [b1 as int] + [b2 as int, b3 as int] == [b1 as int, b2 as int, b3 as int];
    assert [b0 as int] + [b1 as int, b2 as int, b3 as int] == [b0 as int, b1 as int, b2 as int, b3 as int];
    NoBytes(FeedByte(FeedByte(c2, b2), b3));
  }

  lemma FirstByte(c: bv32, b: bv8, more: bytes)
    ensures Divide(c, [b as int] + more) == Divide(FeedByte(c, b), more)
  {
    hide FeedByte, Octet;
    ByteBack(b);
    assert ([b as int] + more)[1..] == more;
  }

  lemma NoBytes(c: bv32)
    ensures Divide(c, []) == c
  {
  }

  // ---------- the check value ----------

  /** The register after one byte, by the table. */
  lemma Stepped(crc: bv32, x: u8, next: bv32, more: bytes)
    requires Xor(crc << 8, Entry(((crc >> 24) as bv8) ^ Octet(x))) == next
    ensures Divide(crc, [x] + more) == Divide(next, more)
  {
    hide FeedByte, Entry, Xor, Octet;
    TableStep(crc, Octet(x));
    assert ([x] + more)[1..] == more;
  }

  /** Three bytes, one after the other. */
  lemma ThreeMore(crc: bv32, a: u8, x: bv32, b: u8, y: bv32, c: u8, z: bv32, more: bytes)
    requires Xor(crc << 8, Entry(((crc >> 24) as bv8) ^ Octet(a))) == x
    requires Xor(x << 8, Entry(((x >> 24) as bv8) ^ Octet(b))) == y
    requires Xor(y << 8, Entry(((y >> 24) as bv8) ^ Octet(c))) == z
    ensures Divide(crc, [a, b, c] + more) == Divide(z, more)
  {
    hide Divide, Entry, Xor, Octet;
    Stepped(crc, a, x, [b, c] + more);
    Stepped(x, b, y, [c] + more);
    Stepped(y, c, z, more);
    assert [a, b, c] + more == [a] + ([b, c] + more) && [b, c] + more == [b] + ([c] + more);
  }

  /** The check value of the digits 1 to 9 that catalogues of CRCs list for this one. */
  lemma CheckValue()
    ensures Divide(INIT, [0x31, 0x32, 0x33] + ([0x34, 0x35, 0x36] + [0x37, 0x38, 0x39])) == 0x0376_e6e7
  {
    hide Divide, FeedByte;
    FirstDigits([0x34, 0x35, 0x36] + [0x37, 0x38, 0x39]);
    MiddleDigits([0x37, 0x38, 0x39]);
    assert [0x37, 0x38, 0x39] + [] == [0x37, 0x38, 0x39];
    LastDigits([]);
    NothingLeft();
  }

  lemma FirstDigits(more: bytes)
    ensures Divide(0xffff_ffff, [0x31, 0x32, 0x33] + more) == Divide(0xd952_f164, more)
  {
    hide Divide;
    ThreeMore(0xffff_ffff, 0x31, 0x9efb_cf93, 0x32, 0x3fec_5e6a, 0x33, 0xd952_f164, more);
  }

  lemma MiddleDigits(more: bytes)
    ensures Divide(0xd952_f164, [0x34, 0x35, 0x36] + more) == Divide(0xd8f0_6c8f, more)
  {
    hide Divide;
    ThreeMore(0xd952_f164, 0x34, 0xa695_c4aa, 0x35, 0xbd9a_b747, 0x36, 0xd8f0_6c8f, more);
  }

  lemma LastDigits(more: bytes)
    ensures Divide(0xd8f0_6c8f, [0x37, 0x38, 0x39] + more) == Divide(0x0376_e6e7, more)
  {
    hide Divide;
    ThreeMore(0xd8f0_6c8f, 0x37, 0x0d8a_14c4, 0x38, 0x49e3_c2fb, 0x39, 0x0376_e6e7, more);
  }

  lemma NothingLeft()
    ensures forall c :: Divide(c, []) == c
  {
  }
}
