/** The 256 constants of the CRC table, sixteen to a function, and the proof that
    each is eight steps of the shift register
    (arch/arm/mach-ipq/common.c, tools/sysupgrade.h). */
module CrcTable {
  /** One step of the shift register: division by the generator. */
  function Shift(r: bv32): bv32 {
    if r & 0x8000_0000 != 0 then (r << 1) ^ 0x04C11DB7 else r << 1
  }

  function Shift8(r: bv32): bv32 {
    Shift(Shift(Shift(Shift(Shift(Shift(Shift(Shift(r))))))))
  }

  /** The table lookup. */
  function Table(i: bv32): bv32 {
    if i <= 15 then Row0(i)
    else if i <= 31 then Row1(i)
    else if i <= 47 then Row2(i)
    else if i <= 63 then Row3(i)
    else if i <= 79 then Row4(i)
    else if i <= 95 then Row5(i)
    else if i <= 111 then Row6(i)
    else if i <= 127 then Row7(i)
    else if i <= 143 then Row8(i)
    else if i <= 159 then Row9(i)
    else if i <= 175 then RowA(i)
    else if i <= 191 then RowB(i)
    else if i <= 207 then RowC(i)
    else if i <= 223 then RowD(i)
    else if i <= 239 then RowE(i)
    else RowF(i)
  }

  lemma TableIsShift8(i: bv32)
    requires i <= 255
    ensures Table(i) == Shift8(i << 24)
  {
    if i <= 15 {
      Check0(i);
    } else if i <= 31 {
      Check1(i);
    } else if i <= 47 {
      Check2(i);
    } else if i <= 63 {
      Check3(i);
    } else if i <= 79 {
      Check4(i);
    } else if i <= 95 {
      Check5(i);
    } else if i <= 111 {
      Check6(i);
    } else if i <= 127 {
      Check7(i);
    } else if i <= 143 {
      Check8(i);
    } else if i <= 159 {
      Check9(i);
    } else if i <= 175 {
      CheckA(i);
    } else if i <= 191 {
      CheckB(i);
    } else if i <= 207 {
      CheckC(i);
    } else if i <= 223 {
      CheckD(i);
    } else if i <= 239 {
      CheckE(i);
    } else {
      CheckF(i);
    }
  }

  function Row0(i: bv32): bv32 {
    match i
    case 0x00 => 0x00000000 case 0x01 => 0x04C11DB7 case 0x02 => 0x09823B6E case 0x03 => 0x0D4326D9
    case 0x04 => 0x130476DC case 0x05 => 0x17C56B6B case 0x06 => 0x1A864DB2 case 0x07 => 0x1E475005
    case 0x08 => 0x2608EDB8 case 0x09 => 0x22C9F00F case 0x0A => 0x2F8AD6D6 case 0x0B => 0x2B4BCB61
    case 0x0C => 0x350C9B64 case 0x0D => 0x31CD86D3 case 0x0E => 0x3C8EA00A case _ => 0x384FBDBD
  }

  lemma Check0(i: bv32)
    requires 0x00 <= i <= 0x0F
    ensures Row0(i) == Shift8(i << 24)
  {
    match i
    case 0x00 => case 0x01 => case 0x02 => case 0x03 => case 0x04 => case 0x05 => case 0x06 => case 0x07 =>
    case 0x08 => case 0x09 => case 0x0A => case 0x0B => case 0x0C => case 0x0D => case 0x0E => case _ =>
  }

  function Row1(i: bv32): bv32 {
    match i
    case 0x10 => 0x4C11DB70 case 0x11 => 0x48D0C6C7 case 0x12 => 0x4593E01E case 0x13 => 0x4152FDA9
    case 0x14 => 0x5F15ADAC case 0x15 => 0x5BD4B01B case 0x16 => 0x569796C2 case 0x17 => 0x52568B75
    case 0x18 => 0x6A1936C8 case 0x19 => 0x6ED82B7F case 0x1A => 0x639B0DA6 case 0x1B => 0x675A1011
    case 0x1C => 0x791D4014 case 0x1D => 0x7DDC5DA3 case 0x1E => 0x709F7B7A case _ => 0x745E66CD
  }

  lemma Check1(i: bv32)
    requires 0x10 <= i <= 0x1F
    ensures Row1(i) == Shift8(i << 24)
  {
    match i
    case 0x10 => case 0x11 => case 0x12 => case 0x13 => case 0x14 => case 0x15 => case 0x16 => case 0x17 =>
    case 0x18 => case 0x19 => case 0x1A => case 0x1B => case 0x1C => case 0x1D => case 0x1E => case _ =>
  }

  function Row2(i: bv32): bv32 {
    match i
    case 0x20 => 0x9823B6E0 case 0x21 => 0x9CE2AB57 case 0x22 => 0x91A18D8E case 0x23 => 0x95609039
    case 0x24 => 0x8B27C03C case 0x25 => 0x8FE6DD8B case 0x26 => 0x82A5FB52 case 0x27 => 0x8664E6E5
    case 0x28 => 0xBE2B5B58 case 0x29 => 0xBAEA46EF case 0x2A => 0xB7A96036 case 0x2B => 0xB3687D81
    case 0x2C => 0xAD2F2D84 case 0x2D => 0xA9EE3033 case 0x2E => 0xA4AD16EA case _ => 0xA06C0B5D
  }

  lemma Check2(i: bv32)
    requires 0x20 <= i <= 0x2F
    ensures Row2(i) == Shift8(i << 24)
  {
    match i
    case 0x20 => case 0x21 => case 0x22 => case 0x23 => case 0x24 => case 0x25 => case 0x26 => case 0x27 =>
    case 0x28 => case 0x29 => case 0x2A => case 0x2B => case 0x2C => case 0x2D => case 0x2E => case _ =>
  }

  function Row3(i: bv32): bv32 {
    match i
    case 0x30 => 0xD4326D90 case 0x31 => 0xD0F37027 case 0x32 => 0xDDB056FE case 0x33 => 0xD9714B49
    case 0x34 => 0xC7361B4C case 0x35 => 0xC3F706FB case 0x36 => 0xCEB42022 case 0x37 => 0xCA753D95
    case 0x38 => 0xF23A8028 case 0x39 => 0xF6FB9D9F case 0x3A => 0xFBB8BB46 case 0x3B => 0xFF79A6F1
    case 0x3C => 0xE13EF6F4 case 0x3D => 0xE5FFEB43 case 0x3E => 0xE8BCCD9A case _ => 0xEC7DD02D
  }

  lemma Check3(i: bv32)
    requires 0x30 <= i <= 0x3F
    ensures Row3(i) == Shift8(i << 24)
  {
    match i
    case 0x30 => case 0x31 => case 0x32 => case 0x33 => case 0x34 => case 0x35 => case 0x36 => case 0x37 =>
    case 0x38 => case 0x39 => case 0x3A => case 0x3B => case 0x3C => case 0x3D => case 0x3E => case _ =>
  }

  function Row4(i: bv32): bv32 {
    match i
    case 0x40 => 0x34867077 case 0x41 => 0x30476DC0 case 0x42 => 0x3D044B19 case 0x43 => 0x39C556AE
    case 0x44 => 0x278206AB case 0x45 => 0x23431B1C case 0x46 => 0x2E003DC5 case 0x47 => 0x2AC12072
    case 0x48 => 0x128E9DCF case 0x49 => 0x164F8078 case 0x4A => 0x1B0CA6A1 case 0x4B => 0x1FCDBB16
    case 0x4C => 0x018AEB13 case 0x4D => 0x054BF6A4 case 0x4E => 0x0808D07D case _ => 0x0CC9CDCA
  }

  lemma Check4(i: bv32)
    requires 0x40 <= i <= 0x4F
    ensures Row4(i) == Shift8(i << 24)
  {
    match i
    case 0x40 => case 0x41 => case 0x42 => case 0x43 => case 0x44 => case 0x45 => case 0x46 => case 0x47 =>
    case 0x48 => case 0x49 => case 0x4A => case 0x4B => case 0x4C => case 0x4D => case 0x4E => case _ =>
  }

  function Row5(i: bv32): bv32 {
    match i
    case 0x50 => 0x7897AB07 case 0x51 => 0x7C56B6B0 case 0x52 => 0x71159069 case 0x53 => 0x75D48DDE
    case 0x54 => 0x6B93DDDB case 0x55 => 0x6F52C06C case 0x56 => 0x6211E6B5 case 0x57 => 0x66D0FB02
    case 0x58 => 0x5E9F46BF case 0x59 => 0x5A5E5B08 case 0x5A => 0x571D7DD1 case 0x5B => 0x53DC6066
    case 0x5C => 0x4D9B3063 case 0x5D => 0x495A2DD4 case 0x5E => 0x44190B0D case _ => 0x40D816BA
  }

  lemma Check5(i: bv32)
    requires 0x50 <= i <= 0x5F
    ensures Row5(i) == Shift8(i << 24)
  {
    match i
    case 0x50 => case 0x51 => case 0x52 => case 0x53 => case 0x54 => case 0x55 => case 0x56 => case 0x57 =>
    case 0x58 => case 0x59 => case 0x5A => case 0x5B => case 0x5C => case 0x5D => case 0x5E => case _ =>
  }

  function Row6(i: bv32): bv32 {
    match i
    case 0x60 => 0xACA5C697 case 0x61 => 0xA864DB20 case 0x62 => 0xA527FDF9 case 0x63 => 0xA1E6E04E
    case 0x64 => 0xBFA1B04B case 0x65 => 0xBB60ADFC case 0x66 => 0xB6238B25 case 0x67 => 0xB2E29692
    case 0x68 => 0x8AAD2B2F case 0x69 => 0x8E6C3698 case 0x6A => 0x832F1041 case 0x6B => 0x87EE0DF6
    case 0x6C => 0x99A95DF3 case 0x6D => 0x9D684044 case 0x6E => 0x902B669D case _ => 0x94EA7B2A
  }

  lemma Check6(i: bv32)
    requires 0x60 <= i <= 0x6F
    ensures Row6(i) == Shift8(i << 24)
  {
    match i
    case 0x60 => case 0x61 => case 0x62 => case 0x63 => case 0x64 => case 0x65 => case 0x66 => case 0x67 =>
    case 0x68 => case 0x69 => case 0x6A => case 0x6B => case 0x6C => case 0x6D => case 0x6E => case _ =>
  }

  function Row7(i: bv32): bv32 {
    match i
    case 0x70 => 0xE0B41DE7 case 0x71 => 0xE4750050 case 0x72 => 0xE9362689 case 0x73 => 0xEDF73B3E
    case 0x74 => 0xF3B06B3B case 0x75 => 0xF771768C case 0x76 => 0xFA325055 case 0x77 => 0xFEF34DE2
    case 0x78 => 0xC6BCF05F case 0x79 => 0xC27DEDE8 case 0x7A => 0xCF3ECB31 case 0x7B => 0xCBFFD686
    case 0x7C => 0xD5B88683 case 0x7D => 0xD1799B34 case 0x7E => 0xDC3ABDED case _ => 0xD8FBA05A
  }

  lemma Check7(i: bv32)
    requires 0x70 <= i <= 0x7F
    ensures Row7(i) == Shift8(i << 24)
  {
    match i
    case 0x70 => case 0x71 => case 0x72 => case 0x73 => case 0x74 => case 0x75 => case 0x76 => case 0x77 =>
    case 0x78 => case 0x79 => case 0x7A => case 0x7B => case 0x7C => case 0x7D => case 0x7E => case _ =>
  }

  function Row8(i: bv32): bv32 {
    match i
    case 0x80 => 0x690CE0EE case 0x81 => 0x6DCDFD59 case 0x82 => 0x608EDB80 case 0x83 => 0x644FC637
    case 0x84 => 0x7A089632 case 0x85 => 0x7EC98B85 case 0x86 => 0x738AAD5C case 0x87 => 0x774BB0EB
    case 0x88 => 0x4F040D56 case 0x89 => 0x4BC510E1 case 0x8A => 0x46863638 case 0x8B => 0x42472B8F
    case 0x8C => 0x5C007B8A case 0x8D => 0x58C1663D case 0x8E => 0x558240E4 case _ => 0x51435D53
  }

  lemma Check8(i: bv32)
    requires 0x80 <= i <= 0x8F
    ensures Row8(i) == Shift8(i << 24)
  {
    match i
    case 0x80 => case 0x81 => case 0x82 => case 0x83 => case 0x84 => case 0x85 => case 0x86 => case 0x87 =>
    case 0x88 => case 0x89 => case 0x8A => case 0x8B => case 0x8C => case 0x8D => case 0x8E => case _ =>
  }

  function Row9(i: bv32): bv32 {
    match i
    case 0x90 => 0x251D3B9E case 0x91 => 0x21DC2629 case 0x92 => 0x2C9F00F0 case 0x93 => 0x285E1D47
    case 0x94 => 0x36194D42 case 0x95 => 0x32D850F5 case 0x96 => 0x3F9B762C case 0x97 => 0x3B5A6B9B
    case 0x98 => 0x0315D626 case 0x99 => 0x07D4CB91 case 0x9A => 0x0A97ED48 case 0x9B => 0x0E56F0FF
    case 0x9C => 0x1011A0FA case 0x9D => 0x14D0BD4D case 0x9E => 0x19939B94 case _ => 0x1D528623
  }

  lemma Check9(i: bv32)
    requires 0x90 <= i <= 0x9F
    ensures Row9(i) == Shift8(i << 24)
  {
    match i
    case 0x90 => case 0x91 => case 0x92 => case 0x93 => case 0x94 => case 0x95 => case 0x96 => case 0x97 =>
    case 0x98 => case 0x99 => case 0x9A => case 0x9B => case 0x9C => case 0x9D => case 0x9E => case _ =>
  }

  function RowA(i: bv32): bv32 {
    match i
    case 0xA0 => 0xF12F560E case 0xA1 => 0xF5EE4BB9 case 0xA2 => 0xF8AD6D60 case 0xA3 => 0xFC6C70D7
    case 0xA4 => 0xE22B20D2 case 0xA5 => 0xE6EA3D65 case 0xA6 => 0xEBA91BBC case 0xA7 => 0xEF68060B
    case 0xA8 => 0xD727BBB6 case 0xA9 => 0xD3E6A601 case 0xAA => 0xDEA580D8 case 0xAB => 0xDA649D6F
    case 0xAC => 0xC423CD6A case 0xAD => 0xC0E2D0DD case 0xAE => 0xCDA1F604 case _ => 0xC960EBB3
  }

  lemma CheckA(i: bv32)
    requires 0xA0 <= i <= 0xAF
    ensures RowA(i) == Shift8(i << 24)
  {
    match i
    case 0xA0 => case 0xA1 => case 0xA2 => case 0xA3 => case 0xA4 => case 0xA5 => case 0xA6 => case 0xA7 =>
    case 0xA8 => case 0xA9 => case 0xAA => case 0xAB => case 0xAC => case 0xAD => case 0xAE => case _ =>
  }

  function RowB(i: bv32): bv32 {
    match i
    case 0xB0 => 0xBD3E8D7E case 0xB1 => 0xB9FF90C9 case 0xB2 => 0xB4BCB610 case 0xB3 => 0xB07DABA7
    case 0xB4 => 0xAE3AFBA2 case 0xB5 => 0xAAFBE615 case 0xB6 => 0xA7B8C0CC case 0xB7 => 0xA379DD7B
    case 0xB8 => 0x9B3660C6 case 0xB9 => 0x9FF77D71 case 0xBA => 0x92B45BA8 case 0xBB => 0x9675461F
    case 0xBC => 0x8832161A case 0xBD => 0x8CF30BAD case 0xBE => 0x81B02D74 case _ => 0x857130C3
  }

  lemma CheckB(i: bv32)
    requires 0xB0 <= i <= 0xBF
    ensures RowB(i) == Shift8(i << 24)
  {
    match i
    case 0xB0 => case 0xB1 => case 0xB2 => case 0xB3 => case 0xB4 => case 0xB5 => case 0xB6 => case 0xB7 =>
    case 0xB8 => case 0xB9 => case 0xBA => case 0xBB => case 0xBC => case 0xBD => case 0xBE => case _ =>
  }

  function RowC(i: bv32): bv32 {
    match i
    case 0xC0 => 0x5D8A9099 case 0xC1 => 0x594B8D2E case 0xC2 => 0x5408ABF7 case 0xC3 => 0x50C9B640
    case 0xC4 => 0x4E8EE645 case 0xC5 => 0x4A4FFBF2 case 0xC6 => 0x470CDD2B case 0xC7 => 0x43CDC09C
    case 0xC8 => 0x7B827D21 case 0xC9 => 0x7F436096 case 0xCA => 0x7200464F case 0xCB => 0x76C15BF8
    case 0xCC => 0x68860BFD case 0xCD => 0x6C47164A case 0xCE => 0x61043093 case _ => 0x65C52D24
  }

  lemma CheckC(i: bv32)
    requires 0xC0 <= i <= 0xCF
    ensures RowC(i) == Shift8(i << 24)
  {
    match i
    case 0xC0 => case 0xC1 => case 0xC2 => case 0xC3 => case 0xC4 => case 0xC5 => case 0xC6 => case 0xC7 =>
    case 0xC8 => case 0xC9 => case 0xCA => case 0xCB => case 0xCC => case 0xCD => case 0xCE => case _ =>
  }

  function RowD(i: bv32): bv32 {
    match i
    case 0xD0 => 0x119B4BE9 case 0xD1 => 0x155A565E case 0xD2 => 0x18197087 case 0xD3 => 0x1CD86D30
    case 0xD4 => 0x029F3D35 case 0xD5 => 0x065E2082 case 0xD6 => 0x0B1D065B case 0xD7 => 0x0FDC1BEC
    case 0xD8 => 0x3793A651 case 0xD9 => 0x3352BBE6 case 0xDA => 0x3E119D3F case 0xDB => 0x3AD08088
    case 0xDC => 0x2497D08D case 0xDD => 0x2056CD3A case 0xDE => 0x2D15EBE3 case _ => 0x29D4F654
  }

  lemma CheckD(i: bv32)
    requires 0xD0 <= i <= 0xDF
    ensures RowD(i) == Shift8(i << 24)
  {
    match i
    case 0xD0 => case 0xD1 => case 0xD2 => case 0xD3 => case 0xD4 => case 0xD5 => case 0xD6 => case 0xD7 =>
    case 0xD8 => case 0xD9 => case 0xDA => case 0xDB => case 0xDC => case 0xDD => case 0xDE => case _ =>
  }

  function RowE(i: bv32): bv32 {
    match i
    case 0xE0 => 0xC5A92679 case 0xE1 => 0xC1683BCE case 0xE2 => 0xCC2B1D17 case 0xE3 => 0xC8EA00A0
    case 0xE4 => 0xD6AD50A5 case 0xE5 => 0xD26C4D12 case 0xE6 => 0xDF2F6BCB case 0xE7 => 0xDBEE767C
    case 0xE8 => 0xE3A1CBC1 case 0xE9 => 0xE760D676 case 0xEA => 0xEA23F0AF case 0xEB => 0xEEE2ED18
    case 0xEC => 0xF0A5BD1D case 0xED => 0xF464A0AA case 0xEE => 0xF9278673 case _ => 0xFDE69BC4
  }

  lemma CheckE(i: bv32)
    requires 0xE0 <= i <= 0xEF
    ensures RowE(i) == Shift8(i << 24)
  {
    match i
    case 0xE0 => case 0xE1 => case 0xE2 => case 0xE3 => case 0xE4 => case 0xE5 => case 0xE6 => case 0xE7 =>
    case 0xE8 => case 0xE9 => case 0xEA => case 0xEB => case 0xEC => case 0xED => case 0xEE => case _ =>
  }

  function RowF(i: bv32): bv32 {
    match i
    case 0xF0 => 0x89B8FD09 case 0xF1 => 0x8D79E0BE case 0xF2 => 0x803AC667 case 0xF3 => 0x84FBDBD0
    case 0xF4 => 0x9ABC8BD5 case 0xF5 => 0x9E7D9662 case 0xF6 => 0x933EB0BB case 0xF7 => 0x97FFAD0C
    case 0xF8 => 0xAFB010B1 case 0xF9 => 0xAB710D06 case 0xFA => 0xA6322BDF case 0xFB => 0xA2F33668
    case 0xFC => 0xBCB4666D case 0xFD => 0xB8757BDA case 0xFE => 0xB5365D03 case _ => 0xB1F740B4
  }

  lemma CheckF(i: bv32)
    requires 0xF0 <= i <= 0xFF
    ensures RowF(i) == Shift8(i << 24)
  {
    match i
    case 0xF0 => case 0xF1 => case 0xF2 => case 0xF3 => case 0xF4 => case 0xF5 => case 0xF6 => case 0xF7 =>
    case 0xF8 => case 0xF9 => case 0xFA => case 0xFB => case 0xFC => case 0xFD => case 0xFE => case _ =>
  }
}
