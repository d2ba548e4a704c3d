/** The two substitution tables of AES, in sixteen rows of sixteen entries. */
module AesTables {
  import opened AesXor

  function SBoxRow0(lo: Byte): Byte {
    if lo == 0x0 then 0x63 else if lo == 0x1 then 0x7C else if lo == 0x2 then 0x77 else if lo == 0x3 then 0x7B
    else if lo == 0x4 then 0xF2 else if lo == 0x5 then 0x6B else if lo == 0x6 then 0x6F else if lo == 0x7 then 0xC5
    else if lo == 0x8 then 0x30 else if lo == 0x9 then 0x01 else if lo == 0xA then 0x67 else if lo == 0xB then 0x2B
    else if lo == 0xC then 0xFE else if lo == 0xD then 0xD7 else if lo == 0xE then 0xAB else 0x76
  }

  function SBoxRow1(lo: Byte): Byte {
    if lo == 0x0 then 0xCA else if lo == 0x1 then 0x82 else if lo == 0x2 then 0xC9 else if lo == 0x3 then 0x7D
    else if lo == 0x4 then 0xFA else if lo == 0x5 then 0x59 else if lo == 0x6 then 0x47 else if lo == 0x7 then 0xF0
    else if lo == 0x8 then 0xAD else if lo == 0x9 then 0xD4 else if lo == 0xA then 0xA2 else if lo == 0xB then 0xAF
    else if lo == 0xC then 0x9C else if lo == 0xD then 0xA4 else if lo == 0xE then 0x72 else 0xC0
  }

  function SBoxRow2(lo: Byte): Byte {
    if lo == 0x0 then 0xB7 else if lo == 0x1 then 0xFD else if lo == 0x2 then 0x93 else if lo == 0x3 then 0x26
    else if lo == 0x4 then 0x36 else if lo == 0x5 then 0x3F else if lo == 0x6 then 0xF7 else if lo == 0x7 then 0xCC
    else if lo == 0x8 then 0x34 else if lo == 0x9 then 0xA5 else if lo == 0xA then 0xE5 else if lo == 0xB then 0xF1
    else if lo == 0xC then 0x71 else if lo == 0xD then 0xD8 else if lo == 0xE then 0x31 else 0x15
  }

  function SBoxRow3(lo: Byte): Byte {
    if lo == 0x0 then 0x04 else if lo == 0x1 then 0xC7 else if lo == 0x2 then 0x23 else if lo == 0x3 then 0xC3
    else if lo == 0x4 then 0x18 else if lo == 0x5 then 0x96 else if lo == 0x6 then 0x05 else if lo == 0x7 then 0x9A
    else if lo == 0x8 then 0x07 else if lo == 0x9 then 0x12 else if lo == 0xA then 0x80 else if lo == 0xB then 0xE2
    else if lo == 0xC then 0xEB else if lo == 0xD then 0x27 else if lo == 0xE then 0xB2 else 0x75
  }

  function SBoxRow4(lo: Byte): Byte {
    if lo == 0x0 then 0x09 else if lo == 0x1 then 0x83 else if lo == 0x2 then 0x2C else if lo == 0x3 then 0x1A
    else if lo == 0x4 then 0x1B else if lo == 0x5 then 0x6E else if lo == 0x6 then 0x5A else if lo == 0x7 then 0xA0
    else if lo == 0x8 then 0x52 else if lo == 0x9 then 0x3B else if lo == 0xA then 0xD6 else if lo == 0xB then 0xB3
    else if lo == 0xC then 0x29 else if lo == 0xD then 0xE3 else if lo == 0xE then 0x2F else 0x84
  }

  function SBoxRow5(lo: Byte): Byte {
    if lo == 0x0 then 0x53 else if lo == 0x1 then 0xD1 else if lo == 0x2 then 0x00 else if lo == 0x3 then 0xED
    else if lo == 0x4 then 0x20 else if lo == 0x5 then 0xFC else if lo == 0x6 then 0xB1 else if lo == 0x7 then 0x5B
    else if lo == 0x8 then 0x6A else if lo == 0x9 then 0xCB else if lo == 0xA then 0xBE else if lo == 0xB then 0x39
    else if lo == 0xC then 0x4A else if lo == 0xD then 0x4C else if lo == 0xE then 0x58 else 0xCF
  }

  function SBoxRow6(lo: Byte): Byte {
    if lo == 0x0 then 0xD0 else if lo == 0x1 then 0xEF else if lo == 0x2 then 0xAA else if lo == 0x3 then 0xFB
    else if lo == 0x4 then 0x43 else if lo == 0x5 then 0x4D else if lo == 0x6 then 0x33 else if lo == 0x7 then 0x85
    else if lo == 0x8 then 0x45 else if lo == 0x9 then 0xF9 else if lo == 0xA then 0x02 else if lo == 0xB then 0x7F
    else if lo == 0xC then 0x50 else if lo == 0xD then 0x3C else if lo == 0xE then 0x9F else 0xA8
  }

  function SBoxRow7(lo: Byte): Byte {
    if lo == 0x0 then 0x51 else if lo == 0x1 then 0xA3 else if lo == 0x2 then 0x40 else if lo == 0x3 then 0x8F
    else if lo == 0x4 then 0x92 else if lo == 0x5 then 0x9D else if lo == 0x6 then 0x38 else if lo == 0x7 then 0xF5
    else if lo == 0x8 then 0xBC else if lo == 0x9 then 0xB6 else if lo == 0xA then 0xDA else if lo == 0xB then 0x21
    else if lo == 0xC then 0x10 else if lo == 0xD then 0xFF else if lo == 0xE then 0xF3 else 0xD2
  }

  function SBoxRow8(lo: Byte): Byte {
    if lo == 0x0 then 0xCD else if lo == 0x1 then 0x0C else if lo == 0x2 then 0x13 else if lo == 0x3 then 0xEC
    else if lo == 0x4 then 0x5F else if lo == 0x5 then 0x97 else if lo == 0x6 then 0x44 else if lo == 0x7 then 0x17
    else if lo == 0x8 then 0xC4 else if lo == 0x9 then 0xA7 else if lo == 0xA then 0x7E else if lo == 0xB then 0x3D
    else if lo == 0xC then 0x64 else if lo == 0xD then 0x5D else if lo == 0xE then 0x19 else 0x73
  }

  function SBoxRow9(lo: Byte): Byte {
    if lo == 0x0 then 0x60 else if lo == 0x1 then 0x81 else if lo == 0x2 then 0x4F else if lo == 0x3 then 0xDC
    else if lo == 0x4 then 0x22 else if lo == 0x5 then 0x2A else if lo == 0x6 then 0x90 else if lo == 0x7 then 0x88
    else if lo == 0x8 then 0x46 else if lo == 0x9 then 0xEE else if lo == 0xA then 0xB8 else if lo == 0xB then 0x14
    else if lo == 0xC then 0xDE else if lo == 0xD then 0x5E else if lo == 0xE then 0x0B else 0xDB
  }

  function SBoxRowA(lo: Byte): Byte {
    if lo == 0x0 then 0xE0 else if lo == 0x1 then 0x32 else if lo == 0x2 then 0x3A else if lo == 0x3 then 0x0A
    else if lo == 0x4 then 0x49 else if lo == 0x5 then 0x06 else if lo == 0x6 then 0x24 else if lo == 0x7 then 0x5C
    else if lo == 0x8 then 0xC2 else if lo == 0x9 then 0xD3 else if lo == 0xA then 0xAC else if lo == 0xB then 0x62
    else if lo == 0xC then 0x91 else if lo == 0xD then 0x95 else if lo == 0xE then 0xE4 else 0x79
  }

  function SBoxRowB(lo: Byte): Byte {
    if lo == 0x0 then 0xE7 else if lo == 0x1 then 0xC8 else if lo == 0x2 then 0x37 else if lo == 0x3 then 0x6D
    else if lo == 0x4 then 0x8D else if lo == 0x5 then 0xD5 else if lo == 0x6 then 0x4E else if lo == 0x7 then 0xA9
    else if lo == 0x8 then 0x6C else if lo == 0x9 then 0x56 else if lo == 0xA then 0xF4 else if lo == 0xB then 0xEA
    else if lo == 0xC then 0x65 else if lo == 0xD then 0x7A else if lo == 0xE then 0xAE else 0x08
  }

  function SBoxRowC(lo: Byte): Byte {
    if lo == 0x0 then 0xBA else if lo == 0x1 then 0x78 else if lo == 0x2 then 0x25 else if lo == 0x3 then 0x2E
    else if lo == 0x4 then 0x1C else if lo == 0x5 then 0xA6 else if lo == 0x6 then 0xB4 else if lo == 0x7 then 0xC6
    else if lo == 0x8 then 0xE8 else if lo == 0x9 then 0xDD else if lo == 0xA then 0x74 else if lo == 0xB then 0x1F
    else if lo == 0xC then 0x4B else if lo == 0xD then 0xBD else if lo == 0xE then 0x8B else 0x8A
  }

  function SBoxRowD(lo: Byte): Byte {
    if lo == 0x0 then 0x70 else if lo == 0x1 then 0x3E else if lo == 0x2 then 0xB5 else if lo == 0x3 then 0x66
    else if lo == 0x4 then 0x48 else if lo == 0x5 then 0x03 else if lo == 0x6 then 0xF6 else if lo == 0x7 then 0x0E
    else if lo == 0x8 then 0x61 else if lo == 0x9 then 0x35 else if lo == 0xA then 0x57 else if lo == 0xB then 0xB9
    else if lo == 0xC then 0x86 else if lo == 0xD then 0xC1 else if lo == 0xE then 0x1D else 0x9E
  }

  function SBoxRowE(lo: Byte): Byte {
    if lo == 0x0 then 0xE1 else if lo == 0x1 then 0xF8 else if lo == 0x2 then 0x98 else if lo == 0x3 then 0x11
    else if lo == 0x4 then 0x69 else if lo == 0x5 then 0xD9 else if lo == 0x6 then 0x8E else if lo == 0x7 then 0x94
    else if lo == 0x8 then 0x9B else if lo == 0x9 then 0x1E else if lo == 0xA then 0x87 else if lo == 0xB then 0xE9
    else if lo == 0xC then 0xCE else if lo == 0xD then 0x55 else if lo == 0xE then 0x28 else 0xDF
  }

  function SBoxRowF(lo: Byte): Byte {
    if lo == 0x0 then 0x8C else if lo == 0x1 then 0xA1 else if lo == 0x2 then 0x89 else if lo == 0x3 then 0x0D
    else if lo == 0x4 then 0xBF else if lo == 0x5 then 0xE6 else if lo == 0x6 then 0x42 else if lo == 0x7 then 0x68
    else if lo == 0x8 then 0x41 else if lo == 0x9 then 0x99 else if lo == 0xA then 0x2D else if lo == 0xB then 0x0F
    else if lo == 0xC then 0xB0 else if lo == 0xD then 0x54 else if lo == 0xE then 0xBB else 0x16
  }

  /** kSBox[x] */
  function SBox(x: Byte): Byte {
    var hi, lo := x >> 4, x & 0x0F;
    if hi == 0x0 then SBoxRow0(lo) else if hi == 0x1 then SBoxRow1(lo) else if hi == 0x2 then SBoxRow2(lo)
    else if hi == 0x3 then SBoxRow3(lo) else if hi == 0x4 then SBoxRow4(lo) else if hi == 0x5 then SBoxRow5(lo)
    else if hi == 0x6 then SBoxRow6(lo) else if hi == 0x7 then SBoxRow7(lo) else if hi == 0x8 then SBoxRow8(lo)
    else if hi == 0x9 then SBoxRow9(lo) else if hi == 0xA then SBoxRowA(lo) else if hi == 0xB then SBoxRowB(lo)
    else if hi == 0xC then SBoxRowC(lo) else if hi == 0xD then SBoxRowD(lo) else if hi == 0xE then SBoxRowE(lo)
    else SBoxRowF(lo)
  }

  function InvSBoxRow0(lo: Byte): Byte {
    if lo == 0x0 then 0x52 else if lo == 0x1 then 0x09 else if lo == 0x2 then 0x6A else if lo == 0x3 then 0xD5
    else if lo == 0x4 then 0x30 else if lo == 0x5 then 0x36 else if lo == 0x6 then 0xA5 else if lo == 0x7 then 0x38
    else if lo == 0x8 then 0xBF else if lo == 0x9 then 0x40 else if lo == 0xA then 0xA3 else if lo == 0xB then 0x9E
    else if lo == 0xC then 0x81 else if lo == 0xD then 0xF3 else if lo == 0xE then 0xD7 else 0xFB
  }

  function InvSBoxRow1(lo: Byte): Byte {
    if lo == 0x0 then 0x7C else if lo == 0x1 then 0xE3 else if lo == 0x2 then 0x39 else if lo == 0x3 then 0x82
    else if lo == 0x4 then 0x9B else if lo == 0x5 then 0x2F else if lo == 0x6 then 0xFF else if lo == 0x7 then 0x87
    else if lo == 0x8 then 0x34 else if lo == 0x9 then 0x8E else if lo == 0xA then 0x43 else if lo == 0xB then 0x44
    else if lo == 0xC then 0xC4 else if lo == 0xD then 0xDE else if lo == 0xE then 0xE9 else 0xCB
  }

  function InvSBoxRow2(lo: Byte): Byte {
    if lo == 0x0 then 0x54 else if lo == 0x1 then 0x7B else if lo == 0x2 then 0x94 else if lo == 0x3 then 0x32
    else if lo == 0x4 then 0xA6 else if lo == 0x5 then 0xC2 else if lo == 0x6 then 0x23 else if lo == 0x7 then 0x3D
    else if lo == 0x8 then 0xEE else if lo == 0x9 then 0x4C else if lo == 0xA then 0x95 else if lo == 0xB then 0x0B
    else if lo == 0xC then 0x42 else if lo == 0xD then 0xFA else if lo == 0xE then 0xC3 else 0x4E
  }

  function InvSBoxRow3(lo: Byte): Byte {
    if lo == 0x0 then 0x08 else if lo == 0x1 then 0x2E else if lo == 0x2 then 0xA1 else if lo == 0x3 then 0x66
    else if lo == 0x4 then 0x28 else if lo == 0x5 then 0xD9 else if lo == 0x6 then 0x24 else if lo == 0x7 then 0xB2
    else if lo == 0x8 then 0x76 else if lo == 0x9 then 0x5B else if lo == 0xA then 0xA2 else if lo == 0xB then 0x49
    else if lo == 0xC then 0x6D else if lo == 0xD then 0x8B else if lo == 0xE then 0xD1 else 0x25
  }

  function InvSBoxRow4(lo: Byte): Byte {
    if lo == 0x0 then 0x72 else if lo == 0x1 then 0xF8 else if lo == 0x2 then 0xF6 else if lo == 0x3 then 0x64
    else if lo == 0x4 then 0x86 else if lo == 0x5 then 0x68 else if lo == 0x6 then 0x98 else if lo == 0x7 then 0x16
    else if lo == 0x8 then 0xD4 else if lo == 0x9 then 0xA4 else if lo == 0xA then 0x5C else if lo == 0xB then 0xCC
    else if lo == 0xC then 0x5D else if lo == 0xD then 0x65 else if lo == 0xE then 0xB6 else 0x92
  }

  function InvSBoxRow5(lo: Byte): Byte {
    if lo == 0x0 then 0x6C else if lo == 0x1 then 0x70 else if lo == 0x2 then 0x48 else if lo == 0x3 then 0x50
    else if lo == 0x4 then 0xFD else if lo == 0x5 then 0xED else if lo == 0x6 then 0xB9 else if lo == 0x7 then 0xDA
    else if lo == 0x8 then 0x5E else if lo == 0x9 then 0x15 else if lo == 0xA then 0x46 else if lo == 0xB then 0x57
    else if lo == 0xC then 0xA7 else if lo == 0xD then 0x8D else if lo == 0xE then 0x9D else 0x84
  }

  function InvSBoxRow6(lo: Byte): Byte {
    if lo == 0x0 then 0x90 else if lo == 0x1 then 0xD8 else if lo == 0x2 then 0xAB else if lo == 0x3 then 0x00
    else if lo == 0x4 then 0x8C else if lo == 0x5 then 0xBC else if lo == 0x6 then 0xD3 else if lo == 0x7 then 0x0A
    else if lo == 0x8 then 0xF7 else if lo == 0x9 then 0xE4 else if lo == 0xA then 0x58 else if lo == 0xB then 0x05
    else if lo == 0xC then 0xB8 else if lo == 0xD then 0xB3 else if lo == 0xE then 0x45 else 0x06
  }

  function InvSBoxRow7(lo: Byte): Byte {
    if lo == 0x0 then 0xD0 else if lo == 0x1 then 0x2C else if lo == 0x2 then 0x1E else if lo == 0x3 then 0x8F
    else if lo == 0x4 then 0xCA else if lo == 0x5 then 0x3F else if lo == 0x6 then 0x0F else if lo == 0x7 then 0x02
    else if lo == 0x8 then 0xC1 else if lo == 0x9 then 0xAF else if lo == 0xA then 0xBD else if lo == 0xB then 0x03
    else if lo == 0xC then 0x01 else if lo == 0xD then 0x13 else if lo == 0xE then 0x8A else 0x6B
  }

  function InvSBoxRow8(lo: Byte): Byte {
    if lo == 0x0 then 0x3A else if lo == 0x1 then 0x91 else if lo == 0x2 then 0x11 else if lo == 0x3 then 0x41
    else if lo == 0x4 then 0x4F else if lo == 0x5 then 0x67 else if lo == 0x6 then 0xDC else if lo == 0x7 then 0xEA
    else if lo == 0x8 then 0x97 else if lo == 0x9 then 0xF2 else if lo == 0xA then 0xCF else if lo == 0xB then 0xCE
    else if lo == 0xC then 0xF0 else if lo == 0xD then 0xB4 else if lo == 0xE then 0xE6 else 0x73
  }

  function InvSBoxRow9(lo: Byte): Byte {
    if lo == 0x0 then 0x96 else if lo == 0x1 then 0xAC else if lo == 0x2 then 0x74 else if lo == 0x3 then 0x22
    else if lo == 0x4 then 0xE7 else if lo == 0x5 then 0xAD else if lo == 0x6 then 0x35 else if lo == 0x7 then 0x85
    else if lo == 0x8 then 0xE2 else if lo == 0x9 then 0xF9 else if lo == 0xA then 0x37 else if lo == 0xB then 0xE8
    else if lo == 0xC then 0x1C else if lo == 0xD then 0x75 else if lo == 0xE then 0xDF else 0x6E
  }

  function InvSBoxRowA(lo: Byte): Byte {
    if lo == 0x0 then 0x47 else if lo == 0x1 then 0xF1 else if lo == 0x2 then 0x1A else if lo == 0x3 then 0x71
    else if lo == 0x4 then 0x1D else if lo == 0x5 then 0x29 else if lo == 0x6 then 0xC5 else if lo == 0x7 then 0x89
    else if lo == 0x8 then 0x6F else if lo == 0x9 then 0xB7 else if lo == 0xA then 0x62 else if lo == 0xB then 0x0E
    else if lo == 0xC then 0xAA else if lo == 0xD then 0x18 else if lo == 0xE then 0xBE else 0x1B
  }

  function InvSBoxRowB(lo: Byte): Byte {
    if lo == 0x0 then 0xFC else if lo == 0x1 then 0x56 else if lo == 0x2 then 0x3E else if lo == 0x3 then 0x4B
    else if lo == 0x4 then 0xC6 else if lo == 0x5 then 0xD2 else if lo == 0x6 then 0x79 else if lo == 0x7 then 0x20
    else if lo == 0x8 then 0x9A else if lo == 0x9 then 0xDB else if lo == 0xA then 0xC0 else if lo == 0xB then 0xFE
    else if lo == 0xC then 0x78 else if lo == 0xD then 0xCD else if lo == 0xE then 0x5A else 0xF4
  }

  function InvSBoxRowC(lo: Byte): Byte {
    if lo == 0x0 then 0x1F else if lo == 0x1 then 0xDD else if lo == 0x2 then 0xA8 else if lo == 0x3 then 0x33
    else if lo == 0x4 then 0x88 else if lo == 0x5 then 0x07 else if lo == 0x6 then 0xC7 else if lo == 0x7 then 0x31
    else if lo == 0x8 then 0xB1 else if lo == 0x9 then 0x12 else if lo == 0xA then 0x10 else if lo == 0xB then 0x59
    else if lo == 0xC then 0x27 else if lo == 0xD then 0x80 else if lo == 0xE then 0xEC else 0x5F
  }

  function InvSBoxRowD(lo: Byte): Byte {
    if lo == 0x0 then 0x60 else if lo == 0x1 then 0x51 else if lo == 0x2 then 0x7F else if lo == 0x3 then 0xA9
    else if lo == 0x4 then 0x19 else if lo == 0x5 then 0xB5 else if lo == 0x6 then 0x4A else if lo == 0x7 then 0x0D
    else if lo == 0x8 then 0x2D else if lo == 0x9 then 0xE5 else if lo == 0xA then 0x7A else if lo == 0xB then 0x9F
    else if lo == 0xC then 0x93 else if lo == 0xD then 0xC9 else if lo == 0xE then 0x9C else 0xEF
  }

  function InvSBoxRowE(lo: Byte): Byte {
    if lo == 0x0 then 0xA0 else if lo == 0x1 then 0xE0 else if lo == 0x2 then 0x3B else if lo == 0x3 then 0x4D
    else if lo == 0x4 then 0xAE else if lo == 0x5 then 0x2A else if lo == 0x6 then 0xF5 else if lo == 0x7 then 0xB0
    else if lo == 0x8 then 0xC8 else if lo == 0x9 then 0xEB else if lo == 0xA then 0xBB else if lo == 0xB then 0x3C
    else if lo == 0xC then 0x83 else if lo == 0xD then 0x53 else if lo == 0xE then 0x99 else 0x61
  }

  function InvSBoxRowF(lo: Byte): Byte {
    if lo == 0x0 then 0x17 else if lo == 0x1 then 0x2B else if lo == 0x2 then 0x04 else if lo == 0x3 then 0x7E
    else if lo == 0x4 then 0xBA else if lo == 0x5 then 0x77 else if lo == 0x6 then 0xD6 else if lo == 0x7 then 0x26
    else if lo == 0x8 then 0xE1 else if lo == 0x9 then 0x69 else if lo == 0xA then 0x14 else if lo == 0xB then 0x63
    else if lo == 0xC then 0x55 else if lo == 0xD then 0x21 else if lo == 0xE then 0x0C else 0x7D
  }

  /** kInvSBox[x] */
  function InvSBox(x: Byte): Byte {
    var hi, lo := x >> 4, x & 0x0F;
    if hi == 0x0 then InvSBoxRow0(lo) else if hi == 0x1 then InvSBoxRow1(lo) else if hi == 0x2 then InvSBoxRow2(lo)
    else if hi == 0x3 then InvSBoxRow3(lo) else if hi == 0x4 then InvSBoxRow4(lo) else if hi == 0x5 then InvSBoxRow5(lo)
    else if hi == 0x6 then InvSBoxRow6(lo) else if hi == 0x7 then InvSBoxRow7(lo) else if hi == 0x8 then InvSBoxRow8(lo)
    else if hi == 0x9 then InvSBoxRow9(lo) else if hi == 0xA then InvSBoxRowA(lo) else if hi == 0xB then InvSBoxRowB(lo)
    else if hi == 0xC then InvSBoxRowC(lo) else if hi == 0xD then InvSBoxRowD(lo) else if hi == 0xE then InvSBoxRowE(lo)
    else InvSBoxRowF(lo)
  }

  lemma SBoxInverseRow0(lo: Byte)
    requires lo <= 0x0F
    ensures InvSBox(SBoxRow0(lo)) == 0x00 + lo
  {
  }

  lemma SBoxInverseRow1(lo: Byte)
    requires lo <= 0x0F
    ensures InvSBox(SBoxRow1(lo)) == 0x10 + lo
  {
  }

  lemma SBoxInverseRow2(lo: Byte)
    requires lo <= 0x0F
    ensures InvSBox(SBoxRow2(lo)) == 0x20 + lo
  {
  }

  lemma SBoxInverseRow3(lo: Byte)
    requires lo <= 0x0F
    ensures InvSBox(SBoxRow3(lo)) == 0x30 + lo
  {
  }

  lemma SBoxInverseRow4(lo: Byte)
    requires lo <= 0x0F
    ensures InvSBox(SBoxRow4(lo)) == 0x40 + lo
  {
  }

  lemma SBoxInverseRow5(lo: Byte)
    requires lo <= 0x0F
    ensures InvSBox(SBoxRow5(lo)) == 0x50 + lo
  {
  }

  lemma SBoxInverseRow6(lo: Byte)
    requires lo <= 0x0F
    ensures InvSBox(SBoxRow6(lo)) == 0x60 + lo
  {
  }

  lemma SBoxInverseRow7(lo: Byte)
    requires lo <= 0x0F
    ensures InvSBox(SBoxRow7(lo)) == 0x70 + lo
  {
  }

  lemma SBoxInverseRow8(lo: Byte)
    requires lo <= 0x0F
    ensures InvSBox(SBoxRow8(lo)) == 0x80 + lo
  {
  }

  lemma SBoxInverseRow9(lo: Byte)
    requires lo <= 0x0F
    ensures InvSBox(SBoxRow9(lo)) == 0x90 + lo
  {
  }

  lemma SBoxInverseRowA(lo: Byte)
    requires lo <= 0x0F
    ensures InvSBox(SBoxRowA(lo)) == 0xA0 + lo
  {
  }

  lemma SBoxInverseRowB(lo: Byte)
    requires lo <= 0x0F
    ensures InvSBox(SBoxRowB(lo)) == 0xB0 + lo
  {
  }

  lemma SBoxInverseRowC(lo: Byte)
    requires lo <= 0x0F
    ensures InvSBox(SBoxRowC(lo)) == 0xC0 + lo
  {
  }

  lemma SBoxInverseRowD(lo: Byte)
    requires lo <= 0x0F
    ensures InvSBox(SBoxRowD(lo)) == 0xD0 + lo
  {
  }

  lemma SBoxInverseRowE(lo: Byte)
    requires lo <= 0x0F
    ensures InvSBox(SBoxRowE(lo)) == 0xE0 + lo
  {
  }

  lemma SBoxInverseRowF(lo: Byte)
    requires lo <= 0x0F
    ensures InvSBox(SBoxRowF(lo)) == 0xF0 + lo
  {
  }

  lemma InvSBoxInverseRow0(lo: Byte)
    requires lo <= 0x0F
    ensures SBox(InvSBoxRow0(lo)) == 0x00 + lo
  {
  }

  lemma InvSBoxInverseRow1(lo: Byte)
    requires lo <= 0x0F
    ensures SBox(InvSBoxRow1(lo)) == 0x10 + lo
  {
  }

  lemma InvSBoxInverseRow2(lo: Byte)
    requires lo <= 0x0F
    ensures SBox(InvSBoxRow2(lo)) == 0x20 + lo
  {
  }

  lemma InvSBoxInverseRow3(lo: Byte)
    requires lo <= 0x0F
    ensures SBox(InvSBoxRow3(lo)) == 0x30 + lo
  {
  }

  lemma InvSBoxInverseRow4(lo: Byte)
    requires lo <= 0x0F
    ensures SBox(InvSBoxRow4(lo)) == 0x40 + lo
  {
  }

  lemma InvSBoxInverseRow5(lo: Byte)
    requires lo <= 0x0F
    ensures SBox(InvSBoxRow5(lo)) == 0x50 + lo
  {
  }

  lemma InvSBoxInverseRow6(lo: Byte)
    requires lo <= 0x0F
    ensures SBox(InvSBoxRow6(lo)) == 0x60 + lo
  {
  }

  lemma InvSBoxInverseRow7(lo: Byte)
    requires lo <= 0x0F
    ensures SBox(InvSBoxRow7(lo)) == 0x70 + lo
  {
  }

  lemma InvSBoxInverseRow8(lo: Byte)
    requires lo <= 0x0F
    ensures SBox(InvSBoxRow8(lo)) == 0x80 + lo
  {
  }

  lemma InvSBoxInverseRow9(lo: Byte)
    requires lo <= 0x0F
    ensures SBox(InvSBoxRow9(lo)) == 0x90 + lo
  {
  }

  lemma InvSBoxInverseRowA(lo: Byte)
    requires lo <= 0x0F
    ensures SBox(InvSBoxRowA(lo)) == 0xA0 + lo
  {
  }

  lemma InvSBoxInverseRowB(lo: Byte)
    requires lo <= 0x0F
    ensures SBox(InvSBoxRowB(lo)) == 0xB0 + lo
  {
  }

  lemma InvSBoxInverseRowC(lo: Byte)
    requires lo <= 0x0F
    ensures SBox(InvSBoxRowC(lo)) == 0xC0 + lo
  {
  }

  lemma InvSBoxInverseRowD(lo: Byte)
    requires lo <= 0x0F
    ensures SBox(InvSBoxRowD(lo)) == 0xD0 + lo
  {
  }

  lemma InvSBoxInverseRowE(lo: Byte)
    requires lo <= 0x0F
    ensures SBox(InvSBoxRowE(lo)) == 0xE0 + lo
  {
  }

  lemma InvSBoxInverseRowF(lo: Byte)
    requires lo <= 0x0F
    ensures SBox(InvSBoxRowF(lo)) == 0xF0 + lo
  {
  }

  lemma SBoxRows(x: Byte)
    ensures x >> 4 <= 0x0F && x & 0x0F <= 0x0F
    ensures x >> 4 == 0x0 ==> SBox(x) == SBoxRow0(x & 0x0F) && 0x00 + (x & 0x0F) == x
    ensures x >> 4 == 0x1 ==> SBox(x) == SBoxRow1(x & 0x0F) && 0x10 + (x & 0x0F) == x
    ensures x >> 4 == 0x2 ==> SBox(x) == SBoxRow2(x & 0x0F) && 0x20 + (x & 0x0F) == x
    ensures x >> 4 == 0x3 ==> SBox(x) == SBoxRow3(x & 0x0F) && 0x30 + (x & 0x0F) == x
    ensures x >> 4 == 0x4 ==> SBox(x) == SBoxRow4(x & 0x0F) && 0x40 + (x & 0x0F) == x
    ensures x >> 4 == 0x5 ==> SBox(x) == SBoxRow5(x & 0x0F) && 0x50 + (x & 0x0F) == x
    ensures x >> 4 == 0x6 ==> SBox(x) == SBoxRow6(x & 0x0F) && 0x60 + (x & 0x0F) == x
    ensures x >> 4 == 0x7 ==> SBox(x) == SBoxRow7(x & 0x0F) && 0x70 + (x & 0x0F) == x
    ensures x >> 4 == 0x8 ==> SBox(x) == SBoxRow8(x & 0x0F) && 0x80 + (x & 0x0F) == x
    ensures x >> 4 == 0x9 ==> SBox(x) == SBoxRow9(x & 0x0F) && 0x90 + (x & 0x0F) == x
    ensures x >> 4 == 0xA ==> SBox(x) == SBoxRowA(x & 0x0F) && 0xA0 + (x & 0x0F) == x
    ensures x >> 4 == 0xB ==> SBox(x) == SBoxRowB(x & 0x0F) && 0xB0 + (x & 0x0F) == x
    ensures x >> 4 == 0xC ==> SBox(x) == SBoxRowC(x & 0x0F) && 0xC0 + (x & 0x0F) == x
    ensures x >> 4 == 0xD ==> SBox(x) == SBoxRowD(x & 0x0F) && 0xD0 + (x & 0x0F) == x
    ensures x >> 4 == 0xE ==> SBox(x) == SBoxRowE(x & 0x0F) && 0xE0 + (x & 0x0F) == x
    ensures x >> 4 == 0xF ==> SBox(x) == SBoxRowF(x & 0x0F) && 0xF0 + (x & 0x0F) == x
  {
    hide SBoxRow0, SBoxRow1, SBoxRow2, SBoxRow3, SBoxRow4, SBoxRow5, SBoxRow6, SBoxRow7, SBoxRow8, SBoxRow9,
        SBoxRowA, SBoxRowB, SBoxRowC, SBoxRowD, SBoxRowE, SBoxRowF;
  }

  lemma InvSBoxRows(x: Byte)
    ensures x >> 4 <= 0x0F && x & 0x0F <= 0x0F
    ensures x >> 4 == 0x0 ==> InvSBox(x) == InvSBoxRow0(x & 0x0F) && 0x00 + (x & 0x0F) == x
    ensures x >> 4 == 0x1 ==> InvSBox(x) == InvSBoxRow1(x & 0x0F) && 0x10 + (x & 0x0F) == x
    ensures x >> 4 == 0x2 ==> InvSBox(x) == InvSBoxRow2(x & 0x0F) && 0x20 + (x & 0x0F) == x
    ensures x >> 4 == 0x3 ==> InvSBox(x) == InvSBoxRow3(x & 0x0F) && 0x30 + (x & 0x0F) == x
    ensures x >> 4 == 0x4 ==> InvSBox(x) == InvSBoxRow4(x & 0x0F) && 0x40 + (x & 0x0F) == x
    ensures x >> 4 == 0x5 ==> InvSBox(x) == InvSBoxRow5(x & 0x0F) && 0x50 + (x & 0x0F) == x
    ensures x >> 4 == 0x6 ==> InvSBox(x) == InvSBoxRow6(x & 0x0F) && 0x60 + (x & 0x0F) == x
    ensures x >> 4 == 0x7 ==> InvSBox(x) == InvSBoxRow7(x & 0x0F) && 0x70 + (x & 0x0F) == x
    ensures x >> 4 == 0x8 ==> InvSBox(x) == InvSBoxRow8(x & 0x0F) && 0x80 + (x & 0x0F) == x
    ensures x >> 4 == 0x9 ==> InvSBox(x) == InvSBoxRow9(x & 0x0F) && 0x90 + (x & 0x0F) == x
    ensures x >> 4 == 0xA ==> InvSBox(x) == InvSBoxRowA(x & 0x0F) && 0xA0 + (x & 0x0F) == x
    ensures x >> 4 == 0xB ==> InvSBox(x) == InvSBoxRowB(x & 0x0F) && 0xB0 + (x & 0x0F) == x
    ensures x >> 4 == 0xC ==> InvSBox(x) == InvSBoxRowC(x & 0x0F) && 0xC0 + (x & 0x0F) == x
    ensures x >> 4 == 0xD ==> InvSBox(x) == InvSBoxRowD(x & 0x0F) && 0xD0 + (x & 0x0F) == x
    ensures x >> 4 == 0xE ==> InvSBox(x) == InvSBoxRowE(x & 0x0F) && 0xE0 + (x & 0x0F) == x
    ensures x >> 4 == 0xF ==> InvSBox(x) == InvSBoxRowF(x & 0x0F) && 0xF0 + (x & 0x0F) == x
  {
    hide InvSBoxRow0, InvSBoxRow1, InvSBoxRow2, InvSBoxRow3, InvSBoxRow4, InvSBoxRow5, InvSBoxRow6, InvSBoxRow7,
        InvSBoxRow8, InvSBoxRow9, InvSBoxRowA, InvSBoxRowB, InvSBoxRowC, InvSBoxRowD, InvSBoxRowE, InvSBoxRowF;
  }

  /** Each table undoes the other, on all 256 bytes. */
  lemma SBoxInverse(x: Byte)
    ensures InvSBox(SBox(x)) == x
  {
    hide SBox, InvSBox;
    hide SBoxRow0, SBoxRow1, SBoxRow2, SBoxRow3, SBoxRow4, SBoxRow5, SBoxRow6, SBoxRow7, SBoxRow8, SBoxRow9,
        SBoxRowA, SBoxRowB, SBoxRowC, SBoxRowD, SBoxRowE, SBoxRowF;
    SBoxRows(x);
    var hi, lo := x >> 4, x & 0x0F;
    if hi == 0x0 { SBoxInverseRow0(lo); }
    else if hi == 0x1 { SBoxInverseRow1(lo); }
    else if hi == 0x2 { SBoxInverseRow2(lo); }
    else if hi == 0x3 { SBoxInverseRow3(lo); }
    else if hi == 0x4 { SBoxInverseRow4(lo); }
    else if hi == 0x5 { SBoxInverseRow5(lo); }
    else if hi == 0x6 { SBoxInverseRow6(lo); }
    else if hi == 0x7 { SBoxInverseRow7(lo); }
    else if hi == 0x8 { SBoxInverseRow8(lo); }
    else if hi == 0x9 { SBoxInverseRow9(lo); }
    else if hi == 0xA { SBoxInverseRowA(lo); }
    else if hi == 0xB { SBoxInverseRowB(lo); }
    else if hi == 0xC { SBoxInverseRowC(lo); }
    else if hi == 0xD { SBoxInverseRowD(lo); }
    else if hi == 0xE { SBoxInverseRowE(lo); }
    else { SBoxInverseRowF(lo); }
  }

  lemma InvSBoxInverse(x: Byte)
    ensures SBox(InvSBox(x)) == x
  {
    hide SBox, InvSBox;
    hide InvSBoxRow0, InvSBoxRow1, InvSBoxRow2, InvSBoxRow3, InvSBoxRow4, InvSBoxRow5, InvSBoxRow6, InvSBoxRow7,
        InvSBoxRow8, InvSBoxRow9, InvSBoxRowA, InvSBoxRowB, InvSBoxRowC, InvSBoxRowD, InvSBoxRowE, InvSBoxRowF;
    InvSBoxRows(x);
    var hi, lo := x >> 4, x & 0x0F;
    if hi == 0x0 { InvSBoxInverseRow0(lo); }
    else if hi == 0x1 { InvSBoxInverseRow1(lo); }
    else if hi == 0x2 { InvSBoxInverseRow2(lo); }
    else if hi == 0x3 { InvSBoxInverseRow3(lo); }
    else if hi == 0x4 { InvSBoxInverseRow4(lo); }
    else if hi == 0x5 { InvSBoxInverseRow5(lo); }
    else if hi == 0x6 { InvSBoxInverseRow6(lo); }
    else if hi == 0x7 { InvSBoxInverseRow7(lo); }
    else if hi == 0x8 { InvSBoxInverseRow8(lo); }
    else if hi == 0x9 { InvSBoxInverseRow9(lo); }
    else if hi == 0xA { InvSBoxInverseRowA(lo); }
    else if hi == 0xB { InvSBoxInverseRowB(lo); }
    else if hi == 0xC { InvSBoxInverseRowC(lo); }
    else if hi == 0xD { InvSBoxInverseRowD(lo); }
    else if hi == 0xE { InvSBoxInverseRowE(lo); }
    else { InvSBoxInverseRowF(lo); }
  }
}
