/** Bitwise addition, and table selection by the low bits of an index. A table is the
    argument list of a call, so a row of constants reads as it does in a C initialiser. */
module WordOps {

  /** Bit-by-bit addition modulo 2. */
  function Xor(a: bv32, b: bv32): bv32 {
    a ^ b
  }

  function Pick4(i: bv32, a0: bv32, a1: bv32, a2: bv32, a3: bv32): bv32 {
    if i & 2 != 0
    then (if i & 1 != 0 then a3 else a2)
    else (if i & 1 != 0 then a1 else a0)
  }

  function Pick16(i: bv32,
                  a0: bv32, a1: bv32, a2: bv32, a3: bv32,
                  a4: bv32, a5: bv32, a6: bv32, a7: bv32,
                  a8: bv32, a9: bv32, a10: bv32, a11: bv32,
                  a12: bv32, a13: bv32, a14: bv32, a15: bv32): bv32
  {
    if i & 8 != 0
    then (if i & 4 != 0 then Pick4(i, a12, a13, a14, a15) else Pick4(i, a8, a9, a10, a11))
    else (if i & 4 != 0 then Pick4(i, a4, a5, a6, a7) else Pick4(i, a0, a1, a2, a3))
  }
}

/** The constant tables of the cipher implementation: the expanded S-boxes, in which the
    substitution and the permutation P are fused, and the bit-spreading tables of PC-1. */
module DesTables {
  import opened WordOps

  function SB1(i: bv32): bv32
    requires i <= 0x3F
  {
    Pick4(i >> 4,
          Pick16(i, 0x01010400, 0x00000000, 0x00010000, 0x01010404,
                    0x01010004, 0x00010404, 0x00000004, 0x00010000,
                    0x00000400, 0x01010400, 0x01010404, 0x00000400,
                    0x01000404, 0x01010004, 0x01000000, 0x00000004),
          Pick16(i, 0x00000404, 0x01000400, 0x01000400, 0x00010400,
                    0x00010400, 0x01010000, 0x01010000, 0x01000404,
                    0x00010004, 0x01000004, 0x01000004, 0x00010004,
                    0x00000000, 0x00000404, 0x00010404, 0x01000000),
          Pick16(i, 0x00010000, 0x01010404, 0x00000004, 0x01010000,
                    0x01010400, 0x01000000, 0x01000000, 0x00000400,
                    0x01010004, 0x00010000, 0x00010400, 0x01000004,
                    0x00000400, 0x00000004, 0x01000404, 0x00010404),
          Pick16(i, 0x01010404, 0x00010004, 0x01010000, 0x01000404,
                    0x01000004, 0x00000404, 0x00010404, 0x01010400,
                    0x00000404, 0x01000400, 0x01000400, 0x00000000,
                    0x00010004, 0x00010400, 0x00000000, 0x01010004))
  }

  function SB2(i: bv32): bv32
    requires i <= 0x3F
  {
    Pick4(i >> 4,
          Pick16(i, 0x80108020, 0x80008000, 0x00008000, 0x00108020,
                    0x00100000, 0x00000020, 0x80100020, 0x80008020,
                    0x80000020, 0x80108020, 0x80108000, 0x80000000,
                    0x80008000, 0x00100000, 0x00000020, 0x80100020),
          Pick16(i, 0x00108000, 0x00100020, 0x80008020, 0x00000000,
                    0x80000000, 0x00008000, 0x00108020, 0x80100000,
                    0x00100020, 0x80000020, 0x00000000, 0x00108000,
                    0x00008020, 0x80108000, 0x80100000, 0x00008020),
          Pick16(i, 0x00000000, 0x00108020, 0x80100020, 0x00100000,
                    0x80008020, 0x80100000, 0x80108000, 0x00008000,
                    0x80100000, 0x80008000, 0x00000020, 0x80108020,
                    0x00108020, 0x00000020, 0x00008000, 0x80000000),
          Pick16(i, 0x00008020, 0x80108000, 0x00100000, 0x80000020,
                    0x00100020, 0x80008020, 0x80000020, 0x00100020,
                    0x00108000, 0x00000000, 0x80008000, 0x00008020,
                    0x80000000, 0x80100020, 0x80108020, 0x00108000))
  }

  function SB3(i: bv32): bv32
    requires i <= 0x3F
  {
    Pick4(i >> 4,
          Pick16(i, 0x00000208, 0x08020200, 0x00000000, 0x08020008,
                    0x08000200, 0x00000000, 0x00020208, 0x08000200,
                    0x00020008, 0x08000008, 0x08000008, 0x00020000,
                    0x08020208, 0x00020008, 0x08020000, 0x00000208),
          Pick16(i, 0x08000000, 0x00000008, 0x08020200, 0x00000200,
                    0x00020200, 0x08020000, 0x08020008, 0x00020208,
                    0x08000208, 0x00020200, 0x00020000, 0x08000208,
                    0x00000008, 0x08020208, 0x00000200, 0x08000000),
          Pick16(i, 0x08020200, 0x08000000, 0x00020008, 0x00000208,
                    0x00020000, 0x08020200, 0x08000200, 0x00000000,
                    0x00000200, 0x00020008, 0x08020208, 0x08000200,
                    0x08000008, 0x00000200, 0x00000000, 0x08020008),
          Pick16(i, 0x08000208, 0x00020000, 0x08000000, 0x08020208,
                    0x00000008, 0x00020208, 0x00020200, 0x08000008,
                    0x08020000, 0x08000208, 0x00000208, 0x08020000,
                    0x00020208, 0x00000008, 0x08020008, 0x00020200))
  }

  function SB4(i: bv32): bv32
    requires i <= 0x3F
  {
    Pick4(i >> 4,
          Pick16(i, 0x00802001, 0x00002081, 0x00002081, 0x00000080,
                    0x00802080, 0x00800081, 0x00800001, 0x00002001,
                    0x00000000, 0x00802000, 0x00802000, 0x00802081,
                    0x00000081, 0x00000000, 0x00800080, 0x00800001),
          Pick16(i, 0x00000001, 0x00002000, 0x00800000, 0x00802001,
                    0x00000080, 0x00800000, 0x00002001, 0x00002080,
                    0x00800081, 0x00000001, 0x00002080, 0x00800080,
                    0x00002000, 0x00802080, 0x00802081, 0x00000081),
          Pick16(i, 0x00800080, 0x00800001, 0x00802000, 0x00802081,
                    0x00000081, 0x00000000, 0x00000000, 0x00802000,
                    0x00002080, 0x00800080, 0x00800081, 0x00000001,
                    0x00802001, 0x00002081, 0x00002081, 0x00000080),
          Pick16(i, 0x00802081, 0x00000081, 0x00000001, 0x00002000,
                    0x00800001, 0x00002001, 0x00802080, 0x00800081,
                    0x00002001, 0x00002080, 0x00800000, 0x00802001,
                    0x00000080, 0x00800000, 0x00002000, 0x00802080))
  }

  function SB5(i: bv32): bv32
    requires i <= 0x3F
  {
    Pick4(i >> 4,
          Pick16(i, 0x00000100, 0x02080100, 0x02080000, 0x42000100,
                    0x00080000, 0x00000100, 0x40000000, 0x02080000,
                    0x40080100, 0x00080000, 0x02000100, 0x40080100,
                    0x42000100, 0x42080000, 0x00080100, 0x40000000),
          Pick16(i, 0x02000000, 0x40080000, 0x40080000, 0x00000000,
                    0x40000100, 0x42080100, 0x42080100, 0x02000100,
                    0x42080000, 0x40000100, 0x00000000, 0x42000000,
                    0x02080100, 0x02000000, 0x42000000, 0x00080100),
          Pick16(i, 0x00080000, 0x42000100, 0x00000100, 0x02000000,
                    0x40000000, 0x02080000, 0x42000100, 0x40080100,
                    0x02000100, 0x40000000, 0x42080000, 0x02080100,
                    0x40080100, 0x00000100, 0x02000000, 0x42080000),
          Pick16(i, 0x42080100, 0x00080100, 0x42000000, 0x42080100,
                    0x02080000, 0x00000000, 0x40080000, 0x42000000,
                    0x00080100, 0x02000100, 0x40000100, 0x00080000,
                    0x00000000, 0x40080000, 0x02080100, 0x40000100))
  }

  function SB6(i: bv32): bv32
    requires i <= 0x3F
  {
    Pick4(i >> 4,
          Pick16(i, 0x20000010, 0x20400000, 0x00004000, 0x20404010,
                    0x20400000, 0x00000010, 0x20404010, 0x00400000,
                    0x20004000, 0x00404010, 0x00400000, 0x20000010,
                    0x00400010, 0x20004000, 0x20000000, 0x00004010),
          Pick16(i, 0x00000000, 0x00400010, 0x20004010, 0x00004000,
                    0x00404000, 0x20004010, 0x00000010, 0x20400010,
                    0x20400010, 0x00000000, 0x00404010, 0x20404000,
                    0x00004010, 0x00404000, 0x20404000, 0x20000000),
          Pick16(i, 0x20004000, 0x00000010, 0x20400010, 0x00404000,
                    0x20404010, 0x00400000, 0x00004010, 0x20000010,
                    0x00400000, 0x20004000, 0x20000000, 0x00004010,
                    0x20000010, 0x20404010, 0x00404000, 0x20400000),
          Pick16(i, 0x00404010, 0x20404000, 0x00000000, 0x20400010,
                    0x00000010, 0x00004000, 0x20400000, 0x00404010,
                    0x00004000, 0x00400010, 0x20004010, 0x00000000,
                    0x20404000, 0x20000000, 0x00400010, 0x20004010))
  }

  function SB7(i: bv32): bv32
    requires i <= 0x3F
  {
    Pick4(i >> 4,
          Pick16(i, 0x00200000, 0x04200002, 0x04000802, 0x00000000,
                    0x00000800, 0x04000802, 0x00200802, 0x04200800,
                    0x04200802, 0x00200000, 0x00000000, 0x04000002,
                    0x00000002, 0x04000000, 0x04200002, 0x00000802),
          Pick16(i, 0x04000800, 0x00200802, 0x00200002, 0x04000800,
                    0x04000002, 0x04200000, 0x04200800, 0x00200002,
                    0x04200000, 0x00000800, 0x00000802, 0x04200802,
                    0x00200800, 0x00000002, 0x04000000, 0x00200800),
          Pick16(i, 0x04000000, 0x00200800, 0x00200000, 0x04000802,
                    0x04000802, 0x04200002, 0x04200002, 0x00000002,
                    0x00200002, 0x04000000, 0x04000800, 0x00200000,
                    0x04200800, 0x00000802, 0x00200802, 0x04200800),
          Pick16(i, 0x00000802, 0x04000002, 0x04200802, 0x04200000,
                    0x00200800, 0x00000000, 0x00000002, 0x04200802,
                    0x00000000, 0x00200802, 0x04200000, 0x00000800,
                    0x04000002, 0x04000800, 0x00000800, 0x00200002))
  }

  function SB8(i: bv32): bv32
    requires i <= 0x3F
  {
    Pick4(i >> 4,
          Pick16(i, 0x10001040, 0x00001000, 0x00040000, 0x10041040,
                    0x10000000, 0x10001040, 0x00000040, 0x10000000,
                    0x00040040, 0x10040000, 0x10041040, 0x00041000,
                    0x10041000, 0x00041040, 0x00001000, 0x00000040),
          Pick16(i, 0x10040000, 0x10000040, 0x10001000, 0x00001040,
                    0x00041000, 0x00040040, 0x10040040, 0x10041000,
                    0x00001040, 0x00000000, 0x00000000, 0x10040040,
                    0x10000040, 0x10001000, 0x00041040, 0x00040000),
          Pick16(i, 0x00041040, 0x00040000, 0x10041000, 0x00001000,
                    0x00000040, 0x10040040, 0x00001000, 0x00041040,
                    0x10001000, 0x00000040, 0x10000040, 0x10040000,
                    0x10040040, 0x10000000, 0x00040000, 0x10001040),
          Pick16(i, 0x00000000, 0x10041040, 0x00040040, 0x10000040,
                    0x10040000, 0x10001000, 0x10001040, 0x00000000,
                    0x10041040, 0x00041000, 0x00041000, 0x00001040,
                    0x00001040, 0x00040040, 0x10000000, 0x10041000))
  }

  function Lhs(i: bv32): bv32
    requires i <= 0xF
  {
    Pick16(i, 0x00000000, 0x00000001, 0x00000100, 0x00000101,
              0x00010000, 0x00010001, 0x00010100, 0x00010101,
              0x01000000, 0x01000001, 0x01000100, 0x01000101,
              0x01010000, 0x01010001, 0x01010100, 0x01010101)
  }

  function Rhs(i: bv32): bv32
    requires i <= 0xF
  {
    Pick16(i, 0x00000000, 0x01000000, 0x00010000, 0x01010000,
              0x00000100, 0x01000100, 0x00010100, 0x01010100,
              0x00000001, 0x01000001, 0x00010001, 0x01010001,
              0x00000101, 0x01000101, 0x00010101, 0x01010101)
  }
}
