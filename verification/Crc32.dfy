/**
 * CRC-32 of PSI sections, src/crc32.c: a table-driven fold against the
 * bit-serial division by 0x04C11DB7 of Annex A of ISO/IEC 13818-1.
 */
module Crc32 {
  import opened Wrappers

  const POLYNOMIAL: bv32 := 0x04c11db7
  const INITIAL: bv32 := 0xffff_ffff

  // ---------------------------------------------------------------- the table, sixteen entries a row

  function Row0(k: bv8): bv32
  {
    if k == 0 then 0x00000000 else if k == 1 then 0x04c11db7 else if k == 2 then 0x09823b6e else
    if k == 3 then 0x0d4326d9 else if k == 4 then 0x130476dc else if k == 5 then 0x17c56b6b else
    if k == 6 then 0x1a864db2 else if k == 7 then 0x1e475005 else if k == 8 then 0x2608edb8 else
    if k == 9 then 0x22c9f00f else if k == 10 then 0x2f8ad6d6 else if k == 11 then 0x2b4bcb61 else
    if k == 12 then 0x350c9b64 else if k == 13 then 0x31cd86d3 else if k == 14 then 0x3c8ea00a else
    0x384fbdbd
  }

  function Row1(k: bv8): bv32
  {
    if k == 0 then 0x4c11db70 else if k == 1 then 0x48d0c6c7 else if k == 2 then 0x4593e01e else
    if k == 3 then 0x4152fda9 else if k == 4 then 0x5f15adac else if k == 5 then 0x5bd4b01b else
    if k == 6 then 0x569796c2 else if k == 7 then 0x52568b75 else if k == 8 then 0x6a1936c8 else
    if k == 9 then 0x6ed82b7f else if k == 10 then 0x639b0da6 else if k == 11 then 0x675a1011 else
    if k == 12 then 0x791d4014 else if k == 13 then 0x7ddc5da3 else if k == 14 then 0x709f7b7a else
    0x745e66cd
  }

  function Row2(k: bv8): bv32
  {
    if k == 0 then 0x9823b6e0 else if k == 1 then 0x9ce2ab57 else if k == 2 then 0x91a18d8e else
    if k == 3 then 0x95609039 else if k == 4 then 0x8b27c03c else if k == 5 then 0x8fe6dd8b else
    if k == 6 then 0x82a5fb52 else if k == 7 then 0x8664e6e5 else if k == 8 then 0xbe2b5b58 else
    if k == 9 then 0xbaea46ef else if k == 10 then 0xb7a96036 else if k == 11 then 0xb3687d81 else
    if k == 12 then 0xad2f2d84 else if k == 13 then 0xa9ee3033 else if k == 14 then 0xa4ad16ea else
    0xa06c0b5d
  }

  function Row3(k: bv8): bv32
  {
    if k == 0 then 0xd4326d90 else if k == 1 then 0xd0f37027 else if k == 2 then 0xddb056fe else
    if k == 3 then 0xd9714b49 else if k == 4 then 0xc7361b4c else if k == 5 then 0xc3f706fb else
    if k == 6 then 0xceb42022 else if k == 7 then 0xca753d95 else if k == 8 then 0xf23a8028 else
    if k == 9 then 0xf6fb9d9f else if k == 10 then 0xfbb8bb46 else if k == 11 then 0xff79a6f1 else
    if k == 12 then 0xe13ef6f4 else if k == 13 then 0xe5ffeb43 else if k == 14 then 0xe8bccd9a else
    0xec7dd02d
  }

  function Row4(k: bv8): bv32
  {
    if k == 0 then 0x34867077 else if k == 1 then 0x30476dc0 else if k == 2 then 0x3d044b19 else
    if k == 3 then 0x39c556ae else if k == 4 then 0x278206ab else if k == 5 then 0x23431b1c else
    if k == 6 then 0x2e003dc5 else if k == 7 then 0x2ac12072 else if k == 8 then 0x128e9dcf else
    if k == 9 then 0x164f8078 else if k == 10 then 0x1b0ca6a1 else if k == 11 then 0x1fcdbb16 else
    if k == 12 then 0x018aeb13 else if k == 13 then 0x054bf6a4 else if k == 14 then 0x0808d07d else
    0x0cc9cdca
  }

  function Row5(k: bv8): bv32
  {
    if k == 0 then 0x7897ab07 else if k == 1 then 0x7c56b6b0 else if k == 2 then 0x71159069 else
    if k == 3 then 0x75d48dde else if k == 4 then 0x6b93dddb else if k == 5 then 0x6f52c06c else
    if k == 6 then 0x6211e6b5 else if k == 7 then 0x66d0fb02 else if k == 8 then 0x5e9f46bf else
    if k == 9 then 0x5a5e5b08 else if k == 10 then 0x571d7dd1 else if k == 11 then 0x53dc6066 else
    if k == 12 then 0x4d9b3063 else if k == 13 then 0x495a2dd4 else if k == 14 then 0x44190b0d else
    0x40d816ba
  }

  function Row6(k: bv8): bv32
  {
    if k == 0 then 0xaca5c697 else if k == 1 then 0xa864db20 else if k == 2 then 0xa527fdf9 else
    if k == 3 then 0xa1e6e04e else if k == 4 then 0xbfa1b04b else if k == 5 then 0xbb60adfc else
    if k == 6 then 0xb6238b25 else if k == 7 then 0xb2e29692 else if k == 8 then 0x8aad2b2f else
    if k == 9 then 0x8e6c3698 else if k == 10 then 0x832f1041 else if k == 11 then 0x87ee0df6 else
    if k == 12 then 0x99a95df3 else if k == 13 then 0x9d684044 else if k == 14 then 0x902b669d else
    0x94ea7b2a
  }

  function Row7(k: bv8): bv32
  {
    if k == 0 then 0xe0b41de7 else if k == 1 then 0xe4750050 else if k == 2 then 0xe9362689 else
    if k == 3 then 0xedf73b3e else if k == 4 then 0xf3b06b3b else if k == 5 then 0xf771768c else
    if k == 6 then 0xfa325055 else if k == 7 then 0xfef34de2 else if k == 8 then 0xc6bcf05f else
    if k == 9 then 0xc27dede8 else if k == 10 then 0xcf3ecb31 else if k == 11 then 0xcbffd686 else
    if k == 12 then 0xd5b88683 else if k == 13 then 0xd1799b34 else if k == 14 then 0xdc3abded else
    0xd8fba05a
  }

  function Row8(k: bv8): bv32
  {
    if k == 0 then 0x690ce0ee else if k == 1 then 0x6dcdfd59 else if k == 2 then 0x608edb80 else
    if k == 3 then 0x644fc637 else if k == 4 then 0x7a089632 else if k == 5 then 0x7ec98b85 else
    if k == 6 then 0x738aad5c else if k == 7 then 0x774bb0eb else if k == 8 then 0x4f040d56 else
    if k == 9 then 0x4bc510e1 else if k == 10 then 0x46863638 else if k == 11 then 0x42472b8f else
    if k == 12 then 0x5c007b8a else if k == 13 then 0x58c1663d else if k == 14 then 0x558240e4 else
    0x51435d53
  }

  function Row9(k: bv8): bv32
  {
    if k == 0 then 0x251d3b9e else if k == 1 then 0x21dc2629 else if k == 2 then 0x2c9f00f0 else
    if k == 3 then 0x285e1d47 else if k == 4 then 0x36194d42 else if k == 5 then 0x32d850f5 else
    if k == 6 then 0x3f9b762c else if k == 7 then 0x3b5a6b9b else if k == 8 then 0x0315d626 else
    if k == 9 then 0x07d4cb91 else if k == 10 then 0x0a97ed48 else if k == 11 then 0x0e56f0ff else
    if k == 12 then 0x1011a0fa else if k == 13 then 0x14d0bd4d else if k == 14 then 0x19939b94 else
    0x1d528623
  }

  function RowA(k: bv8): bv32
  {
    if k == 0 then 0xf12f560e else if k == 1 then 0xf5ee4bb9 else if k == 2 then 0xf8ad6d60 else
    if k == 3 then 0xfc6c70d7 else if k == 4 then 0xe22b20d2 else if k == 5 then 0xe6ea3d65 else
    if k == 6 then 0xeba91bbc else if k == 7 then 0xef68060b else if k == 8 then 0xd727bbb6 else
    if k == 9 then 0xd3e6a601 else if k == 10 then 0xdea580d8 else if k == 11 then 0xda649d6f else
    if k == 12 then 0xc423cd6a else if k == 13 then 0xc0e2d0dd else if k == 14 then 0xcda1f604 else
    0xc960ebb3
  }

  function RowB(k: bv8): bv32
  {
    if k == 0 then 0xbd3e8d7e else if k == 1 then 0xb9ff90c9 else if k == 2 then 0xb4bcb610 else
    if k == 3 then 0xb07daba7 else if k == 4 then 0xae3afba2 else if k == 5 then 0xaafbe615 else
    if k == 6 then 0xa7b8c0cc else if k == 7 then 0xa379dd7b else if k == 8 then 0x9b3660c6 else
    if k == 9 then 0x9ff77d71 else if k == 10 then 0x92b45ba8 else if k == 11 then 0x9675461f else
    if k == 12 then 0x8832161a else if k == 13 then 0x8cf30bad else if k == 14 then 0x81b02d74 else
    0x857130c3
  }

  function RowC(k: bv8): bv32
  {
    if k == 0 then 0x5d8a9099 else if k == 1 then 0x594b8d2e else if k == 2 then 0x5408abf7 else
    if k == 3 then 0x50c9b640 else if k == 4 then 0x4e8ee645 else if k == 5 then 0x4a4ffbf2 else
    if k == 6 then 0x470cdd2b else if k == 7 then 0x43cdc09c else if k == 8 then 0x7b827d21 else
    if k == 9 then 0x7f436096 else if k == 10 then 0x7200464f else if k == 11 then 0x76c15bf8 else
    if k == 12 then 0x68860bfd else if k == 13 then 0x6c47164a else if k == 14 then 0x61043093 else
    0x65c52d24
  }

  function RowD(k: bv8): bv32
  {
    if k == 0 then 0x119b4be9 else if k == 1 then 0x155a565e else if k == 2 then 0x18197087 else
    if k == 3 then 0x1cd86d30 else if k == 4 then 0x029f3d35 else if k == 5 then 0x065e2082 else
    if k == 6 then 0x0b1d065b else if k == 7 then 0x0fdc1bec else if k == 8 then 0x3793a651 else
    if k == 9 then 0x3352bbe6 else if k == 10 then 0x3e119d3f else if k == 11 then 0x3ad08088 else
    if k == 12 then 0x2497d08d else if k == 13 then 0x2056cd3a else if k == 14 then 0x2d15ebe3 else
    0x29d4f654
  }

  function RowE(k: bv8): bv32
  {
    if k == 0 then 0xc5a92679 else if k == 1 then 0xc1683bce else if k == 2 then 0xcc2b1d17 else
    if k == 3 then 0xc8ea00a0 else if k == 4 then 0xd6ad50a5 else if k == 5 then 0xd26c4d12 else
    if k == 6 then 0xdf2f6bcb else if k == 7 then 0xdbee767c else if k == 8 then 0xe3a1cbc1 else
    if k == 9 then 0xe760d676 else if k == 10 then 0xea23f0af else if k == 11 then 0xeee2ed18 else
    if k == 12 then 0xf0a5bd1d else if k == 13 then 0xf464a0aa else if k == 14 then 0xf9278673 else
    0xfde69bc4
  }

  function RowF(k: bv8): bv32
  {
    if k == 0 then 0x89b8fd09 else if k == 1 then 0x8d79e0be else if k == 2 then 0x803ac667 else
    if k == 3 then 0x84fbdbd0 else if k == 4 then 0x9abc8bd5 else if k == 5 then 0x9e7d9662 else
    if k == 6 then 0x933eb0bb else if k == 7 then 0x97ffad0c else if k == 8 then 0xafb010b1 else
    if k == 9 then 0xab710d06 else if k == 10 then 0xa6322bdf else if k == 11 then 0xa2f33668 else
    if k == 12 then 0xbcb4666d else if k == 13 then 0xb8757bda else if k == 14 then 0xb5365d03 else
    0xb1f740b4
  }

  /** crc32_table. */
  function Table(i: bv8): bv32
  {
    if i >> 4 == 0 then Row0(i & 0xf) else
    if i >> 4 == 1 then Row1(i & 0xf) else
    if i >> 4 == 2 then Row2(i & 0xf) else
    if i >> 4 == 3 then Row3(i & 0xf) else
    if i >> 4 == 4 then Row4(i & 0xf) else
    if i >> 4 == 5 then Row5(i & 0xf) else
    if i >> 4 == 6 then Row6(i & 0xf) else
    if i >> 4 == 7 then Row7(i & 0xf) else
    if i >> 4 == 8 then Row8(i & 0xf) else
    if i >> 4 == 9 then Row9(i & 0xf) else
    if i >> 4 == 10 then RowA(i & 0xf) else
    if i >> 4 == 11 then RowB(i & 0xf) else
    if i >> 4 == 12 then RowC(i & 0xf) else
    if i >> 4 == 13 then RowD(i & 0xf) else
    if i >> 4 == 14 then RowE(i & 0xf) else
    RowF(i & 0xf)
  }

  function HighByte(crc: bv32): bv8 { (crc >> 24) as bv8 }

  /** The body of the loops: one byte through the table. */
  function TableStep(crc: bv32, b: bv8): bv32
  {
    (crc << 8) ^ Table(HighByte(crc) ^ b)
  }

  function TableFold(crc: bv32, buf: seq<bv8>): bv32
  {
    if buf == [] then crc else TableStep(TableFold(crc, buf[..|buf| - 1]), buf[|buf| - 1])
  }

  // ---------------------------------------------------------------- bit-serial division

  // The operations on registers have names, so that proofs can go by their laws alone.

  function Xor(x: bv32, y: bv32): bv32 { x ^ y }

  function Double(x: bv32): bv32 { x << 1 }

  predicate Top(x: bv32) { x & 0x8000_0000 != 0 }

  /** A byte at the top of the register. */
  function High(b: bv8): bv32 { (b as bv32) << 24 }

  function Left(b: bv8): bv8 { b << 1 }

  /** The register shifted once with nothing coming in. */
  function Shift(crc: bv32): bv32
  {
    if Top(crc) then Xor(Double(crc), POLYNOMIAL) else Double(crc)
  }

  function Shift8(crc: bv32): bv32
  {
    Shift(Shift(Shift(Shift(Shift(Shift(Shift(Shift(crc))))))))
  }

  /** One message bit, the top bit of `bit`, added to the bit that leaves the register. */
  function BitStep(crc: bv32, bit: bv8): bv32
  {
    if Top(Xor(crc, High(bit))) then Xor(Double(crc), POLYNOMIAL) else Double(crc)
  }

  /** The eight bits of a byte, high bit first. */
  function BitSteps(crc: bv32, b: bv8): bv32
  {
    var c1, b1 := BitStep(crc, b), Left(b);
    var c2, b2 := BitStep(c1, b1), Left(b1);
    var c3, b3 := BitStep(c2, b2), Left(b2);
    var c4, b4 := BitStep(c3, b3), Left(b3);
    var c5, b5 := BitStep(c4, b4), Left(b4);
    var c6, b6 := BitStep(c5, b5), Left(b5);
    var c7, b7 := BitStep(c6, b6), Left(b6);
    BitStep(c7, b7)
  }

  function SerialFold(crc: bv32, buf: seq<bv8>): bv32
  {
    if buf == [] then crc else BitSteps(SerialFold(crc, buf[..|buf| - 1]), buf[|buf| - 1])
  }

  // ---------------------------------------------------------------- laws of the register

  lemma TopOfXor(x: bv32, y: bv32)
    ensures Top(Xor(x, y)) <==> Top(x) != Top(y)
  {
  }

  lemma DoubleOfXor(x: bv32, y: bv32)
    ensures Double(Xor(x, y)) == Xor(Double(x), Double(y))
  {
  }

  lemma Associate(a: bv32, b: bv32, p: bv32, ab: bv32, bp: bv32)
    requires ab == a ^ b && bp == b ^ p
    ensures ab ^ p == a ^ bp
  {
  }

  lemma Twice(a: bv32, b: bv32, p: bv32, ap: bv32, bp: bv32)
    requires ap == a ^ p && bp == b ^ p
    ensures a ^ b == ap ^ bp
  {
  }

  lemma XorAssociate(a: bv32, b: bv32, p: bv32)
    ensures Xor(Xor(a, b), p) == Xor(a, Xor(b, p))
  {
    Associate(a, b, p, Xor(a, b), Xor(b, p));
  }

  lemma XorSymmetric(a: bv32, b: bv32)
    ensures Xor(a, b) == Xor(b, a)
  {
  }

  lemma XorSwap(a: bv32, b: bv32, p: bv32)
    ensures Xor(Xor(a, b), p) == Xor(Xor(a, p), b)
  {
    hide Xor;
    XorAssociate(a, b, p);
    XorSymmetric(b, p);
    XorAssociate(a, p, b);
  }

  lemma XorTwice(a: bv32, b: bv32, p: bv32)
    ensures Xor(a, b) == Xor(Xor(a, p), Xor(b, p))
  {
    Twice(a, b, p, Xor(a, p), Xor(b, p));
  }

  lemma XorRegroup(a: bv32, b: bv32, p: bv32)
    ensures Xor(Xor(a, b), p) == Xor(Xor(a, p), b) == Xor(a, Xor(b, p))
    ensures Xor(a, b) == Xor(Xor(a, p), Xor(b, p))
  {
    hide Xor;
    XorSwap(a, b, p);
    XorAssociate(a, b, p);
    XorTwice(a, b, p);
  }

  lemma XorCancel(a: bv32, b: bv32, p: bv32)
    requires Xor(a, p) == Xor(b, p)
    ensures a == b
  {
  }

  lemma DoubleInjective(x: bv32, y: bv32)
    requires Double(x) == Double(y) && Top(x) == Top(y)
    ensures x == y
  {
  }

  /** The polynomial's low bit tells whether a bit left the register. */
  lemma LowBitTells(x: bv32, y: bv32)
    ensures Xor(Double(x), POLYNOMIAL) != Double(y)
  {
    DoubleEven(x);
    DoubleEven(y);
    PolynomialOdd(Double(x));
  }

  lemma DoubleEven(x: bv32)
    ensures Double(x) & 1 == 0
  {
  }

  lemma PolynomialOdd(x: bv32)
    requires x & 1 == 0
    ensures Xor(x, POLYNOMIAL) & 1 == 1
  {
  }

  lemma HighOfLeft(b: bv8)
    ensures High(Left(b)) == Double(High(b))
  {
  }

  lemma HighNothing(b: bv8, x: bv32)
    ensures Xor(x, High(Left(Left(Left(Left(Left(Left(Left(Left(b)))))))))) == x
  {
  }

  lemma ShiftLinear(x: bv32, y: bv32)
    ensures Shift(Xor(x, y)) == Xor(Shift(x), Shift(y))
  {
    hide Top, Xor, Double;
    TopOfXor(x, y);
    DoubleOfXor(x, y);
    XorRegroup(Double(x), Double(y), POLYNOMIAL);
  }

  lemma Shift8Linear(x: bv32, y: bv32)
    ensures Shift8(Xor(x, y)) == Xor(Shift8(x), Shift8(y))
  {
    hide Shift, Xor;
    var x1, y1 := Shift(x), Shift(y);
    ShiftLinear(x, y);
    var x2, y2 := Shift(x1), Shift(y1);
    ShiftLinear(x1, y1);
    var x3, y3 := Shift(x2), Shift(y2);
    ShiftLinear(x2, y2);
    var x4, y4 := Shift(x3), Shift(y3);
    ShiftLinear(x3, y3);
    var x5, y5 := Shift(x4), Shift(y4);
    ShiftLinear(x4, y4);
    var x6, y6 := Shift(x5), Shift(y5);
    ShiftLinear(x5, y5);
    var x7, y7 := Shift(x6), Shift(y6);
    ShiftLinear(x6, y6);
    ShiftLinear(x7, y7);
  }

  lemma ShiftInjective(x: bv32, y: bv32)
    requires Shift(x) == Shift(y)
    ensures x == y
  {
    hide Top, Xor, Double;
    LowBitTells(x, y);
    LowBitTells(y, x);
    if Top(x) {
      XorCancel(Double(x), Double(y), POLYNOMIAL);
    }
    DoubleInjective(x, y);
  }

  lemma Shift8Injective(x: bv32, y: bv32)
    requires Shift8(x) == Shift8(y)
    ensures x == y
  {
    hide Shift;
    ShiftInjective(Shift(Shift(Shift(Shift(Shift(Shift(Shift(x))))))),
        Shift(Shift(Shift(Shift(Shift(Shift(Shift(y))))))));
    ShiftInjective(Shift(Shift(Shift(Shift(Shift(Shift(x)))))), Shift(Shift(Shift(Shift(Shift(Shift(y)))))));
    ShiftInjective(Shift(Shift(Shift(Shift(Shift(x))))), Shift(Shift(Shift(Shift(Shift(y))))));
    ShiftInjective(Shift(Shift(Shift(Shift(x)))), Shift(Shift(Shift(Shift(y)))));
    ShiftInjective(Shift(Shift(Shift(x))), Shift(Shift(Shift(y))));
    ShiftInjective(Shift(Shift(x)), Shift(Shift(y)));
    ShiftInjective(Shift(x), Shift(y));
    ShiftInjective(x, y);
  }

  /** No bit leaves the register while its high byte is empty. */
  lemma Shift8Low(x: bv32)
    requires x & 0xff00_0000 == 0
    ensures Shift8(x) == x << 8
  {
  }

  // ---------------------------------------------------------------- table against bits

  lemma TableLow(i: bv8)
    requires i & 0xc0 == 0
    ensures Table(i) == Shift8(High(i))
  {
  }

  lemma TableMiddle(i: bv8)
    requires i & 0xc0 == 0x40
    ensures Table(i) == Shift8(High(i))
  {
  }

  lemma TableUpper(i: bv8)
    requires i & 0xc0 == 0x80
    ensures Table(i) == Shift8(High(i))
  {
  }

  lemma TableHigh(i: bv8)
    requires i & 0xc0 == 0xc0
    ensures Table(i) == Shift8(High(i))
  {
  }

  lemma Quarters(i: bv8)
    ensures i & 0xc0 == 0 || i & 0xc0 == 0x40 || i & 0xc0 == 0x80 || i & 0xc0 == 0xc0
  {
  }

  /** Every entry of the table is its index shifted through the register. */
  lemma TableIsShift(i: bv8)
    ensures Table(i) == Shift8(High(i))
  {
    hide Table, Shift8, High;
    Quarters(i);
    if i & 0xc0 == 0 {
      TableLow(i);
    } else if i & 0xc0 == 0x40 {
      TableMiddle(i);
    } else if i & 0xc0 == 0x80 {
      TableUpper(i);
    } else {
      TableHigh(i);
    }
  }

  function Low(crc: bv32): bv32 { crc & 0x00ff_ffff }

  lemma Halves(crc: bv32)
    ensures crc == Xor(High(HighByte(crc)), Low(crc))
  {
  }

  lemma HighOfXor(a: bv8, b: bv8)
    ensures High(a ^ b) == Xor(High(a), High(b))
  {
  }

  lemma LowIsLow(crc: bv32)
    ensures Low(crc) & 0xff00_0000 == 0
  {
  }

  lemma LowOut(crc: bv32)
    ensures Low(crc) << 8 == crc << 8
  {
  }

  lemma LowShifts(crc: bv32)
    ensures Shift8(Low(crc)) == crc << 8
  {
    hide Shift8, Low;
    LowIsLow(crc);
    LowOut(crc);
    Shift8Low(Low(crc));
  }

  lemma XorCommutes(a: bv32, b: bv32)
    ensures a ^ b == Xor(b, a)
  {
  }

  lemma TableStepParts(crc: bv32, b: bv8)
    ensures TableStep(crc, b) == Xor(Table(HighByte(crc) ^ b), Shift8(Low(crc)))
  {
    hide Table, Shift8, Low, Xor, HighByte;
    LowShifts(crc);
    XorCommutes(crc << 8, Table(HighByte(crc) ^ b));
  }

  lemma TableStepIsShift(crc: bv32, b: bv8)
    ensures TableStep(crc, b) == Shift8(Xor(crc, High(b)))
  {
    hide Shift8, Table, TableStep, High, Xor, HighByte, Low;
    var hi, i := HighByte(crc), HighByte(crc) ^ b;
    TableStepParts(crc, b);
    Halves(crc);
    HighOfXor(hi, b);
    XorRegroup(High(hi), Low(crc), High(b));
    TableIsShift(i);
    Shift8Linear(High(i), Low(crc));
  }

  lemma BitStepIsShift(crc: bv32, bit: bv8)
    ensures Xor(BitStep(crc, bit), High(Left(bit))) == Shift(Xor(crc, High(bit)))
  {
    hide Top, High, Xor, Left, Double;
    HighOfLeft(bit);
    DoubleOfXor(crc, High(bit));
    XorRegroup(Double(crc), Double(High(bit)), POLYNOMIAL);
  }

  lemma BitStepsIsShift(crc: bv32, b: bv8)
    ensures BitSteps(crc, b) == Shift8(Xor(crc, High(b)))
  {
    hide BitStep, Shift, High, Xor, Left;
    var c1, b1 := BitStep(crc, b), Left(b);
    var c2, b2 := BitStep(c1, b1), Left(b1);
    var c3, b3 := BitStep(c2, b2), Left(b2);
    var c4, b4 := BitStep(c3, b3), Left(b3);
    var c5, b5 := BitStep(c4, b4), Left(b4);
    var c6, b6 := BitStep(c5, b5), Left(b5);
    var c7, b7 := BitStep(c6, b6), Left(b6);
    BitStepIsShift(crc, b);
    BitStepIsShift(c1, b1);
    BitStepIsShift(c2, b2);
    BitStepIsShift(c3, b3);
    BitStepIsShift(c4, b4);
    BitStepIsShift(c5, b5);
    BitStepIsShift(c6, b6);
    BitStepIsShift(c7, b7);
    HighNothing(b, BitSteps(crc, b));
  }

  /** For every message the table-driven fold is the bit-serial division. */
  lemma {:induction false} TableIsSerial(crc: bv32, buf: seq<bv8>)
    ensures TableFold(crc, buf) == SerialFold(crc, buf)
  {
    hide TableStep, BitSteps, Shift8, High, Xor;
    if buf != [] {
      var init, last := buf[..|buf| - 1], buf[|buf| - 1];
      TableIsSerial(crc, init);
      TableStepIsShift(TableFold(crc, init), last);
      BitStepsIsShift(TableFold(crc, init), last);
    }
  }

  // ---------------------------------------------------------------- the code

  /** ltntstools_getCRC32. */
  method GetCrc32(buf: seq<bv8>) returns (crc32: Option<bv32>)
    ensures crc32 == if |buf| < 1 then None else Some(SerialFold(INITIAL, buf))
  {
    var crc := INITIAL;
    if |buf| < 1 {
      return None;
    }
    crc := Fold(buf);
    crc32 := Some(crc);
  }

  /** ltntstools_checkCRC32: whether a section is at least four bytes and divides evenly. */
  method CheckCrc32(buf: seq<bv8>) returns (ok: bool)
    ensures ok <==> |buf| >= 4 && SerialFold(INITIAL, buf) == 0
  {
    if |buf| < 4 {
      return false;
    }
    var crc := Fold(buf);
    ok := crc == 0;
  }

  /** The loop both have: byte by byte through the table. */
  method Fold(buf: seq<bv8>) returns (crc: bv32)
    ensures crc == SerialFold(INITIAL, buf)
  {
    hide TableStep, SerialFold;
    crc := INITIAL;
    var p := 0;
    while p < |buf|
      invariant 0 <= p <= |buf| && crc == TableFold(INITIAL, buf[..p])
    {
      assert buf[..p + 1][..p] == buf[..p];
      crc := TableStep(crc, buf[p]);
      p := p + 1;
    }
    assert buf[..p] == buf;
    TableIsSerial(INITIAL, buf);
  }

  // ---------------------------------------------------------------- what the check is worth

  lemma {:induction false} FoldSplit(crc: bv32, a: seq<bv8>, b: seq<bv8>)
    ensures SerialFold(crc, a + b) == SerialFold(SerialFold(crc, a), b)
  {
    hide BitSteps;
    if b == [] {
      assert a + b == a;
    } else {
      var init, last := b[..|b| - 1], b[|b| - 1];
      assert (a + b)[..|a + b| - 1] == a + init;
      FoldSplit(crc, a, init);
    }
  }

  lemma {:induction false} FoldInjective(x: bv32, y: bv32, buf: seq<bv8>)
    requires SerialFold(x, buf) == SerialFold(y, buf)
    ensures x == y
  {
    hide BitSteps, Shift8, Xor, High;
    if buf != [] {
      var init, last := buf[..|buf| - 1], buf[|buf| - 1];
      var u, v := SerialFold(x, init), SerialFold(y, init);
      BitStepsIsShift(u, last);
      BitStepsIsShift(v, last);
      Shift8Injective(Xor(u, High(last)), Xor(v, High(last)));
      XorCancel(u, v, High(last));
      FoldInjective(x, y, init);
    }
  }

  /** Four bytes as a register, first byte on top. */
  function Word(w: seq<bv8>): bv32
    requires |w| == 4
  {
    Xor(Xor(Xor(High(w[0]), Second(w[1])), Third(w[2])), w[3] as bv32)
  }

  function Second(b: bv8): bv32 { (b as bv32) << 16 }

  function Third(b: bv8): bv32 { (b as bv32) << 8 }

  /** A register as four bytes, high byte first. */
  function BigEndian(crc: bv32): seq<bv8>
  {
    [HighByte(crc), SecondByte(crc), ThirdByte(crc), LowByte(crc)]
  }

  function SecondByte(crc: bv32): bv8 { ((crc >> 16) & 0xff) as bv8 }

  function ThirdByte(crc: bv32): bv8 { ((crc >> 8) & 0xff) as bv8 }

  function LowByte(crc: bv32): bv8 { (crc & 0xff) as bv8 }

  function Shift32(crc: bv32): bv32
  {
    Shift8(Shift8(Shift8(Shift8(crc))))
  }

  /** A byte added below the top of the register has reached the top eight shifts later. */
  lemma SinksUp(x: bv32, b: bv8)
    ensures Xor(Shift8(x), High(b)) == Shift8(Xor(x, Second(b)))
    ensures Shift8(Xor(x, Third(b))) == Xor(Shift8(x), Second(b))
    ensures Shift8(Xor(x, b as bv32)) == Xor(Shift8(x), Third(b))
  {
    hide Shift8, Xor;
    LowBytes(b);
    Shift8Low(Second(b));
    Shift8Low(Third(b));
    Shift8Low(b as bv32);
    Shift8Linear(x, Second(b));
    Shift8Linear(x, Third(b));
    Shift8Linear(x, b as bv32);
  }

  lemma LowBytes(b: bv8)
    ensures Second(b) & 0xff00_0000 == 0 && Second(b) << 8 == High(b)
    ensures Third(b) & 0xff00_0000 == 0 && Third(b) << 8 == Second(b)
    ensures (b as bv32) & 0xff00_0000 == 0 && (b as bv32) << 8 == Third(b)
  {
  }

  lemma FoldSnoc(crc: bv32, buf: seq<bv8>, b: bv8)
    ensures SerialFold(crc, buf + [b]) == Shift8(Xor(SerialFold(crc, buf), High(b)))
  {
    hide BitSteps, Shift8, Xor, High;
    assert (buf + [b])[..|buf|] == buf;
    BitStepsIsShift(SerialFold(crc, buf), b);
  }

  /** Four bytes through the register are the register plus the four bytes, shifted thirty-two times. */
  lemma FoldFour(crc: bv32, w: seq<bv8>)
    requires |w| == 4
    ensures SerialFold(crc, w) == Shift32(Xor(crc, Word(w)))
  {
    hide BitSteps, SerialFold, Shift8, Xor, High, Second, Third;
    var w1, w2, w3 := w[..1], w[..2], w[..3];
    assert w1 == [] + [w[0]] && w2 == w1 + [w[1]] && w3 == w2 + [w[2]] && w == w3 + [w[3]];
    FoldNothing(crc);
    FoldSnoc(crc, [], w[0]);
    FoldSnoc(crc, w1, w[1]);
    FoldSnoc(crc, w2, w[2]);
    FoldSnoc(crc, w3, w[3]);
    var x0 := Xor(crc, High(w[0]));
    var x1 := Xor(x0, Second(w[1]));
    var x2 := Xor(x1, Third(w[2]));
    var low := w[3] as bv32;
    SinksUp(x0, w[1]);
    SinksUp(Shift8(x1), w[2]);
    SinksUp(x1, w[2]);
    SinksUp(Shift8(Shift8(x2)), w[3]);
    SinksUp(Shift8(x2), w[3]);
    SinksUp(x2, w[3]);
    XorAssociate(crc, High(w[0]), Second(w[1]));
    XorAssociate(crc, Xor(High(w[0]), Second(w[1])), Third(w[2]));
    XorAssociate(crc, Xor(Xor(High(w[0]), Second(w[1])), Third(w[2])), low);
  }

  lemma FoldNothing(crc: bv32)
    ensures SerialFold(crc, []) == crc
  {
  }

  lemma Shift32Injective(x: bv32, y: bv32)
    requires Shift32(x) == Shift32(y)
    ensures x == y
  {
    hide Shift8;
    Shift8Injective(Shift8(Shift8(Shift8(x))), Shift8(Shift8(Shift8(y))));
    Shift8Injective(Shift8(Shift8(x)), Shift8(Shift8(y)));
    Shift8Injective(Shift8(x), Shift8(y));
    Shift8Injective(x, y);
  }

  lemma Shift32Zero()
    ensures Shift32(0) == 0
  {
  }

  lemma XorSelf(a: bv32)
    ensures Xor(a, a) == 0
  {
  }

  lemma XorZero(a: bv32, b: bv32)
    ensures Xor(a, b) == 0 <==> a == b
  {
    XorSelf(b);
    hide Xor;
    if Xor(a, b) == 0 { XorCancel(a, b, b); }
  }

  lemma WordBytes(w: seq<bv8>)
    requires |w| == 4
    ensures w == BigEndian(Word(w))
  {
    hide HighByte, SecondByte, ThirdByte, LowByte, Word;
    FourBytes(w[0], w[1], w[2], w[3]);
    WordOf(w);
    FourElements(w);
  }

  lemma WordOf(w: seq<bv8>)
    requires |w| == 4
    ensures Word(w) == Xor(Xor(Xor(High(w[0]), Second(w[1])), Third(w[2])), w[3] as bv32)
  {
  }

  lemma FourElements<T>(w: seq<T>)
    requires |w| == 4
    ensures w == [w[0], w[1], w[2], w[3]]
  {
  }

  lemma FourBytes(a: bv8, b: bv8, c: bv8, d: bv8)
    ensures var x := Xor(Xor(Xor(High(a), Second(b)), Third(c)), d as bv32);
      HighByte(x) == a && SecondByte(x) == b && ThirdByte(x) == c && LowByte(x) == d
  {
  }

  lemma BytesWord(crc: bv32)
    ensures Word(BigEndian(crc)) == crc
  {
  }

  /** A section checks exactly when its last four bytes are the CRC of the rest, high byte first. */
  lemma CheckExactly(section: seq<bv8>)
    requires |section| >= 4
    ensures var body, crc := section[..|section| - 4], section[|section| - 4..];
      SerialFold(INITIAL, section) == 0 <==> crc == BigEndian(SerialFold(INITIAL, body))
  {
    hide SerialFold, Shift32, Word, BigEndian, Xor;
    var body, crc := section[..|section| - 4], section[|section| - 4..];
    var c := SerialFold(INITIAL, body);
    assert section == body + crc;
    FoldSplit(INITIAL, body, crc);
    FoldFour(c, crc);
    Shift32Zero();
    if Shift32(Xor(c, Word(crc))) == Shift32(0) {
      Shift32Injective(Xor(c, Word(crc)), 0);
    }
    XorZero(c, Word(crc));
    WordBytes(crc);
    BytesWord(c);
  }

  /** A valid section no longer checks once any change is confined to four consecutive bytes. */
  lemma BurstDetected(section: seq<bv8>, changed: seq<bv8>, at: nat)
    requires at + 4 <= |section| == |changed| && section != changed
    requires section[..at] == changed[..at] && section[at + 4..] == changed[at + 4..]
    requires SerialFold(INITIAL, section) == 0
    ensures SerialFold(INITIAL, changed) != 0
  {
    hide SerialFold;
    var p, q := section[..at], section[at + 4..];
    var v, w := section[at..at + 4], changed[at..at + 4];
    var c := SerialFold(INITIAL, p);
    assert section == p + (v + q) && changed == p + (w + q);
    FoldSplit(INITIAL, p, v + q);
    FoldSplit(INITIAL, p, w + q);
    FoldSplit(c, v, q);
    FoldSplit(c, w, q);
    if SerialFold(INITIAL, changed) == 0 {
      FoldInjective(SerialFold(c, v), SerialFold(c, w), q);
      FourTell(c, v, w);
    }
  }

  /** No two runs of four bytes leave the same remainder. */
  lemma FourTell(c: bv32, v: seq<bv8>, w: seq<bv8>)
    requires |v| == |w| == 4 && SerialFold(c, v) == SerialFold(c, w)
    ensures v == w
  {
    hide SerialFold, Shift32, Word, BigEndian, Xor;
    FoldFour(c, v);
    FoldFour(c, w);
    Shift32Injective(Xor(c, Word(v)), Xor(c, Word(w)));
    XorSymmetric(c, Word(v));
    XorSymmetric(c, Word(w));
    XorCancel(Word(v), Word(w), c);
    WordBytes(v);
    WordBytes(w);
  }

  /** The remainder of the nine digits "123456789", the check value published for this polynomial and start. */
  lemma CheckValue()
    ensures SerialFold(INITIAL, [0x31, 0x32, 0x33, 0x34, 0x35, 0x36, 0x37, 0x38, 0x39]) == 0x0376_e6e7
  {
    hide TableStep, SerialFold, TableFold;
    NoneFolded();
    Digits();
    var s: seq<bv8> := [];
    Next(s, 0xffffffff, 0x31, 0x9efbcf93);
    s := s + [0x31];
    Next(s, 0x9efbcf93, 0x32, 0x3fec5e6a);
    s := s + [0x32];
    Next(s, 0x3fec5e6a, 0x33, 0xd952f164);
    s := s + [0x33];
    Next(s, 0xd952f164, 0x34, 0xa695c4aa);
    s := s + [0x34];
    Next(s, 0xa695c4aa, 0x35, 0xbd9ab747);
    s := s + [0x35];
    Next(s, 0xbd9ab747, 0x36, 0xd8f06c8f);
    s := s + [0x36];
    Next(s, 0xd8f06c8f, 0x37, 0x0d8a14c4);
    s := s + [0x37];
    Next(s, 0x0d8a14c4, 0x38, 0x49e3c2fb);
    s := s + [0x38];
    Next(s, 0x49e3c2fb, 0x39, 0x0376e6e7);
    s := s + [0x39];
    assert s == [0x31, 0x32, 0x33, 0x34, 0x35, 0x36, 0x37, 0x38, 0x39];
    TableIsSerial(INITIAL, s);
  }

  lemma NoneFolded()
    ensures TableFold(INITIAL, []) == 0xffff_ffff
  {
  }

  lemma Next(buf: seq<bv8>, crc: bv32, b: bv8, next: bv32)
    requires TableFold(INITIAL, buf) == crc && TableStep(crc, b) == next
    ensures TableFold(INITIAL, buf + [b]) == next
  {
    assert (buf + [b])[..|buf|] == buf;
  }

  lemma Digits()
    ensures TableStep(0xffffffff, 0x31) == 0x9efbcf93
    ensures TableStep(0x9efbcf93, 0x32) == 0x3fec5e6a
    ensures TableStep(0x3fec5e6a, 0x33) == 0xd952f164
    ensures TableStep(0xd952f164, 0x34) == 0xa695c4aa
    ensures TableStep(0xa695c4aa, 0x35) == 0xbd9ab747
    ensures TableStep(0xbd9ab747, 0x36) == 0xd8f06c8f
    ensures TableStep(0xd8f06c8f, 0x37) == 0x0d8a14c4
    ensures TableStep(0x0d8a14c4, 0x38) == 0x49e3c2fb
    ensures TableStep(0x49e3c2fb, 0x39) == 0x0376e6e7
  {
    DigitStep0();
    DigitStep1();
    DigitStep2();
    DigitStep3();
    DigitStep4();
    DigitStep5();
    DigitStep6();
    DigitStep7();
    DigitStep8();
  }

  lemma DigitStep0()
    ensures TableStep(0xffffffff, 0x31) == 0x9efbcf93
  {
  }

  lemma DigitStep1()
    ensures TableStep(0x9efbcf93, 0x32) == 0x3fec5e6a
  {
  }

  lemma DigitStep2()
    ensures TableStep(0x3fec5e6a, 0x33) == 0xd952f164
  {
  }

  lemma DigitStep3()
    ensures TableStep(0xd952f164, 0x34) == 0xa695c4aa
  {
  }

  lemma DigitStep4()
    ensures TableStep(0xa695c4aa, 0x35) == 0xbd9ab747
  {
  }

  lemma DigitStep5()
    ensures TableStep(0xbd9ab747, 0x36) == 0xd8f06c8f
  {
  }

  lemma DigitStep6()
    ensures TableStep(0xd8f06c8f, 0x37) == 0x0d8a14c4
  {
  }

  lemma DigitStep7()
    ensures TableStep(0x0d8a14c4, 0x38) == 0x49e3c2fb
  {
  }

  lemma DigitStep8()
    ensures TableStep(0x49e3c2fb, 0x39) == 0x0376e6e7
  {
  }
}
