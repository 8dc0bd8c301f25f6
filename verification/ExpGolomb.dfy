/** The bit reader of src/nal_bitreader.c and the Exp-Golomb codes of section 9.1 of ITU-T H.264. */
module ExpGolomb {
  import opened Bytes
  import opened Bits
  import opened CArith
  import Bitstream

  const UINT_RANGE := 0x1_0000_0000

  /** What a truncated read_bits returns, 0xFFFFFFFF, is this as an int. */
  const OVERRUN := -1

  // ---------------------------------------------------------------- the codes

  /** How many zero bits come first. */
  function LeadingZeros(bits: seq<bit>): (z: nat)
    ensures z <= |bits|
    ensures z < |bits| ==> bits[z] == 1
    ensures forall i :: 0 <= i < z ==> bits[i] == 0
  {
    if bits == [] || bits[0] == 1 then 0 else 1 + LeadingZeros(bits[1..])
  }

  /** A value read, or -1, and how many bits that took. */
  datatype Reading = Reading(value: int, used: nat)

  /** The unsigned code at the front. A code cut short after its marker bit is read as if its suffix were minus one. */
  function ReadUe(bits: seq<bit>): Reading
  {
    var z := LeadingZeros(bits);
    if z == |bits| then Reading(-1, |bits|)
    else if z > 31 then Reading(-1, z + 1)
    else
      var rest := bits[z + 1..];
      if z <= |rest| then Reading(Pow2(z) - 1 + FromBits(rest[..z]), 2 * z + 1)
      else Reading(Pow2(z) - 1 + OVERRUN, |bits|)
  }

  function Signed(codeNum: int): int
  {
    if codeNum % 2 == 1 then (codeNum + 1) / 2 else -(codeNum / 2)
  }

  function ReadSe(bits: seq<bit>): Reading
  {
    var u := ReadUe(bits);
    Reading(Signed(u.value), u.used)
  }

  function Log2(n: nat): (k: nat)
    requires n > 0
    ensures Pow2(k) <= n < 2 * Pow2(k)
  {
    if n == 1 then 0 else 1 + Log2(n / 2)
  }

  function ZeroBits(n: nat): (s: seq<bit>)
    ensures |s| == n
  {
    seq(n, _ => 0)
  }

  /** Section 9.1: leading zeros, then the value plus one in one bit more. */
  function EncodeUe(v: nat): seq<bit>
  {
    ZeroBits(Log2(v + 1)) + ToBits(v + 1, Log2(v + 1) + 1)
  }

  /** Section 9.1.1: 0, 1, -1, 2, -2, ... */
  function EncodeSe(v: int): seq<bit>
  {
    EncodeUe(if v > 0 then 2 * v - 1 else -2 * v)
  }

  // ---------------------------------------------------------------- the reader

  class NalBitReader {
    const data: Bytes
    var bitPos: nat

    constructor (buf: Bytes)
      ensures data == buf && bitPos == 0
    {
      data, bitPos := buf, 0;
    }

    ghost predicate Valid()
      reads this
    {
      bitPos <= 8 * |data|
    }

    ghost function Left(): (s: seq<bit>)
      requires Valid()
      reads this
    {
      BytesBits(data)[bitPos..]
    }

    method ReadBit() returns (b: int)
      requires Valid()
      modifies this
      ensures Valid()
      ensures old(Left()) == [] ==> b == -1 && Left() == []
      ensures old(Left()) != [] ==> b == old(Left())[0] && Left() == old(Left())[1..]
    {
      if bitPos >= |data| * 8 {
        return -1;
      }
      var byteOffset, bitOffset := bitPos / 8, 7 - bitPos % 8;
      DataBit(data, bitPos);
      bitPos := bitPos + 1;
      b := data[byteOffset] as int / Pow2(bitOffset) % 2;
    }

    method ReadBits(n: nat) returns (result: nat)
      requires Valid()
      modifies this
      ensures Valid()
      ensures n <= |old(Left())| ==> result == FromBits(old(Left())[..n]) % UINT_RANGE && Left() == old(Left())[n..]
      ensures n > |old(Left())| ==> result == 0xFFFF_FFFF && Left() == []
    {
      result := 0;
      ghost var left := Left();
      for i := 0 to n
        invariant Valid() && i <= |left| && Left() == left[i..]
        invariant result == FromBits(left[..i]) % UINT_RANGE
      {
        var b := ReadBit();
        if b < 0 {
          return 0xFFFF_FFFF;
        }
        assert left[..i + 1] == left[..i] + [b];
        FromBitsSnoc(left[..i], b);
        DoubleModulo(FromBits(left[..i]), b);
        result := (2 * result + b) % UINT_RANGE;
      }
    }

    /** read_ue; after thirty-one leading zeros, where an int is shifted by thirty-one, nothing is said of the value. */
    method ReadUnsigned() returns (v: int)
      requires Valid()
      modifies this
      ensures Valid()
      ensures var r := ReadUe(old(Left()));
        && r.used <= |old(Left())| && Left() == old(Left())[r.used..]
        && (LeadingZeros(old(Left())) != 31 ==> v == r.value)
    {
      hide LeadingZeros, ReadUe, FromBits, Pow2, BytesBits;
      ghost var left := Left();
      var leadingZeroBits := -1;
      var b := 0;
      while b == 0
        invariant Valid() && b in {0, 1} && -1 <= leadingZeroBits < |left| && Left() == left[leadingZeroBits + 1..]
        invariant b == 0 ==> forall i :: 0 <= i <= leadingZeroBits ==> left[i] == 0
        invariant b == 1 ==> leadingZeroBits == LeadingZeros(left) < |left|
        decreases |left| - leadingZeroBits, 1 - b
      {
        b := ReadBit();
        ZerosSoFar(left, leadingZeroBits + 1);
        if b < 0 {
          NoCode(left, |left|);
          return -1;
        }
        leadingZeroBits := leadingZeroBits + 1;
      }
      if leadingZeroBits > 31 {
        NoCode(left, leadingZeroBits);
        return -1;
      }
      var infoBits := ReadBits(leadingZeroBits);
      ReadUeIs(left, leadingZeroBits, infoBits);
      v := Pow2(leadingZeroBits) - 1 + if infoBits < 0x8000_0000 then infoBits else infoBits - UINT_RANGE;
    }

    method ReadSigned() returns (v: int)
      requires Valid()
      modifies this
      ensures Valid()
      ensures var r := ReadSe(old(Left()));
        && r.used <= |old(Left())| && Left() == old(Left())[r.used..]
        && (LeadingZeros(old(Left())) != 31 ==> v == r.value)
    {
      var codeNum := ReadUnsigned();
      v := if codeNum % 2 == 1 then (codeNum + 1) / 2 else -(codeNum / 2);
    }
  }

  // ---------------------------------------------------------------- lemmas for the reader

  lemma DataBit(data: Bytes, pos: nat)
    requires pos < 8 * |data|
    ensures data[pos / 8] as int / Pow2(7 - pos % 8) % 2 == BytesBits(data)[pos]
  {
    hide BytesBits, ToBits, Pow2;
    var i, k := pos / 8, pos % 8;
    BitsOfByteAt(data, i);
    Bitstream.BitAt(data[i], 8, k);
    assert BytesBits(data)[8 * i..8 * i + 8][k] == BytesBits(data)[pos];
    assert 8 - 1 - k == 7 - k;
  }

  lemma DoubleModulo(v: nat, b: bit)
    ensures (2 * (v % UINT_RANGE) + b) % UINT_RANGE == (2 * v + b) % UINT_RANGE
  {
  }

  lemma ZerosSoFar(bits: seq<bit>, n: nat)
    requires n <= |bits| && forall i :: 0 <= i < n ==> bits[i] == 0
    ensures n <= LeadingZeros(bits) <= |bits|
    ensures n < |bits| && bits[n] == 1 ==> LeadingZeros(bits) == n
  {
  }

  lemma NoCode(left: seq<bit>, z: nat)
    requires z == LeadingZeros(left) && (z == |left| || z > 31)
    ensures ReadUe(left) == Reading(-1, if z == |left| then z else z + 1)
  {
  }

  lemma InfoFits(bits: seq<bit>, z: nat)
    requires z <= 30
    ensures z <= |bits| ==> FromBits(bits[..z]) < 0x8000_0000
  {
    if z <= |bits| {
      BitsOfValue(bits[..z]);
      Pow2Up(z, 30);
      Pow2Of30();
    }
  }

  /** What read_ue makes of the bits behind the marker. */
  lemma ReadUeIs(left: seq<bit>, z: nat, info: nat)
    requires z == LeadingZeros(left) < |left| && z <= 31
    requires var rest := left[z + 1..];
      info == if z <= |rest| then FromBits(rest[..z]) % UINT_RANGE else 0xFFFF_FFFF
    ensures ReadUe(left).used == if z <= |left[z + 1..]| then 2 * z + 1 else |left|
    ensures z < 31 ==> ReadUe(left).value == Pow2(z) - 1 + if info < 0x8000_0000 then info else info - UINT_RANGE
  {
    hide FromBits, Pow2, LeadingZeros;
    if z < 31 { InfoFits(left[z + 1..], z); }
  }

  lemma {:induction false} Pow2Up(a: nat, b: nat)
    requires a <= b
    ensures Pow2(a) <= Pow2(b)
  {
    if a < b {
      Pow2Up(a, b - 1);
    }
  }

  lemma Pow2Of30()
    ensures Pow2(30) == 0x4000_0000
  {
    Pow2Of8();
    assert Pow2(16) == 0x1_0000;
    assert Pow2(24) == 0x100_0000;
  }

  // ---------------------------------------------------------------- decoding undoes encoding

  lemma LeadingZerosOf(n: nat, rest: seq<bit>)
    ensures LeadingZeros(ZeroBits(n) + [1] + rest) == n
  {
    var bits: seq<bit> := ZeroBits(n) + [1] + rest;
    ZerosSoFar(bits, n);
  }

  /** The top bit of a number is one; the others are the rest of it. */
  lemma {:induction false} MarkerFirst(n: nat, z: nat)
    requires Pow2(z) <= n < 2 * Pow2(z)
    ensures ToBits(n, z + 1) == [1] + ToBits(n - Pow2(z), z)
  {
    if z == 0 {
      assert n == 1;
      assert ToBits(0, 0) == [] && ToBits(1 / 2, 0) == [];
    } else {
      MarkerFirst(n / 2, z - 1);
      assert (n - Pow2(z)) / 2 == n / 2 - Pow2(z - 1) && (n - Pow2(z)) % 2 == n % 2;
    }
  }

  lemma Log2Bound(v: nat)
    requires v + 1 < 0x8000_0000
    ensures Log2(v + 1) <= 30
  {
    Pow2Of30();
    assert Pow2(31) == 0x8000_0000;
    if Log2(v + 1) > 30 {
      Pow2Up(31, Log2(v + 1));
    }
  }

  /** A code is zeros, a marker, and as many bits of the rest. */
  lemma CodeParts(v: nat)
    ensures var z := Log2(v + 1); EncodeUe(v) == ZeroBits(z) + [1] + ToBits(v + 1 - Pow2(z), z)
  {
    MarkerFirst(v + 1, Log2(v + 1));
  }

  lemma Below(r: nat, p: nat)
    requires r < p
    ensures r % p == r
  {
  }

  lemma Suffix(zeros: seq<bit>, info: seq<bit>, rest: seq<bit>)
    ensures zeros + [1] + info + rest == zeros + [1] + (info + rest)
    ensures (zeros + [1] + (info + rest))[|zeros| + 1..] == info + rest
    ensures (info + rest)[..|info|] == info
  {
  }

  /** read_ue on a code returns the number encoded and takes the code's bits and no more, whatever follows. */
  lemma UeRoundTrip(v: nat, rest: seq<bit>)
    requires v <= 0x7FFF_FFFE
    ensures LeadingZeros(EncodeUe(v) + rest) <= 30
    ensures ReadUe(EncodeUe(v) + rest) == Reading(v, |EncodeUe(v)|)
  {
    hide EncodeUe, LeadingZeros, ZeroBits, Log2, ToBits, FromBits, Pow2;
    var z := Log2(v + 1);
    var info := ToBits(v + 1 - Pow2(z), z);
    CodeParts(v);
    Log2Bound(v);
    Suffix(ZeroBits(z), info, rest);
    LeadingZerosOf(z, info + rest);
    BitsRoundTrip(v + 1 - Pow2(z), z);
    Below(v + 1 - Pow2(z), Pow2(z));
  }

  lemma SeRoundTrip(v: int, rest: seq<bit>)
    requires -0x3FFF_FFFF <= v <= 0x3FFF_FFFF
    ensures LeadingZeros(EncodeSe(v) + rest) <= 30
    ensures ReadSe(EncodeSe(v) + rest) == Reading(v, |EncodeSe(v)|)
  {
    hide EncodeUe, LeadingZeros, ReadUe;
    UeRoundTrip(if v > 0 then 2 * v - 1 else -2 * v, rest);
  }

  /** A syntax element, coded ue(v) or se(v). */
  datatype Element = Ue(v: nat) | Se(s: int)

  predicate Fits(e: Element)
  {
    match e case Ue(v) => v <= 0x7FFF_FFFE case Se(v) => -0x3FFF_FFFF <= v <= 0x3FFF_FFFF
  }

  function Code(e: Element): seq<bit>
  {
    match e case Ue(v) => EncodeUe(v) case Se(v) => EncodeSe(v)
  }

  function CodeAll(es: seq<Element>): seq<bit>
  {
    if es == [] then [] else Code(es[0]) + CodeAll(es[1..])
  }

  /** Reads as many elements, of the same kinds, one after another. */
  function ReadAll(bits: seq<bit>, kinds: seq<Element>): (r: (seq<int>, nat))
    ensures |r.0| == |kinds|
    decreases |kinds|
  {
    if kinds == [] then ([], 0)
    else
      var one := if kinds[0].Ue? then ReadUe(bits) else ReadSe(bits);
      var more := ReadAll(if one.used <= |bits| then bits[one.used..] else [], kinds[1..]);
      ([one.value] + more.0, one.used + more.1)
  }

  function Values(es: seq<Element>): seq<int>
  {
    seq(|es|, i requires 0 <= i < |es| => if es[i].Ue? then es[i].v else es[i].s)
  }

  /** Reading a concatenation of codes returns the list encoded and consumes exactly its bits. */
  lemma {:induction false} ListRoundTrip(es: seq<Element>, rest: seq<bit>)
    requires forall i :: 0 <= i < |es| ==> Fits(es[i])
    ensures ReadAll(CodeAll(es) + rest, es) == (Values(es), |CodeAll(es)|)
  {
    hide EncodeUe, EncodeSe, ReadUe, ReadSe, LeadingZeros;
    if es != [] {
      var one, more := Code(es[0]), CodeAll(es[1..]);
      assert CodeAll(es) + rest == one + (more + rest);
      assert (one + (more + rest))[|one|..] == more + rest;
      assert Fits(es[0]);
      match es[0] {
        case Ue(v) => UeRoundTrip(v, more + rest);
        case Se(v) => SeRoundTrip(v, more + rest);
      }
      ListRoundTrip(es[1..], rest);
      assert Values(es) == [if es[0].Ue? then es[0].v else es[0].s] + Values(es[1..]);
    }
  }

  /** A code cut short after its marker bit is not reported: it reads as two to the number of zeros, less two. */
  lemma TruncatedReads(z: nat, info: seq<bit>)
    requires |info| < z <= 30
    ensures ReadUe(ZeroBits(z) + [1] + info) == Reading(Pow2(z) - 2, z + 1 + |info|)
  {
    LeadingZerosOf(z, info);
  }

  /** read_ue reports an error exactly when no marker bit comes, or none within thirty-two bits. */
  lemma FailsExactlyWhen(bits: seq<bit>)
    ensures ReadUe(bits).value == -1 <==> LeadingZeros(bits) == |bits| || LeadingZeros(bits) > 31
  {
    var z := LeadingZeros(bits);
    if z > 0 { assert Pow2(z) == 2 * Pow2(z - 1); }
  }

  /**
   * read_se reads every error of read_ue as 0, which is also what it reads for the number 0: nothing tells them
   * apart.
   */
  lemma ErrorsReadZero(bits: seq<bit>)
    ensures ReadUe(bits).value == -1 ==> ReadSe(bits) == Reading(0, ReadUe(bits).used)
    ensures ReadSe(bits).value == 0 <==> ReadUe(bits).value in {-1, 0}
    ensures ReadUe(bits).value >= -1
  {
    hide FromBits, LeadingZeros;
    var z := LeadingZeros(bits);
    if z > 0 { assert Pow2(z) == 2 * Pow2(z - 1); }
  }
}
