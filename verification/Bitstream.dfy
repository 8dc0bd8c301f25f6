/** The bit reader and writer of src/libltntstools/klbitstream_readwriter.h. */
module Bitstream {
  import opened Bits
  import opened Bytes
  import opened CArith

  class BitStream {
    const buf: array<byte>
    var used: nat
    var regUsed: nat
    var reg: byte
    var overrun: bool
    var truncated: bool

    constructor (buf: array<byte>)
      ensures this.buf == buf && used == 0 && regUsed == 0 && !overrun && !truncated
    {
      this.buf := buf;
      used, regUsed, reg := 0, 0, 0;
      overrun, truncated := false, false;
    }

    // -------------------------------------------------------------- writing

    ghost predicate WriteValid()
      reads this
    {
      used <= buf.Length && regUsed < 8
    }

    /** Everything written: whole bytes in the buffer, then what is in the register. */
    ghost function Written(): (s: seq<bit>)
      requires WriteValid()
      reads this, buf
      ensures |s| == 8 * used + regUsed
    {
      BytesBits(buf[..used]) + ToBits(reg, regUsed)
    }

    /** One bit, the lowest of `b`. A byte that completes goes to the buffer, where there must be room. */
    method WriteBit(b: nat)
      requires WriteValid() && (regUsed == 7 ==> used < buf.Length)
      modifies this`used, this`regUsed, this`reg, this`overrun, buf
      ensures WriteValid() && Written() == old(Written()) + [b % 2]
      ensures overrun == (old(overrun) || old(used) >= buf.Length)
      ensures old(regUsed) < 7 ==> used == old(used) && buf[..] == old(buf[..])
      ensures old(regUsed) == 7 ==> used == old(used) + 1 && buf[..old(used)] == old(buf[..used])
    {
      hide BytesBits, ToBits;
      if used >= buf.Length {
        overrun := true;
      }
      ghost var whole, was := buf[..used], reg;
      var next: byte := (2 * reg as int + b % 2) % 0x100;
      NextRegister(reg, b % 2, regUsed);
      reg := next;
      regUsed := regUsed + 1;
      if regUsed == 8 {
        buf[used] := reg;
        used := used + 1;
        regUsed := 0;
        assert buf[..used] == whole + [next];
        BytesBitsSnoc(whole, next);
        NoBits(reg);
      }
    }

    /** The low `bitcount` bits of `bits`, the highest first. */
    method WriteBits(bits: nat, bitcount: nat)
      requires WriteValid() && 8 * used + regUsed + bitcount <= 8 * buf.Length
      modifies this`used, this`regUsed, this`reg, this`overrun, buf
      ensures WriteValid() && Written() == old(Written()) + ToBits(bits, bitcount)
      ensures overrun == (old(overrun) || (bitcount > 0 && used >= buf.Length))
    {
      hide BytesBits, ToBits, Shifted;
      ghost var was := Written();
      NoBits(Shifted(bits, bitcount));
      var i := bitcount;
      while i > 0
        invariant 0 <= i <= bitcount && WriteValid()
        invariant Written() == was + ToBits(Shifted(bits, i), bitcount - i)
        invariant overrun == (old(overrun) || (i < bitcount && used >= buf.Length))
      {
        i := i - 1;
        NextBit(was, bits, i, bitcount);
        WriteBit(Shifted(bits, i));
        if used >= buf.Length {
          overrun := true;
        }
      }
      NotShifted(bits);
    }

    /**
     * Fills the last byte with zero bits and stores it. The loop runs once too often, so when there
     * was something to fill a stray zero bit is left in the register behind the stored bytes.
     */
    method WriteBufferComplete()
      requires WriteValid() && (regUsed > 0 ==> used < buf.Length)
      modifies this`used, this`regUsed, this`reg, this`overrun, buf
      ensures WriteValid()
      ensures used == old(used) + if old(regUsed) > 0 then 1 else 0
      ensures regUsed == if old(regUsed) > 0 then 1 else 0
      ensures BytesBits(buf[..used]) == old(Written()) + Zeros(if old(regUsed) > 0 then 8 - old(regUsed) else 0)
    {
      hide BytesBits, ToBits;
      if regUsed > 0 {
        ghost var was, u, r := Written(), used, regUsed;
        var i := regUsed;
        while i <= 8
          invariant r <= i <= 9 && WriteValid()
          invariant i < 8 ==> used == u && regUsed == i
          invariant i == 8 ==> used == u + 1 && regUsed == 0
          invariant i == 9 ==> used == u + 1 && regUsed == 1
          invariant i <= 8 ==> Written() == was + Zeros(i - r)
          invariant i == 9 ==> BytesBits(buf[..used]) == was + Zeros(8 - r)
        {
          ghost var whole := buf[..used];
          if i == 8 { NoBits(reg); }
          WriteBit(0);
          if used >= buf.Length {
            overrun := true;
          }
          i := i + 1;
        }
      } else {
        NoBits(reg);
      }
    }

    // -------------------------------------------------------------- reading

    /** The register holds what is left of the last byte taken, at its top. */
    ghost predicate ReadValid()
      reads this`used, this`regUsed, this`reg, buf
    {
      && used <= buf.Length && regUsed < 8
      && (regUsed > 0 ==> used > 0 && reg == buf[used - 1] as int * Pow2(8 - regUsed) % 0x100)
    }

    ghost function Position(): nat
      requires ReadValid()
      reads this`used, this`regUsed, this`reg, buf
    {
      8 * used - regUsed
    }

    /** All the bits of the buffer. */
    ghost function AllBits(): (s: seq<bit>)
      reads buf
      ensures |s| == 8 * buf.Length
    {
      BytesBits(buf[..])
    }

    method ReadBit() returns (b: bit)
      requires ReadValid() && Position() < 8 * buf.Length
      modifies this`used, this`regUsed, this`reg, this`overrun
      ensures ReadValid() && Position() == old(Position()) + 1
      ensures b == AllBits()[old(Position())] && overrun == old(overrun)
    {
      hide BytesBits, ToBits, Pow2;
      ghost var pos := Position();
      if regUsed == 0 {
        Pow2Of0();
        reg := buf[used];
        used := used + 1;
        regUsed := 8;
      }
      ghost var last := buf[used - 1];
      BitsOfByteAt(buf[..], used - 1);
      TopBit(last, 8 - regUsed);
      assert AllBits()[8 * (used - 1)..8 * (used - 1) + 8][8 - regUsed] == AllBits()[pos];
      b := if reg >= 0x80 then 1 else 0;
      reg := 2 * reg as int % 0x100;
      regUsed := regUsed - 1;
    }

    method ReadByteAligned() returns (b: byte)
      requires ReadValid() && used < buf.Length
      modifies this`used, this`overrun
      ensures used == old(used) + 1 && b == buf[old(used)] && overrun == old(overrun)
    {
      b := buf[used];
      used := used + 1;
    }

    /** Between 1 and 64 bits. The aligned fast path returns what the loop would. */
    method ReadBits(bitcount: nat) returns (bits: nat)
      requires ReadValid() && Position() + bitcount <= 8 * buf.Length
      modifies this`used, this`regUsed, this`reg, this`overrun
      ensures ReadValid() && Position() == old(Position()) + bitcount
      ensures bits == FromBits(AllBits()[old(Position())..old(Position()) + bitcount])
      ensures overrun == (old(overrun) || (bitcount > 0 && used >= buf.Length && !(bitcount == 8 && old(regUsed) == 0)))
    {
      hide BytesBits, ToBits, Pow2, FromBits;
      ghost var start, all := Position(), AllBits();
      if bitcount == 8 && regUsed == 0 {
        ByteIsItsBits(buf[..], used);
        bits := ReadByteAligned();
        return;
      }
      bits := 0;
      NothingFromNoBits();
      assert all[start..start] == [];
      for i := 0 to bitcount
        invariant ReadValid() && Position() == start + i
        invariant bits == FromBits(all[start..start + i])
        invariant overrun == (old(overrun) || (i > 0 && used >= buf.Length))
      {
        var b := ReadBit();
        assert all[start..start + i + 1] == all[start..start + i] + [b];
        FromBitsSnoc(all[start..start + i], b);
        bits := 2 * bits + b;
        if used >= buf.Length {
          overrun := true;
        }
      }
    }

    /**
     * What the next read would return, without moving. The check in front of it compares a bit
     * count with bytes, and only raises the flag.
     */
    method PeekBits(bitcount: nat) returns (bits: nat)
      requires ReadValid() && Position() + bitcount <= 8 * buf.Length
      modifies this`overrun
      ensures bits == FromBits(AllBits()[Position()..Position() + bitcount])
      ensures ReadValid() && Position() == old(Position())
      ensures overrun == (old(overrun) || used + bitcount >= buf.Length)
    {
      if used + bitcount >= buf.Length {
        overrun := true;
      }
      hide BytesBits, ToBits, Pow2, FromBits;
      var copy := new BitStream(buf);
      copy.used, copy.regUsed, copy.reg := used, regUsed, reg;
      bits := copy.ReadBits(bitcount);
    }
  }

  // ---------------------------------------------------------------- lemmas about the register

  function Zeros(n: nat): (s: seq<bit>)
    ensures |s| == n
  {
    if n == 0 then [] else Zeros(n - 1) + [0]
  }

  lemma NextRegister(reg: byte, b: bit, n: nat)
    requires n <= 7
    ensures ToBits((2 * reg as int + b) % 0x100, n + 1) == ToBits(reg, n) + [b]
  {
    LowBitsOfByte(2 * reg as int + b, n + 1);
    assert (2 * reg as int + b) / 2 == reg as int && (2 * reg as int + b) % 2 == b;
  }

  lemma {:induction false} HalfOfShifted(v: nat, i: nat)
    ensures Shifted(v, i) / 2 == Shifted(v, i + 1)
  {
    if i > 0 {
      HalfOfShifted(v / 2, i - 1);
    }
  }

  lemma NoBits(v: nat)
    ensures ToBits(v, 0) == []
  {
  }

  lemma Pow2Of0()
    ensures Pow2(0) == 1
  {
  }

  lemma NotShifted(v: nat)
    ensures Shifted(v, 0) == v
  {
  }

  lemma NothingFromNoBits()
    ensures FromBits([]) == 0
  {
  }

  lemma OneMoreBit(v: nat, n: nat)
    requires n > 0
    ensures ToBits(v, n) == ToBits(v / 2, n - 1) + [v % 2]
  {
  }

  /** Shifted right by `i`. */
  function Shifted(v: nat, i: nat): nat
  {
    if i == 0 then v else Shifted(v / 2, i - 1)
  }

  lemma NextBit(was: seq<bit>, bits: nat, i: nat, bitcount: nat)
    requires i < bitcount
    ensures var q := Shifted(bits, i);
      was + ToBits(Shifted(bits, i + 1), bitcount - (i + 1)) + [q % 2] == was + ToBits(q, bitcount - i)
  {
    hide ToBits;
    var q := Shifted(bits, i);
    HalfOfShifted(bits, i);
    hide Shifted;
    OneMoreBit(q, bitcount - i);
    assert was + ToBits(q / 2, bitcount - i - 1) + [q % 2] == was + (ToBits(q / 2, bitcount - i - 1) + [q % 2]);
  }

  lemma {:induction false} BitAt(v: nat, width: nat, k: nat)
    requires k < width
    ensures ToBits(v, width)[k] == v / Pow2(width - 1 - k) % 2
  {
    if k < width - 1 {
      BitAt(v / 2, width - 1, k);
      HalfFirst(v, width - 2 - k);
    }
  }

  lemma HalfFirst(v: nat, i: nat)
    ensures v / 2 / Pow2(i) == v / Pow2(i + 1)
  {
    var p := Pow2(i);
    var q, r := v / 2 / p, v / 2 % p;
    assert v / 2 == p * q + r;
    assert v == (2 * p) * q + (2 * r + v % 2);
    Divided(v, 2 * p, q, 2 * r + v % 2);
  }

  /** The bit at the top of the register is the next bit of the byte it came from. */
  lemma TopBit(b: byte, taken: nat)
    requires taken < 8
    ensures b as int * Pow2(taken) % 0x100 >= 0x80 <==> ToBits(b, 8)[taken] == 1
    ensures 2 * (b as int * Pow2(taken) % 0x100) % 0x100 == b as int * Pow2(taken + 1) % 0x100
  {
    hide ToBits, Pow2;
    BitAt(b, 8, taken);
    SplitPow2(taken, 7 - taken);
    Pow2Of7();
    assert 8 - 1 - taken == 7 - taken;
    TopArithmetic(b, Pow2(taken), Pow2(7 - taken));
    ShiftedRegister(b, taken);
  }

  lemma ShiftedRegister(b: byte, taken: nat)
    ensures 2 * (b as int * Pow2(taken) % 0x100) % 0x100 == b as int * Pow2(taken + 1) % 0x100
  {
    var p := Pow2(taken);
    assert Pow2(taken + 1) == 2 * p;
    hide Pow2;
    assert b as int * (2 * p) == 2 * (b as int * p);
    ShiftOut(b as int * p);
  }

  lemma {:induction false} SplitPow2(a: nat, b: nat)
    ensures Pow2(a + b) == Pow2(a) * Pow2(b)
  {
    if a > 0 { SplitPow2(a - 1, b); }
  }

  lemma Pow2Of7()
    ensures Pow2(7) == 0x80
  {
    Powers();
  }

  lemma TopArithmetic(b: byte, p: nat, q: nat)
    requires p > 0 && q > 0 && p * q == 0x80
    ensures b as int * p % 0x100 >= 0x80 <==> b as int / q % 2 == 1
  {
    var n, low := b as int / q, b as int % q;
    TopParts(b as int, p, q, n, low);
    Divided(b as int * p, 0x100, n / 2, 0x80 * (n % 2) + low * p);
  }

  lemma TopParts(v: nat, p: nat, q: nat, n: nat, low: nat)
    requires p > 0 && p * q == 0x80 && v == q * n + low && low < q
    ensures v * p == 0x80 * n + low * p && low * p < 0x80
  {
    assert v * p == (q * n) * p + low * p;
    assert (q * n) * p == (p * q) * n;
    assert (low + 1) * p <= q * p;
  }

  lemma ShiftOut(v: nat)
    ensures 2 * (v % 0x100) % 0x100 == 2 * v % 0x100
  {
    var r := v % 0x100;
    var e := if 2 * r < 0x100 then 0 else 1;
    Divided(2 * v, 0x100, 2 * (v / 0x100) + e, 2 * r - 0x100 * e);
    Divided(2 * r, 0x100, e, 2 * r - 0x100 * e);
  }

  lemma Powers()
    ensures Pow2(0) == 1 && Pow2(1) == 2 && Pow2(2) == 4 && Pow2(3) == 8 && Pow2(4) == 16
    ensures Pow2(5) == 32 && Pow2(6) == 64 && Pow2(7) == 128 && Pow2(8) == 256
  {
  }

  lemma ByteIsItsBits(bs: Bytes, i: nat)
    requires i < |bs|
    ensures FromBits(BytesBits(bs)[8 * i..8 * i + 8]) == bs[i]
  {
    hide BytesBits, ToBits, FromBits, Pow2;
    BitsOfByteAt(bs, i);
    BitsRoundTrip(bs[i], 8);
    Pow2Of8();
  }
}
