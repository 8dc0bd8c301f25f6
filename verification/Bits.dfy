/** Numbers as bits, most significant first, and bytes as bits. */
module Bits {
  import opened Bytes
  import opened CArith

  type bit = b: int | 0 <= b < 2

  function Pow2(n: nat): (p: nat)
    ensures p > 0
  {
    if n == 0 then 1 else 2 * Pow2(n - 1)
  }

  /** The low `width` bits of `v`. */
  function ToBits(v: nat, width: nat): (s: seq<bit>)
    ensures |s| == width
  {
    if width == 0 then [] else ToBits(v / 2, width - 1) + [v % 2]
  }

  function FromBits(s: seq<bit>): nat
  {
    if s == [] then 0 else 2 * FromBits(s[..|s| - 1]) + s[|s| - 1]
  }

  /** The bits of a run of bytes. */
  function BytesBits(bs: Bytes): (s: seq<bit>)
    ensures |s| == 8 * |bs|
  {
    if bs == [] then [] else BytesBits(bs[..|bs| - 1]) + ToBits(bs[|bs| - 1], 8)
  }

  lemma FromBitsSnoc(s: seq<bit>, b: bit)
    ensures FromBits(s + [b]) == 2 * FromBits(s) + b
  {
    assert (s + [b])[..|s|] == s;
  }

  lemma ModuloTwice(v: nat, p: nat)
    requires p > 0
    ensures v % (2 * p) == 2 * (v / 2 % p) + v % 2
  {
    var q, r := v / 2 / p, v / 2 % p;
    assert v / 2 == p * q + r;
    assert v == (2 * p) * q + (2 * r + v % 2);
    Divided(v, 2 * p, q, 2 * r + v % 2);
  }

  /** Reading back the low bits of a number gives the number modulo their range. */
  lemma {:induction false} BitsRoundTrip(v: nat, width: nat)
    ensures FromBits(ToBits(v, width)) == v % Pow2(width)
  {
    if width > 0 {
      BitsRoundTrip(v / 2, width - 1);
      FromBitsSnoc(ToBits(v / 2, width - 1), v % 2);
      ModuloTwice(v, Pow2(width - 1));
    }
  }

  lemma {:induction false} BitsOfValue(s: seq<bit>)
    ensures ToBits(FromBits(s), |s|) == s && FromBits(s) < Pow2(|s|)
  {
    if s != [] {
      var init, b := s[..|s| - 1], s[|s| - 1];
      BitsOfValue(init);
      assert FromBits(s) / 2 == FromBits(init) && FromBits(s) % 2 == b;
      assert s == init + [b];
    }
  }

  /** Bits above the width do not matter. */
  lemma {:induction false} LowBitsOfByte(v: nat, width: nat)
    requires width <= 8
    ensures ToBits(v % 0x100, width) == ToBits(v, width)
  {
    var m := v % 0x100;
    LowBits(v, m, v / 0x100, width);
  }

  /** Numbers a multiple of 256 apart have the same low bits. */
  lemma {:induction false} LowBits(v: nat, m: nat, k: nat, width: nat)
    requires v == m + k * 0x100 && width <= 8
    ensures ToBits(v, width) == ToBits(m, width)
  {
    LowBitsAt(v, m, k, 8, width);
  }

  lemma HalfPlus(m: nat, p: nat)
    ensures (m + 2 * p) / 2 == m / 2 + p && (m + 2 * p) % 2 == m % 2
  {
  }

  lemma {:induction false} LowBitsAt(v: nat, m: nat, k: nat, size: nat, width: nat)
    requires width <= size && v == m + k * Pow2(size)
    ensures ToBits(v, width) == ToBits(m, width)
  {
    if width > 0 {
      var p := k * Pow2(size - 1);
      assert k * Pow2(size) == 2 * p;
      HalfPlus(m, p);
      LowBitsAt(v / 2, m / 2, k, size - 1, width - 1);
    }
  }

  lemma BytesBitsSnoc(bs: Bytes, b: byte)
    ensures BytesBits(bs + [b]) == BytesBits(bs) + ToBits(b, 8)
  {
    assert (bs + [b])[..|bs|] == bs;
  }

  lemma {:induction false} BytesBitsAppend(a: Bytes, b: Bytes)
    ensures BytesBits(a + b) == BytesBits(a) + BytesBits(b)
  {
    if b == [] {
      assert a + b == a;
    } else {
      hide BytesBits, ToBits;
      var init, last := b[..|b| - 1], b[|b| - 1];
      assert a + b == (a + init) + [last] && b == init + [last];
      BytesBitsSnoc(a + init, last);
      BytesBitsSnoc(init, last);
      BytesBitsAppend(a, init);
    }
  }

  /** The eight bits of one byte of a run. */
  lemma BitsOfByteAt(bs: Bytes, i: nat)
    requires i < |bs|
    ensures BytesBits(bs)[8 * i..8 * i + 8] == ToBits(bs[i], 8)
  {
    hide BytesBits, ToBits;
    Rejoin(bs, i);
    BitsOfMiddleByte(bs[..i], bs[i], bs[i + 1..]);
  }

  lemma BitsOfMiddleByte(before: Bytes, b: byte, after: Bytes)
    ensures |BytesBits(before + [b] + after)| >= 8 * |before| + 8
    ensures BytesBits(before + [b] + after)[8 * |before|..8 * |before| + 8] == ToBits(b, 8)
  {
    hide BytesBits, ToBits;
    BytesBitsAppend(before + [b], after);
    BytesBitsSnoc(before, b);
    Middle(BytesBits(before), ToBits(b, 8), BytesBits(after));
  }

  lemma Rejoin<T>(s: seq<T>, i: nat)
    requires i < |s|
    ensures s[..i] + [s[i]] + s[i + 1..] == s
  {
  }

  lemma Middle<T>(a: seq<T>, b: seq<T>, c: seq<T>)
    ensures (a + b + c)[|a|..|a| + |b|] == b
  {
  }

  lemma Pow2Of8()
    ensures Pow2(8) == 0x100
  {
    assert Pow2(4) == 16;
  }

  /** Different bytes have different bits. */
  lemma BytesOfBits(a: Bytes, b: Bytes)
    requires BytesBits(a) == BytesBits(b)
    ensures a == b
  {
    hide BytesBits, ToBits, FromBits;
    forall i | 0 <= i < |a| ensures a[i] == b[i] {
      BitsOfByteAt(a, i);
      BitsOfByteAt(b, i);
      BitsRoundTrip(a[i], 8);
      BitsRoundTrip(b[i], 8);
      Pow2Of8();
    }
  }
}
