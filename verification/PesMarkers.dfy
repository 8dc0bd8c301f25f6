/** What the marker bits of PTS and DTS decide when a PES header is parsed, src/pes.c. */
module PesMarkers {
  import opened Bits
  import opened Bitstream
  import opened Bytes
  import opened Fields
  import opened Pes
  import opened PesParse

  /** The markers behind the first three and the next fifteen bits of a timestamp at `pos`. */
  predicate EarlyMarkers(bits: seq<bit>, pos: nat)
    requires pos + 36 <= |bits|
  {
    At(bits, pos + 3, 1) == 1 && At(bits, pos + 19, 1) == 1
  }

  predicate AllMarkers(bits: seq<bit>, pos: nat)
    requires pos + 36 <= |bits|
  {
    EarlyMarkers(bits, pos) && At(bits, pos + 35, 1) == 1
  }

  /** A timestamp reads as -1 exactly when a marker is clear, and stops short exactly when one of the first two is. */
  lemma TimestampExactly(bits: seq<bit>, pos: nat)
    requires pos + 36 <= |bits|
    ensures TimestampAt(bits, pos).0 >= 0 <==> AllMarkers(bits, pos)
    ensures TimestampAt(bits, pos).0 < 0 <==> TimestampAt(bits, pos).0 == -1
    ensures TimestampAt(bits, pos).1 == pos + 36 <==> EarlyMarkers(bits, pos)
  {
    hide At;
  }

  /** The markers that decide where the parse ends up: the early ones, of the PTS and of the DTS if there is one. */
  predicate EarlyAll(bits: seq<bit>, flags: nat)
    requires HeaderBitCount(flags, 0) <= |bits|
  {
    (flags in {2, 3} ==> EarlyMarkers(bits, 76)) && (flags == 3 ==> EarlyMarkers(bits, 116))
  }

  lemma CountParts(h: PesPacket)
    ensures HeaderBitCount(h.ptsDtsFlags, h.copyInfoFlag)
            == HeaderBitCount(h.ptsDtsFlags, 0) + if h.copyInfoFlag != 0 then 8 else 0
  {
  }

  /**
   * For every plain header the parse is where its bit count says when it comes to the payload, if and only if no early
   * marker it reads is clear; otherwise it is short of it.
   */
  lemma PayloadInPlace(bits: seq<bit>, h: PesPacket)
    requires HeaderBitCount(h.ptsDtsFlags, h.copyInfoFlag) <= |bits|
    ensures PayloadStart(bits, h) == HeaderBitCount(h.ptsDtsFlags, h.copyInfoFlag) <==> EarlyAll(bits, h.ptsDtsFlags)
    ensures PayloadStart(bits, h) <= HeaderBitCount(h.ptsDtsFlags, h.copyInfoFlag)
  {
    hide At, TimestampAt;
    CountParts(h);
    var flags := h.ptsDtsFlags;
    if flags == 2 || flags == 3 {
      TimestampExactly(bits, 76);
    }
    if flags == 3 {
      TimestampExactly(bits, TimestampAt(bits, 76).1 + 4);
    }
  }

  /**
   * And the PTS read is -1 if and only if one of its three markers is clear; so is the DTS, where the parse looks
   * for it.
   */
  lemma TimesExactly(bits: seq<bit>, h: PesPacket)
    requires HeaderBitCount(h.ptsDtsFlags, h.copyInfoFlag) <= |bits|
    ensures h.ptsDtsFlags in {2, 3} ==> (HeaderRead(bits, h).pts == -1 <==> !AllMarkers(bits, 76))
    ensures h.ptsDtsFlags == 3 ==>
      var p := TimestampAt(bits, 76).1 + 4; HeaderRead(bits, h).dts == -1 <==> !AllMarkers(bits, p)
  {
    hide At, TimestampAt;
    var flags := h.ptsDtsFlags;
    if flags == 2 || flags == 3 {
      TimestampExactly(bits, 76);
    }
    if flags == 3 {
      TimestampExactly(bits, TimestampAt(bits, 76).1 + 4);
    }
  }

  // ---------------------------------------------------------------- a buffer that shows it

  lemma {:induction false} ZeroBits(bits: seq<bit>, pos: nat, n: nat)
    requires pos + n <= |bits| && forall k :: pos <= k < pos + n ==> bits[k] == 0
    ensures At(bits, pos, n) == 0
  {
    var s := bits[pos..pos + n];
    if n > 0 {
      ZeroBits(bits, pos, n - 1);
      assert s[..n - 1] == bits[pos..pos + (n - 1)];
    }
  }

  lemma {:induction false} BitsOfZero(width: nat)
    ensures forall k :: 0 <= k < width ==> ToBits(0, width)[k] == 0
  {
    if width > 0 {
      BitsOfZero(width - 1);
    }
  }

  lemma ZeroByte(buf: Bytes, i: nat)
    requires i < |buf| && buf[i] == 0
    ensures forall k :: 8 * i <= k < 8 * i + 8 ==> BytesBits(buf)[k] == 0
  {
    hide BytesBits, ToBits;
    BitsOfByteAt(buf, i);
    BitsOfZero(8);
    var s := BytesBits(buf)[8 * i..8 * i + 8];
    forall k | 8 * i <= k < 8 * i + 8 ensures BytesBits(buf)[k] == 0 {
      assert BytesBits(buf)[k] == s[k - 8 * i];
    }
  }

  /** The bits of 0x80: a one and zeros. */
  lemma TopBitByte(buf: Bytes, i: nat)
    requires i < |buf| && buf[i] == 0x80
    ensures BytesBits(buf)[8 * i] == 1 && forall k :: 8 * i + 1 <= k < 8 * i + 8 ==> BytesBits(buf)[k] == 0
  {
    hide BytesBits, ToBits;
    BitsOfByteAt(buf, i);
    OneAndZeros();
    var s := BytesBits(buf)[8 * i..8 * i + 8];
    forall k | 8 * i <= k < 8 * i + 8 ensures BytesBits(buf)[k] == s[k - 8 * i] {
    }
  }

  lemma OneAndZeros()
    ensures ToBits(0x80, 8)[0] == 1 && forall k :: 1 <= k < 8 ==> ToBits(0x80, 8)[k] == 0
  {
    hide ToBits;
    Powers();
    forall k | 0 <= k < 8 ensures ToBits(0x80, 8)[k] == if k == 0 then 1 else 0 {
      BitAt(0x80, 8, k);
      PowerOf(7 - k);
    }
  }

  lemma PowerOf(k: nat)
    requires k < 8
    ensures 0x80 / Pow2(k) % 2 == if k == 7 then 1 else 0
  {
    Powers();
  }

  /** A header with a PTS, every other flag clear and no length, and the PTS's first marker clear. */
  predicate MarkerClear(buf: Bytes)
  {
    |buf| >= 14 && buf[..10] == [0, 0, 1, 0xE0, 0, 0, 0, 0x80, 0, 0]
  }

  lemma ClearHeader(buf: Bytes)
    requires MarkerClear(buf)
    ensures var bits := BytesBits(buf);
      && At(bits, 24, 8) == 0xE0 && At(bits, 32, 16) == 0 && At(bits, 56, 2) == 2 && At(bits, 79, 1) == 0
      && forall k :: 58 <= k < 64 ==> At(bits, k, 1) == 0
  {
    hide BytesBits, At;
    var bits := BytesBits(buf);
    ByteIsItsBits(buf, 3);
    ByteOf(bits, 24);
    ZeroByte(buf, 4);
    ZeroByte(buf, 5);
    ZeroByte(buf, 9);
    TopBitByte(buf, 7);
    ZeroBits(bits, 32, 16);
    ZeroBits(bits, 79, 1);
    forall k | 58 <= k < 64 ensures At(bits, k, 1) == 0 {
      ZeroBits(bits, k, 1);
    }
    TwoBits(bits, 56);
  }

  lemma ByteOf(bits: seq<bit>, pos: nat)
    requires pos + 8 <= |bits|
    ensures At(bits, pos, 8) == FromBits(bits[pos..pos + 8])
  {
  }

  lemma TwoBits(bits: seq<bit>, pos: nat)
    requires pos + 2 <= |bits| && bits[pos] == 1 && bits[pos + 1] == 0
    ensures At(bits, pos, 2) == 2
  {
    assert bits[pos..pos + 2] == [1, 0];
    FromBitsSnoc([], 1);
    FromBitsSnoc([1], 0);
    assert [] + [1] == [1] && [1] + [0] == [1, 0];
  }

  /** What such a buffer parses to: PTS -1, and a payload that begins four bytes early, inside the header. */
  lemma MarkerClearMisplaces(buf: Bytes)
    requires MarkerClear(buf)
    ensures var r := ParsePes(buf, false);
      && r.Parsed? && r.pes.ptsDtsFlags == 2 && r.pes.pts == -1
      && r.bits == 112 + 8 * |r.pes.data| && r.pes.data == buf[10..]
  {
    hide BytesBits, At, IsTruncated;
    var bits := BytesBits(buf);
    ClearHeader(buf);
  }
}
