/** The bytes of a packed PES, one by one, as section 2.4.3.6 of ISO/IEC 13818-1 lays them out. */
module PesBytes {
  import opened Bits
  import opened Bytes
  import opened Fields
  import opened Pes
  import opened PesParse

  // ---------------------------------------------------------------- what the standard says

  /** Start code prefix, stream id, length; '10' and five fields; eight flags; the header's length. */
  function FirstBytes(p: PesPacket): Bytes
    requires Packable(p)
  {
    [p.prefix / 0x1_0000, p.prefix / 0x100 % 0x100, p.prefix % 0x100, p.streamId,
     p.packetLength / 0x100, p.packetLength % 0x100,
     0x80 + p.scrambling * 0x10 + p.priority * 8 + p.alignment * 4 + p.copyright * 2 + p.original,
     p.ptsDtsFlags * 0x40 + p.copyInfoFlag * 4,
     p.headerDataLength]
  }

  /** Four bits of tag, then three, fifteen and fifteen bits, a marker bit behind each. */
  function TimestampBytes(tag: nat, value: nat): Bytes
    requires tag < 0x10 && value < 0x2_0000_0000
  {
    var middle, low := value / 0x8000 % 0x8000, value % 0x8000;
    [tag * 0x10 + value / 0x4000_0000 * 2 + 1, middle / 0x80, middle % 0x80 * 2 + 1, low / 0x80, low % 0x80 * 2 + 1]
  }

  function TimeBytes(p: PesPacket): Bytes
    requires Packable(p)
  {
    if p.ptsDtsFlags == 2 then TimestampBytes(2, p.pts)
    else if p.ptsDtsFlags == 3 then TimestampBytes(3, p.pts) + TimestampBytes(1, p.dts)
    else []
  }

  function CopyBytes(p: PesPacket): Bytes
    requires Packable(p)
  {
    if p.copyInfoFlag != 0 then [0x80 + p.copyInfo] else []
  }

  // ---------------------------------------------------------------- bits and bytes

  /** A number in two parts is the bits of the one and then of the other. */
  lemma {:induction false} Join(a: nat, v: nat, b: nat, w: nat)
    requires b < Pow2(w)
    ensures ToBits(a, v) + ToBits(b, w) == ToBits(a * Pow2(w) + b, v + w)
  {
    if w > 0 {
      var q := a * Pow2(w - 1);
      assert a * Pow2(w) == 2 * q;
      HalfPlus(b, q);
      assert b + 2 * q == a * Pow2(w) + b;
      Join(a, v, b / 2, w - 1);
    }
  }

  lemma Powers()
    ensures Pow2(1) == 2 && Pow2(2) == 4 && Pow2(3) == 8 && Pow2(4) == 0x10 && Pow2(7) == 0x80 && Pow2(8) == 0x100
    ensures Pow2(15) == 0x8000
  {
    assert Pow2(4) == 0x10 && Pow2(8) == 0x100 && Pow2(12) == 0x1000;
  }

  lemma OneByte(b: byte)
    ensures BytesBits([b]) == ToBits(b, 8)
  {
    BytesBitsSnoc([], b);
    NothingWritten();
    assert [] + [b] == [b];
  }

  lemma TwoBytes(v: nat)
    requires v < 0x1_0000
    ensures BytesBits([v / 0x100, v % 0x100]) == ToBits(v, 16)
  {
    hide BytesBits, ToBits, Pow2;
    Powers();
    OneByte(v / 0x100);
    BytesBitsSnoc([v / 0x100], v % 0x100);
    Join(v / 0x100, 8, v % 0x100, 8);
    assert [v / 0x100] + [v % 0x100] == [v / 0x100, v % 0x100];
  }

  lemma ThreeBytes(v: nat)
    requires v < 0x100_0000
    ensures BytesBits([v / 0x1_0000, v / 0x100 % 0x100, v % 0x100]) == ToBits(v, 24)
  {
    hide BytesBits, ToBits, Pow2;
    Powers();
    TwoBytes(v / 0x100);
    assert v / 0x100 / 0x100 == v / 0x1_0000;
    var a: Bytes := [v / 0x1_0000, v / 0x100 % 0x100];
    BytesBitsSnoc(a, v % 0x100);
    assert a + [v % 0x100] == [v / 0x1_0000, v / 0x100 % 0x100, v % 0x100];
    Join(v / 0x100, 16, v % 0x100, 8);
  }

  /** One field more. */
  lemma Grows(fs: seq<Field>, n: nat, k: nat, f: Field, m: nat)
    requires FieldBits(fs) == ToBits(n, k) && f.value < Pow2(f.width) && m == n * Pow2(f.width) + f.value
    ensures FieldBits(fs + [f]) == ToBits(m, k + f.width)
  {
    hide ToBits, Pow2, FieldBits;
    FieldBitsSnoc(fs, f);
    Join(n, k, f.value, f.width);
  }

  lemma OneField(f: Field)
    ensures FieldBits([f]) == ToBits(f.value, f.width)
  {
    FieldBitsSnoc([], f);
    NothingWritten();
    assert [] + [f] == [f];
  }

  // ---------------------------------------------------------------- the fixed header

  function MixedFields(p: PesPacket): seq<Field>
  {
    [Field(2, 2), Field(p.scrambling, 2), Field(p.priority, 1), Field(p.alignment, 1), Field(p.copyright, 1),
     Field(p.original, 1)]
  }

  lemma MixedByte(p: PesPacket)
    requires Packable(p)
    ensures FieldBits(MixedFields(p)) == BytesBits([FirstBytes(p)[6]])
  {
    hide ToBits, Pow2, FieldBits, BytesBits;
    Powers();
    var f := MixedFields(p);
    var n1 := 8 + p.scrambling;
    var n2 := 2 * n1 + p.priority;
    var n3 := 2 * n2 + p.alignment;
    var n4 := 2 * n3 + p.copyright;
    OneField(f[0]);
    Grows([f[0]], 2, 2, f[1], n1);
    Grows([f[0]] + [f[1]], n1, 4, f[2], n2);
    Grows([f[0]] + [f[1]] + [f[2]], n2, 5, f[3], n3);
    Grows([f[0]] + [f[1]] + [f[2]] + [f[3]], n3, 6, f[4], n4);
    Grows([f[0]] + [f[1]] + [f[2]] + [f[3]] + [f[4]], n4, 7, f[5], 2 * n4 + p.original);
    assert f == [f[0]] + [f[1]] + [f[2]] + [f[3]] + [f[4]] + [f[5]];
    OneByte(FirstBytes(p)[6]);
  }

  function FlagFields(p: PesPacket): seq<Field>
  {
    [Field(p.ptsDtsFlags, 2), Field(p.escrFlag, 1), Field(p.esRateFlag, 1), Field(p.trickModeFlag, 1),
     Field(p.copyInfoFlag, 1), Field(p.crcFlag, 1), Field(p.extensionFlag, 1)]
  }

  lemma FlagByte(p: PesPacket)
    requires Packable(p)
    ensures FieldBits(FlagFields(p)) == BytesBits([FirstBytes(p)[7]])
  {
    hide ToBits, Pow2, FieldBits, BytesBits;
    Powers();
    var f, n := FlagFields(p), p.ptsDtsFlags * 8;
    var m := 2 * n + p.copyInfoFlag;
    OneField(f[0]);
    Grows([f[0]], p.ptsDtsFlags, 2, f[1], p.ptsDtsFlags * 2);
    Grows([f[0]] + [f[1]], p.ptsDtsFlags * 2, 3, f[2], p.ptsDtsFlags * 4);
    Grows([f[0]] + [f[1]] + [f[2]], p.ptsDtsFlags * 4, 4, f[3], n);
    Grows([f[0]] + [f[1]] + [f[2]] + [f[3]], n, 5, f[4], m);
    Grows([f[0]] + [f[1]] + [f[2]] + [f[3]] + [f[4]], m, 6, f[5], 2 * m);
    Grows([f[0]] + [f[1]] + [f[2]] + [f[3]] + [f[4]] + [f[5]], 2 * m, 7, f[6], 4 * m);
    assert f == [f[0]] + [f[1]] + [f[2]] + [f[3]] + [f[4]] + [f[5]] + [f[6]];
    OneByte(FirstBytes(p)[7]);
  }

  lemma StartFields(p: PesPacket)
    requires Packable(p)
    ensures FieldBits([Field(p.prefix, 24), Field(p.streamId, 8), Field(p.packetLength, 16)])
            == BytesBits(FirstBytes(p)[..6])
  {
    hide ToBits, Pow2, FieldBits, BytesBits;
    var a: seq<Field>, b: seq<Field>, c: seq<Field> :=
      [Field(p.prefix, 24)], [Field(p.streamId, 8)], [Field(p.packetLength, 16)];
    assert a + b + c == [Field(p.prefix, 24), Field(p.streamId, 8), Field(p.packetLength, 16)];
    FieldBitsAppend(a + b, c);
    FieldBitsAppend(a, b);
    OneField(a[0]);
    OneField(b[0]);
    OneField(c[0]);
    ThreeBytes(p.prefix);
    OneByte(p.streamId);
    TwoBytes(p.packetLength);
    var s := FirstBytes(p);
    assert s[..6] == [s[0], s[1], s[2]] + [s[3]] + [s[4], s[5]];
    BytesBitsAppend([s[0], s[1], s[2]] + [s[3]], [s[4], s[5]]);
    BytesBitsAppend([s[0], s[1], s[2]], [s[3]]);
  }

  lemma HeaderParts(p: PesPacket)
    ensures HeaderFields(p) == [Field(p.prefix, 24), Field(p.streamId, 8), Field(p.packetLength, 16)] + MixedFields(p)
                               + FlagFields(p) + [Field(p.headerDataLength, 8)]
  {
  }

  lemma HeaderBytes(p: PesPacket)
    requires Packable(p)
    ensures FieldBits(HeaderFields(p)) == BytesBits(FirstBytes(p))
  {
    hide ToBits, Pow2, FieldBits, BytesBits, HeaderFields, MixedFields, FlagFields, FirstBytes;
    var a: seq<Field> := [Field(p.prefix, 24), Field(p.streamId, 8), Field(p.packetLength, 16)];
    var d: seq<Field>, s := [Field(p.headerDataLength, 8)], FirstBytes(p);
    HeaderParts(p);
    FieldBitsAppend(a + MixedFields(p) + FlagFields(p), d);
    FieldBitsAppend(a + MixedFields(p), FlagFields(p));
    FieldBitsAppend(a, MixedFields(p));
    StartFields(p);
    MixedByte(p);
    FlagByte(p);
    OneField(d[0]);
    NineBytes(p);
    OneByte(s[8]);
    assert s == s[..6] + [s[6]] + [s[7]] + [s[8]];
    BytesBitsAppend(s[..6] + [s[6]] + [s[7]], [s[8]]);
    BytesBitsAppend(s[..6] + [s[6]], [s[7]]);
    BytesBitsAppend(s[..6], [s[6]]);
  }

  lemma NineBytes(p: PesPacket)
    requires Packable(p)
    ensures |FirstBytes(p)| == 9 && FirstBytes(p)[8] == p.headerDataLength
  {
  }

  // ---------------------------------------------------------------- timestamps

  /** Fifteen bits and a marker. */
  lemma MarkedBytes(value: nat, x: nat)
    requires x == value % 0x8000
    ensures FieldBits([Field(value, 15), Field(1, 1)]) == BytesBits([x / 0x80, x % 0x80 * 2 + 1])
  {
    hide ToBits, Pow2, FieldBits, BytesBits;
    Powers();
    var f := [Field(value, 15), Field(1, 1)];
    LowBitsAt(value, x, value / 0x8000, 15, 15);
    OneField(f[0]);
    Grows([f[0]], x, 15, f[1], 2 * x + 1);
    assert f == [f[0]] + [f[1]];
    TwoBytes(2 * x + 1);
    assert (2 * x + 1) / 0x100 == x / 0x80 && (2 * x + 1) % 0x100 == x % 0x80 * 2 + 1;
  }

  lemma TaggedByte(tag: nat, top: nat)
    requires tag < 0x10 && top < 8
    ensures FieldBits([Field(tag, 4), Field(top, 3), Field(1, 1)]) == BytesBits([tag * 0x10 + top * 2 + 1])
  {
    hide ToBits, Pow2, FieldBits, BytesBits;
    Powers();
    var f := [Field(tag, 4), Field(top, 3), Field(1, 1)];
    OneField(f[0]);
    Grows([f[0]], tag, 4, f[1], tag * 8 + top);
    Grows([f[0]] + [f[1]], tag * 8 + top, 7, f[2], tag * 0x10 + top * 2 + 1);
    assert f == [f[0]] + [f[1]] + [f[2]];
    OneByte(tag * 0x10 + top * 2 + 1);
  }

  lemma TimestampParts(tag: nat, value: nat)
    requires tag < 0x10 && value < 0x2_0000_0000
    ensures value / 0x4000_0000 < 8
    ensures var middle, low := value / 0x8000 % 0x8000, value % 0x8000;
      TimestampBytes(tag, value) == [tag * 0x10 + value / 0x4000_0000 * 2 + 1] + [middle / 0x80, middle % 0x80 * 2 + 1]
                                    + [low / 0x80, low % 0x80 * 2 + 1]
    ensures TimestampFields(tag, value)
            == [Field(tag, 4), Field(value / 0x4000_0000, 3), Field(1, 1)] + [Field(value / 0x8000, 15), Field(1, 1)]
               + [Field(value, 15), Field(1, 1)]
  {
  }

  lemma Timestamp(tag: nat, value: nat)
    requires tag < 0x10 && value < 0x2_0000_0000
    ensures FieldBits(TimestampFields(tag, value)) == BytesBits(TimestampBytes(tag, value))
  {
    hide FieldBits, BytesBits, TimestampFields, ToBits, Pow2, TimestampBytes;
    TimestampParts(tag, value);
    var top, middle, low := value / 0x4000_0000, value / 0x8000 % 0x8000, value % 0x8000;
    TaggedByte(tag, top);
    MarkedBytes(value / 0x8000, middle);
    MarkedBytes(value, low);
    JoinedThree([Field(tag, 4), Field(top, 3), Field(1, 1)], [Field(value / 0x8000, 15), Field(1, 1)],
                [Field(value, 15), Field(1, 1)], [tag * 0x10 + top * 2 + 1], [middle / 0x80, middle % 0x80 * 2 + 1],
                [low / 0x80, low % 0x80 * 2 + 1]);
  }

  lemma JoinedThree(a: seq<Field>, b: seq<Field>, c: seq<Field>, x: Bytes, y: Bytes, z: Bytes)
    requires FieldBits(a) == BytesBits(x) && FieldBits(b) == BytesBits(y) && FieldBits(c) == BytesBits(z)
    ensures FieldBits(a + b + c) == BytesBits(x + y + z)
  {
    hide FieldBits, BytesBits;
    FieldBitsAppend(a + b, c);
    FieldBitsAppend(a, b);
    BytesBitsAppend(x + y, z);
    BytesBitsAppend(x, y);
  }

  lemma Times(p: PesPacket)
    requires Packable(p)
    ensures FieldBits(TimeFields(p)) == BytesBits(TimeBytes(p))
  {
    hide FieldBits, BytesBits, TimestampFields, TimestampBytes;
    if p.ptsDtsFlags == 2 {
      Timestamp(2, p.pts);
    } else if p.ptsDtsFlags == 3 {
      Timestamp(3, p.pts);
      Timestamp(1, p.dts);
      FieldBitsAppend(TimestampFields(3, p.pts), TimestampFields(1, p.dts));
      BytesBitsAppend(TimestampBytes(3, p.pts), TimestampBytes(1, p.dts));
    } else {
      NothingWritten();
    }
  }

  lemma CopyByte(p: PesPacket)
    requires Packable(p)
    ensures FieldBits(CopyFields(p)) == BytesBits(CopyBytes(p))
  {
    hide FieldBits, BytesBits, ToBits, Pow2;
    if p.copyInfoFlag != 0 {
      Powers();
      OneField(Field(1, 1));
      Grows([Field(1, 1)], 1, 1, Field(p.copyInfo, 7), 0x80 + p.copyInfo);
      assert CopyFields(p) == [Field(1, 1)] + [Field(p.copyInfo, 7)];
      OneByte(0x80 + p.copyInfo);
    } else {
      NothingWritten();
    }
  }

  // ---------------------------------------------------------------- the whole packet

  /** What pack has written, byte for byte. */
  lemma PackedBytes(p: PesPacket, buf: Bytes)
    requires Packable(p) && BytesBits(buf) == PesBits(p)
    ensures buf == FirstBytes(p) + TimeBytes(p) + CopyBytes(p) + p.data
  {
    var h: Bytes, t: Bytes, c: Bytes := FirstBytes(p), TimeBytes(p), CopyBytes(p);
    InRange(p);
    HeaderBytes(p);
    Times(p);
    CopyByte(p);
    hide FieldBits, BytesBits, HeaderFields, TimeFields, CopyFields, FirstBytes, TimeBytes, CopyBytes;
    FieldBitsAppend(HeaderFields(p) + TimeFields(p), CopyFields(p));
    FieldBitsAppend(HeaderFields(p), TimeFields(p));
    BytesBitsAppend(h + t + c, p.data);
    BytesBitsAppend(h + t, c);
    BytesBitsAppend(h, t);
    BytesOfBits(buf, h + t + c + p.data);
  }

  /** The bits the standard fixes: '10' behind the length, the tags of the timestamps, every marker. */
  ghost predicate Fixed(p: PesPacket, buf: Bytes)
  {
    && |buf| >= 9 && buf[6] / 0x40 == 2 && buf[7] / 0x40 == p.ptsDtsFlags && buf[7] / 4 % 2 == p.copyInfoFlag
    && (p.ptsDtsFlags in {2, 3} ==>
      |buf| >= 14 && buf[9] / 0x10 == p.ptsDtsFlags && buf[9] % 2 == buf[11] % 2 == buf[13] % 2 == 1)
    && (p.ptsDtsFlags == 3 ==>
      |buf| >= 19 && buf[14] / 0x10 == 1 && buf[14] % 2 == buf[16] % 2 == buf[18] % 2 == 1)
    && (p.copyInfoFlag == 1 ==>
      var k := if p.ptsDtsFlags == 3 then 19 else if p.ptsDtsFlags == 2 then 14 else 9;
      |buf| > k && buf[k] / 0x80 == 1)
  }

  lemma FixedBits(p: PesPacket, buf: Bytes)
    requires Packable(p) && BytesBits(buf) == PesBits(p)
    ensures Fixed(p, buf)
  {
    hide BytesBits, PesBits, FirstBytes, TimeBytes, CopyBytes, Fixed;
    PackedBytes(p, buf);
    FixedInHeader(p);
    FixedStays(p, FirstBytes(p) + TimeBytes(p) + CopyBytes(p), p.data);
  }

  lemma FixedInHeader(p: PesPacket)
    requires Packable(p)
    ensures Fixed(p, FirstBytes(p) + TimeBytes(p) + CopyBytes(p))
  {
    hide TimestampBytes;
    TimestampFixed(2, p.pts);
    TimestampFixed(3, p.pts);
    TimestampFixed(1, p.dts);
  }

  lemma TimestampFixed(tag: nat, value: nat)
    requires tag < 0x10 && value < 0x2_0000_0000
    ensures var t := TimestampBytes(tag, value);
      |t| == 5 && t[0] / 0x10 == tag && t[0] % 2 == t[2] % 2 == t[4] % 2 == 1
  {
  }

  lemma FixedStays(p: PesPacket, header: Bytes, data: Bytes)
    requires Fixed(p, header)
    ensures Fixed(p, header + data)
  {
    var buf := header + data;
    assert forall k :: 0 <= k < |header| ==> buf[k] == header[k];
  }
}
