/** Packing and parsing PES packets with the full header: src/pes.c. */
module Pes {
  import opened Bits
  import opened Bitstream
  import opened Bytes
  import opened Fields

  datatype PesPacket = PesPacket(
    prefix: nat, streamId: nat, packetLength: nat,
    scrambling: nat, priority: nat, alignment: nat, copyright: nat, original: nat,
    ptsDtsFlags: nat, escrFlag: nat, esRateFlag: nat, trickModeFlag: nat,
    copyInfoFlag: nat, crcFlag: nat, extensionFlag: nat, headerDataLength: nat,
    pts: int, dts: int, copyInfo: nat, data: Bytes)

  /** Stream ids whose PES has the full header. */
  predicate FullHeader(streamId: nat)
  {
    streamId !in {0xBC, 0xBE, 0xBF, 0xF0, 0xF1, 0xFF, 0xF2, 0xF8}
  }

  /** None of the header parts that pack does not write. */
  predicate PlainHeader(p: PesPacket)
  {
    && FullHeader(p.streamId)
    && p.escrFlag == 0 && p.esRateFlag == 0 && p.trickModeFlag == 0
    && p.crcFlag == 0 && p.extensionFlag == 0
  }

  // ---------------------------------------------------------------- what pack writes

  function HeaderFields(p: PesPacket): seq<Field>
  {
    [Field(p.prefix, 24), Field(p.streamId, 8), Field(p.packetLength, 16), Field(2, 2),
     Field(p.scrambling, 2), Field(p.priority, 1), Field(p.alignment, 1), Field(p.copyright, 1),
     Field(p.original, 1), Field(p.ptsDtsFlags, 2), Field(p.escrFlag, 1), Field(p.esRateFlag, 1),
     Field(p.trickModeFlag, 1), Field(p.copyInfoFlag, 1), Field(p.crcFlag, 1), Field(p.extensionFlag, 1),
     Field(p.headerDataLength, 8)]
  }

  function TimestampFields(tag: nat, value: nat): seq<Field>
  {
    [Field(tag, 4), Field(value / 0x4000_0000, 3), Field(1, 1), Field(value / 0x8000, 15), Field(1, 1),
     Field(value, 15), Field(1, 1)]
  }

  function TimeFields(p: PesPacket): seq<Field>
    requires p.pts >= 0 && p.dts >= 0
  {
    if p.ptsDtsFlags == 2 then TimestampFields(2, p.pts)
    else if p.ptsDtsFlags == 3 then TimestampFields(3, p.pts) + TimestampFields(1, p.dts)
    else []
  }

  function CopyFields(p: PesPacket): seq<Field>
  {
    if p.copyInfoFlag != 0 then [Field(1, 1), Field(p.copyInfo, 7)] else []
  }

  function AllFields(p: PesPacket): seq<Field>
    requires p.pts >= 0 && p.dts >= 0
  {
    HeaderFields(p) + TimeFields(p) + CopyFields(p)
  }

  function PesBits(p: PesPacket): seq<bit>
    requires p.pts >= 0 && p.dts >= 0
  {
    FieldBits(AllFields(p)) + BytesBits(p.data)
  }

  /** Bits in front of the payload, as pack and parse both count them. */
  function HeaderBitCount(ptsDtsFlags: nat, copyInfoFlag: nat): nat
  {
    72 + (if ptsDtsFlags == 2 then 40 else if ptsDtsFlags == 3 then 80 else 0)
    + if copyInfoFlag != 0 then 8 else 0
  }

  // ---------------------------------------------------------------- pack

  /** The fields written so far, and how many bits the stream now holds. */
  ghost predicate Wrote(bs: BitStream, start: seq<bit>, done: seq<Field>, n: nat)
    reads bs, bs.buf
  {
    bs.WriteValid() && bs.Written() == start + FieldBits(done) && |bs.Written()| == n
  }

  /** WriteBits, with an account of what has been written. */
  method Put(bs: BitStream, value: nat, width: nat, ghost start: seq<bit>, ghost f: seq<Field>, ghost k: nat,
      ghost n: nat)
    requires k < |f| && f[k] == Field(value, width)
    requires Wrote(bs, start, f[..k], n) && n + width <= 8 * bs.buf.Length
    modifies bs, bs.buf
    ensures Wrote(bs, start, f[..k + 1], n + width)
  {
    hide BytesBits, ToBits, FieldBits;
    bs.WriteBits(value, width);
    FieldBitsSnoc(f[..k], f[k]);
    assert f[..k + 1] == f[..k] + [f[k]];
  }

  method PutHeader(p: PesPacket, bs: BitStream, ghost start: seq<bit>, ghost n: nat)
    requires Wrote(bs, start, [], n) && n + 72 <= 8 * bs.buf.Length
    modifies bs, bs.buf
    ensures Wrote(bs, start, HeaderFields(p), n + 72)
  {
    hide Wrote;
    ghost var f := HeaderFields(p);
    assert f[..0] == [];
    Put(bs, p.prefix, 24, start, f, 0, n);
    Put(bs, p.streamId, 8, start, f, 1, n + 24);
    Put(bs, p.packetLength, 16, start, f, 2, n + 32);
    Put(bs, 2, 2, start, f, 3, n + 48);
    Put(bs, p.scrambling, 2, start, f, 4, n + 50);
    Put(bs, p.priority, 1, start, f, 5, n + 52);
    Put(bs, p.alignment, 1, start, f, 6, n + 53);
    Put(bs, p.copyright, 1, start, f, 7, n + 54);
    Put(bs, p.original, 1, start, f, 8, n + 55);
    Put(bs, p.ptsDtsFlags, 2, start, f, 9, n + 56);
    Put(bs, p.escrFlag, 1, start, f, 10, n + 58);
    Put(bs, p.esRateFlag, 1, start, f, 11, n + 59);
    Put(bs, p.trickModeFlag, 1, start, f, 12, n + 60);
    Put(bs, p.copyInfoFlag, 1, start, f, 13, n + 61);
    Put(bs, p.crcFlag, 1, start, f, 14, n + 62);
    Put(bs, p.extensionFlag, 1, start, f, 15, n + 63);
    Put(bs, p.headerDataLength, 8, start, f, 16, n + 64);
    assert f[..17] == f;
  }

  /** The four-bit tag and write33bit_ts, behind the fields `before`. */
  method PutTimestamp(tag: nat, value: nat, bs: BitStream, ghost start: seq<bit>, ghost before: seq<Field>,
      ghost n: nat)
    requires Wrote(bs, start, before, n) && n + 40 <= 8 * bs.buf.Length
    modifies bs, bs.buf
    ensures Wrote(bs, start, before + TimestampFields(tag, value), n + 40)
  {
    hide Wrote;
    ghost var k, f := |before|, before + TimestampFields(tag, value);
    assert f[..k] == before;
    Put(bs, tag, 4, start, f, k, n);
    Put(bs, value / 0x4000_0000, 3, start, f, k + 1, n + 4);
    Put(bs, 1, 1, start, f, k + 2, n + 7);
    Put(bs, value / 0x8000, 15, start, f, k + 3, n + 8);
    Put(bs, 1, 1, start, f, k + 4, n + 23);
    Put(bs, value, 15, start, f, k + 5, n + 24);
    Put(bs, 1, 1, start, f, k + 6, n + 39);
    assert f[..k + 7] == f;
  }

  method PutCopyInfo(copyInfo: nat, bs: BitStream, ghost start: seq<bit>, ghost before: seq<Field>, ghost n: nat)
    requires Wrote(bs, start, before, n) && n + 8 <= 8 * bs.buf.Length
    modifies bs, bs.buf
    ensures Wrote(bs, start, before + [Field(1, 1), Field(copyInfo, 7)], n + 8)
  {
    hide Wrote;
    ghost var k, f := |before|, before + [Field(1, 1), Field(copyInfo, 7)];
    assert f[..k] == before;
    Put(bs, 1, 1, start, f, k, n);
    Put(bs, copyInfo, 7, start, f, k + 1, n + 1);
    assert f[..k + 2] == f;
  }

  method PutData(data: Bytes, bs: BitStream) returns (bits: nat)
    requires bs.WriteValid() && |bs.Written()| + 8 * |data| <= 8 * bs.buf.Length
    modifies bs, bs.buf
    ensures bs.WriteValid() && bs.Written() == old(bs.Written()) + BytesBits(data)
    ensures bits == 8 * |data|
  {
    hide BytesBits, ToBits;
    bits := 0;
    NothingWritten();
    ghost var start := bs.Written();
    assert data[..0] == [];
    for i := 0 to |data|
      invariant bs.WriteValid() && bs.Written() == start + BytesBits(data[..i])
      invariant bits == 8 * i
    {
      bs.WriteBits(data[i], 8);
      bits := bits + 8;
      assert data[..i + 1] == data[..i] + [data[i]];
      BytesBitsSnoc(data[..i], data[i]);
    }
    assert data[..|data|] == data;
  }

  /** Everything in front of the payload. */
  method PackHeader(p: PesPacket, bs: BitStream, ghost start: seq<bit>, ghost n: nat) returns (bits: nat)
    requires p.pts >= 0 && p.dts >= 0
    requires Wrote(bs, start, [], n)
    requires n + HeaderBitCount(p.ptsDtsFlags, p.copyInfoFlag) <= 8 * bs.buf.Length
    modifies bs, bs.buf
    ensures Wrote(bs, start, AllFields(p), n + bits)
    ensures bits == HeaderBitCount(p.ptsDtsFlags, p.copyInfoFlag)
  {
    hide Wrote, HeaderFields, TimestampFields;
    PutHeader(p, bs, start, n);
    ghost var done := HeaderFields(p);
    bits := 72;
    if p.ptsDtsFlags == 2 {
      PutTimestamp(2, p.pts, bs, start, done, n + bits);
      done := done + TimestampFields(2, p.pts);
      bits := bits + 40;
    } else if p.ptsDtsFlags == 3 {
      PutTimestamp(3, p.pts, bs, start, done, n + bits);
      done := done + TimestampFields(3, p.pts);
      bits := bits + 40;
      PutTimestamp(1, p.dts, bs, start, done, n + bits);
      done := done + TimestampFields(1, p.dts);
      bits := bits + 40;
    }
    assert done == HeaderFields(p) + TimeFields(p);
    if p.copyInfoFlag != 0 {
      PutCopyInfo(p.copyInfo, bs, start, done, n + bits);
      done := done + [Field(1, 1), Field(p.copyInfo, 7)];
      bits := bits + 8;
    }
    assert done == AllFields(p);
  }

  /** ltn_pes_packet_pack: the header, the timestamps the flags call for, and the payload. */
  method Pack(p: PesPacket, bs: BitStream) returns (bits: nat)
    requires PlainHeader(p) && p.pts >= 0 && p.dts >= 0
    requires bs.WriteValid()
    requires |bs.Written()| + HeaderBitCount(p.ptsDtsFlags, p.copyInfoFlag) + 8 * |p.data| <= 8 * bs.buf.Length
    modifies bs, bs.buf
    ensures bs.WriteValid() && bs.Written() == old(bs.Written()) + PesBits(p)
    ensures bits == |PesBits(p)| == HeaderBitCount(p.ptsDtsFlags, p.copyInfoFlag) + 8 * |p.data|
  {
    hide Wrote, AllFields, HeaderBitCount, FieldBits, BytesBits;
    ghost var start := bs.Written();
    Begin(bs);
    bits := PackHeader(p, bs, start, |start|);
    WroteIs(bs, start, AllFields(p), |start| + bits);
    var dataBits := PutData(p.data, bs);
    bits := bits + dataBits;
  }

  lemma Begin(bs: BitStream)
    requires bs.WriteValid()
    ensures Wrote(bs, bs.Written(), [], |bs.Written()|)
  {
    NothingWritten();
  }

  lemma WroteIs(bs: BitStream, start: seq<bit>, done: seq<Field>, n: nat)
    requires Wrote(bs, start, done, n)
    ensures bs.WriteValid() && bs.Written() == start + FieldBits(done)
        && n == |start| + |FieldBits(done)| == |bs.Written()|
  {
  }
}
