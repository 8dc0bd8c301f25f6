/** Parsing PES packets, and the round trip with packing: src/pes.c. */
module PesParse {
  import opened Bits
  import opened Bitstream
  import opened Bytes
  import opened Fields
  import opened Pes

  /**
   * What a parse amounts to: nothing in the buffer to parse; a header that does not fit in it, so
   * that the source reads on past its end; a stream id or header parts outside this model; or a
   * packet, the bits the parse counts, and the two flags it leaves on the bitstream.
   */
  datatype ParseResult =
    | TooShort
    | HeaderPastEnd
    | OtherStream(streamId: nat, packetLength: nat)
    | OtherHeader
    | Parsed(pes: PesPacket, bits: nat, overrun: bool, truncated: bool)

  // ---------------------------------------------------------------- specification

  /** read33bit_ts: a marker bit of zero stops it there with -1. */
  function TimestampAt(bits: seq<bit>, pos: nat): (r: (int, nat))
    requires pos + 36 <= |bits|
    ensures r.1 in {pos + 4, pos + 20, pos + 36}
  {
    if At(bits, pos + 3, 1) != 1 then (-1, pos + 4)
    else if At(bits, pos + 19, 1) != 1 then (-1, pos + 20)
    else if At(bits, pos + 35, 1) != 1 then (-1, pos + 36)
    else (At(bits, pos, 3) * 0x4000_0000 + At(bits, pos + 4, 15) * 0x8000 + At(bits, pos + 20, 15), pos + 36)
  }

  /** PTS, DTS and the position behind them. */
  function TimesAt(bits: seq<bit>, flags: nat): (r: (int, int, nat))
    requires HeaderBitCount(flags, 0) <= |bits|
    ensures 72 <= r.2 <= HeaderBitCount(flags, 0) && r.2 % 8 == 0
  {
    if flags == 2 then
      var (pts, p1) := TimestampAt(bits, 76);
      (pts, 0, p1)
    else if flags == 3 then
      var (pts, p1) := TimestampAt(bits, 76);
      var (dts, p2) := TimestampAt(bits, p1 + 4);
      (pts, dts, p2)
    else (0, 0, 72)
  }

  /** How many payload bytes the packet length, or failing that the buffer, allows. */
  function DataLength(packetLength: nat, headerBits: nat, free: nat): nat
    requires headerBits >= 48
  {
    var n := if packetLength >= (headerBits - 48) / 8 then packetLength - (headerBits - 48) / 8 else free;
    if n > free then free else n
  }

  predicate IsTruncated(packetLength: nat, headerBits: nat, free: nat)
    requires headerBits >= 48
  {
    packetLength >= (headerBits - 48) / 8 && packetLength - (headerBits - 48) / 8 > free
  }

  function FixedHeader(bits: seq<bit>, packetLength: nat): PesPacket
    requires 72 <= |bits|
  {
    PesPacket(At(bits, 0, 24), At(bits, 24, 8), packetLength,
              At(bits, 50, 2), At(bits, 52, 1), At(bits, 53, 1), At(bits, 54, 1), At(bits, 55, 1),
              At(bits, 56, 2), At(bits, 58, 1), At(bits, 59, 1), At(bits, 60, 1), At(bits, 61, 1),
              At(bits, 62, 1), At(bits, 63, 1), At(bits, 64, 8), 0, 0, 0, [])
  }

  /** ltn_pes_packet_parse on a whole buffer. */
  function ParsePes(buf: Bytes, skipData: bool): ParseResult
  {
    if |buf| < 8 then TooShort
    else
      var bits := BytesBits(buf);
      var wireLength := At(bits, 32, 16);
      var packetLength := if |buf| - 6 < wireLength then |buf| - 6 else wireLength;
      if !FullHeader(At(bits, 24, 8)) then OtherStream(At(bits, 24, 8), packetLength)
      else if |buf| < 9 then TooShort
      else ParseFull(buf, FixedHeader(bits, packetLength), skipData)
  }

  /** Where the parse stands once the timestamps and the copy information are read: at a byte, whatever the markers. */
  function PayloadStart(bits: seq<bit>, h: PesPacket): (pos: nat)
    requires HeaderBitCount(h.ptsDtsFlags, h.copyInfoFlag) <= |bits|
    ensures 72 <= pos <= HeaderBitCount(h.ptsDtsFlags, h.copyInfoFlag) && pos % 8 == 0
  {
    TimesAt(bits, h.ptsDtsFlags).2 + if h.copyInfoFlag != 0 then 8 else 0
  }

  /** The fixed header with the timestamps and the copy information. */
  function HeaderRead(bits: seq<bit>, h: PesPacket): PesPacket
    requires HeaderBitCount(h.ptsDtsFlags, h.copyInfoFlag) <= |bits|
  {
    var (pts, dts, p) := TimesAt(bits, h.ptsDtsFlags);
    h.(pts := pts, dts := dts, copyInfo := if h.copyInfoFlag != 0 then At(bits, p + 1, 7) else 0)
  }

  function ParseFull(buf: Bytes, h: PesPacket, skipData: bool): ParseResult
    requires |buf| >= 9
  {
    var bits := BytesBits(buf);
    var headerBits := HeaderBitCount(h.ptsDtsFlags, h.copyInfoFlag);
    if !PlainHeader(h) then OtherHeader
    else if headerBits > 8 * |buf| then HeaderPastEnd
    else
      var q, pos := HeaderRead(bits, h), PayloadStart(bits, h);
      var free := |buf| - pos / 8;
      var n := DataLength(h.packetLength, headerBits, free);
      var late := headerBits > 72 && free == 0;
      if skipData then Parsed(q, headerBits, late, false)
      else Parsed(q.(data := buf[pos / 8..pos / 8 + n]), headerBits + 8 * n, late,
                  IsTruncated(h.packetLength, headerBits, free))
  }

  // ---------------------------------------------------------------- the code

  /**
   * The stream over `bits` stands at `pos`. The overrun flag is up once the last byte has been
   * taken, but not by the aligned read of the header length, which ends at 72.
   */
  ghost predicate Cursor(bs: BitStream, bits: seq<bit>, pos: nat)
    reads bs`used, bs`regUsed, bs`reg, bs`overrun, bs.buf
  {
    && bs.AllBits() == bits
    && bs.ReadValid() && bs.Position() == pos
    && bs.overrun == (pos != 72 && (pos + 7) / 8 >= bs.buf.Length)
  }

  method Read(bs: BitStream, n: nat, ghost bits: seq<bit>, ghost pos: nat) returns (v: nat)
    requires n > 0 && Cursor(bs, bits, pos) && pos + n <= |bits| == 8 * bs.buf.Length
    requires n == 8 && pos % 8 == 0 ==> pos == 64 || pos + 8 < |bits|
    requires pos + n == 72 ==> pos == 64 && n == 8
    modifies bs`used, bs`regUsed, bs`reg, bs`overrun
    ensures Cursor(bs, bits, pos + n)
    ensures v == At(bits, pos, n)
  {
    hide BytesBits, FromBits, Pow2;
    v := bs.ReadBits(n);
  }

  method ReadHeader(bs: BitStream, ghost bits: seq<bit>, prefix: nat, streamId: nat, packetLength: nat)
    returns (h: PesPacket)
    requires 72 <= |bits| == 8 * bs.buf.Length && Cursor(bs, bits, 48)
    requires prefix == At(bits, 0, 24) && streamId == At(bits, 24, 8)
    modifies bs`used, bs`regUsed, bs`reg, bs`overrun
    ensures Cursor(bs, bits, 72) && h == FixedHeader(bits, packetLength)
  {
    hide Cursor, At;
    var reserved := Read(bs, 2, bits, 48);
    var scrambling := Read(bs, 2, bits, 50);
    var priority := Read(bs, 1, bits, 52);
    var alignment := Read(bs, 1, bits, 53);
    var copyright := Read(bs, 1, bits, 54);
    var original := Read(bs, 1, bits, 55);
    var ptsDts := Read(bs, 2, bits, 56);
    var escr := Read(bs, 1, bits, 58);
    var esRate := Read(bs, 1, bits, 59);
    var trick := Read(bs, 1, bits, 60);
    var copyInfo := Read(bs, 1, bits, 61);
    var crc := Read(bs, 1, bits, 62);
    var extension := Read(bs, 1, bits, 63);
    var headerDataLength := Read(bs, 8, bits, 64);
    h := PesPacket(prefix, streamId, packetLength, scrambling, priority, alignment, copyright, original, ptsDts,
                   escr, esRate, trick, copyInfo, crc, extension, headerDataLength, 0, 0, 0, []);
  }

  /** read33bit_ts. */
  method ReadTimestamp(bs: BitStream, ghost bits: seq<bit>, ghost pos: nat) returns (ts: int, ghost end: nat)
    requires 72 <= pos && pos + 36 <= |bits| == 8 * bs.buf.Length && Cursor(bs, bits, pos)
    modifies bs`used, bs`regUsed, bs`reg, bs`overrun
    ensures (ts, end) == TimestampAt(bits, pos) && Cursor(bs, bits, end)
  {
    hide Cursor, At;
    var a := Read(bs, 3, bits, pos);
    var marker := Read(bs, 1, bits, pos + 3);
    if marker != 1 {
      return -1, pos + 4;
    }
    var b := Read(bs, 15, bits, pos + 4);
    marker := Read(bs, 1, bits, pos + 19);
    if marker != 1 {
      return -1, pos + 20;
    }
    var c := Read(bs, 15, bits, pos + 20);
    marker := Read(bs, 1, bits, pos + 35);
    if marker != 1 {
      return -1, pos + 36;
    }
    ts := a * 0x4000_0000 + b * 0x8000 + c;
    end := pos + 36;
  }

  /** The timestamps the flags announce, and the bits counted for them whatever was read. */
  method ReadTimes(bs: BitStream, ghost bits: seq<bit>, flags: nat)
    returns (pts: int, dts: int, counted: nat, ghost end: nat)
    requires HeaderBitCount(flags, 0) <= |bits| == 8 * bs.buf.Length && Cursor(bs, bits, 72)
    modifies bs`used, bs`regUsed, bs`reg, bs`overrun
    ensures (pts, dts, end) == TimesAt(bits, flags) && Cursor(bs, bits, end)
    ensures counted == HeaderBitCount(flags, 0)
  {
    hide Cursor, At, TimestampAt;
    pts, dts, counted, end := 0, 0, 72, 72;
    if flags == 2 {
      var tag := Read(bs, 4, bits, 72);
      pts, end := ReadTimestamp(bs, bits, 76);
      counted := counted + 40;
    } else if flags == 3 {
      var tag := Read(bs, 4, bits, 72);
      pts, end := ReadTimestamp(bs, bits, 76);
      counted := counted + 40;
      tag := Read(bs, 4, bits, end);
      dts, end := ReadTimestamp(bs, bits, end + 4);
      counted := counted + 40;
    }
  }

  /**
   * The payload. The stream stands at a byte, with that much left: the source's loop for the other case is never
   * entered.
   */
  method ReadData(bs: BitStream, ghost pos: nat, n: nat) returns (data: Bytes)
    requires bs.ReadValid() && bs.Position() == pos && pos % 8 == 0 && pos / 8 + n <= bs.buf.Length
    modifies bs`used
    ensures data == bs.buf[pos / 8..pos / 8 + n]
  {
    data := [];
    if bs.regUsed == 0 && n <= bs.buf.Length - bs.used {
      data := bs.buf[bs.used..bs.used + n];
      bs.used := bs.used + n;
    } else {
      assert false;
    }
  }

  /** The timestamps and the copy information, as far as the flags announce them. */
  method ReadRest(bs: BitStream, ghost bits: seq<bit>, h: PesPacket)
    returns (q: PesPacket, counted: nat, ghost pos: nat)
    requires HeaderBitCount(h.ptsDtsFlags, h.copyInfoFlag) <= |bits| == 8 * bs.buf.Length && Cursor(bs, bits, 72)
    modifies bs`used, bs`regUsed, bs`reg, bs`overrun
    ensures q == HeaderRead(bits, h) && pos == PayloadStart(bits, h) && Cursor(bs, bits, pos)
    ensures counted == HeaderBitCount(h.ptsDtsFlags, h.copyInfoFlag)
  {
    hide At, TimesAt;
    var pts, dts, copyInfo := 0, 0, 0;
    pts, dts, counted, pos := ReadTimes(bs, bits, h.ptsDtsFlags);
    if h.copyInfoFlag != 0 {
      var marker := Read(bs, 1, bits, pos);
      copyInfo := Read(bs, 7, bits, pos + 1);
      counted := counted + 8;
      pos := pos + 8;
    }
    q := h.(pts := pts, dts := dts, copyInfo := copyInfo);
  }

  lemma ReadFacts(bits: seq<bit>, h: PesPacket)
    requires HeaderBitCount(h.ptsDtsFlags, h.copyInfoFlag) <= |bits|
    ensures HeaderRead(bits, h).packetLength == h.packetLength
    ensures PayloadStart(bits, h) == 72 <==> HeaderBitCount(h.ptsDtsFlags, h.copyInfoFlag) == 72
  {
    hide At;
  }

  /** What follows the fixed part of a plain header. */
  method ParseRest(bs: BitStream, ghost buf: Bytes, h: PesPacket, skipData: bool) returns (r: ParseResult)
    requires |buf| >= 9 && bs.buf[..] == buf && PlainHeader(h)
    requires HeaderBitCount(h.ptsDtsFlags, h.copyInfoFlag) <= 8 * |buf|
    requires Cursor(bs, BytesBits(buf), 72) && !bs.truncated
    modifies bs
    ensures r == ParseFull(buf, h, skipData)
    ensures r.Parsed? && r.overrun == bs.overrun && r.truncated == bs.truncated
  {
    hide BytesBits, PlainHeader, HeaderRead, PayloadStart, DataLength, IsTruncated;
    ghost var bits := BytesBits(buf);
    var q, counted;
    ghost var pos;
    q, counted, pos := ReadRest(bs, bits, h);
    ReadFacts(bits, h);
    if skipData {
      return Parsed(q, counted, bs.overrun, bs.truncated);
    }
    r := ParsePayload(bs, bits, q, counted, pos);
  }

  /** The payload, of the length the packet gives or the buffer allows. */
  method ParsePayload(bs: BitStream, ghost bits: seq<bit>, q: PesPacket, counted: nat, ghost pos: nat)
    returns (r: ParseResult)
    requires 72 <= pos <= |bits| == 8 * bs.buf.Length && 72 <= counted && pos % 8 == 0
    requires Cursor(bs, bits, pos) && !bs.truncated
    modifies bs
    ensures var free := bs.buf.Length - pos / 8;
            var n := DataLength(q.packetLength, counted, free);
            r == Parsed(q.(data := bs.buf[pos / 8..pos / 8 + n]), counted + 8 * n, pos != 72 && free == 0,
                        IsTruncated(q.packetLength, counted, free))
    ensures r.overrun == bs.overrun && r.truncated == bs.truncated
  {
    hide BytesBits, Pow2;
    var free := bs.buf.Length - bs.used;
    var n;
    if q.packetLength >= (counted - 48) / 8 {
      n := q.packetLength - (counted - 48) / 8;
    } else {
      n := free;
    }
    if n > free {
      n := free;
      bs.truncated := true;
    }
    var data := ReadData(bs, pos, n);
    r := Parsed(q.(data := data), counted + 8 * n, bs.overrun, bs.truncated);
  }

  /** ltn_pes_packet_parse, on a stream that has just been given its buffer. */
  method Parse(bs: BitStream, skipData: bool) returns (r: ParseResult)
    requires bs.used == 0 && bs.regUsed == 0 && !bs.overrun && !bs.truncated
    modifies bs
    ensures r == ParsePes(bs.buf[..], skipData)
    ensures r.Parsed? ==> r.overrun == bs.overrun && r.truncated == bs.truncated
  {
    hide At, BytesBits, PlainHeader, FullHeader, FixedHeader, TimesAt, DataLength, IsTruncated, Pow2;
    if bs.buf.Length - bs.used < 8 {
      return TooShort;
    }
    ghost var buf := bs.buf[..];
    ghost var bits := BytesBits(buf);
    var prefix := Read(bs, 24, bits, 0);
    var streamId := Read(bs, 8, bits, 24);
    var packetLength := Read(bs, 16, bits, 32);
    var free := bs.buf.Length - bs.used;
    if free < packetLength {
      packetLength := free;
    }
    if !FullHeader(streamId) {
      return OtherStream(streamId, packetLength);
    }
    if bs.buf.Length == 8 {
      // one byte short of the header length: the source gives up with no bits counted
      return TooShort;
    }
    var h := ReadHeader(bs, bits, prefix, streamId, packetLength);
    if !PlainHeader(h) {
      return OtherHeader;
    }
    if HeaderBitCount(h.ptsDtsFlags, h.copyInfoFlag) > 8 * bs.buf.Length {
      // the source does not look: it reads on past the end of its buffer
      return HeaderPastEnd;
    }
    r := ParseRest(bs, buf, h, skipData);
  }

  // ---------------------------------------------------------------- without the payload, and without the header

  /** The length is cut to the buffer before the header is read, so that the payload never has to be: no truncation. */
  lemma NeverTruncated(buf: Bytes, skipData: bool)
    ensures ParsePes(buf, skipData).Parsed? ==> !ParsePes(buf, skipData).truncated
  {
    hide At, BytesBits, ParseFull;
    if |buf| >= 9 {
      var wireLength := At(BytesBits(buf), 32, 16);
      WholePayload(buf, FixedHeader(BytesBits(buf), if |buf| - 6 < wireLength then |buf| - 6 else wireLength),
          skipData);
    }
  }

  lemma WholePayload(buf: Bytes, h: PesPacket, skipData: bool)
    requires |buf| >= 9 && h.packetLength <= |buf| - 6
    ensures ParseFull(buf, h, skipData).Parsed? ==> !ParseFull(buf, h, skipData).truncated
  {
    hide At, BytesBits, TimesAt, PlainHeader;
    HeaderBytesWhole(h.ptsDtsFlags, h.copyInfoFlag);
  }

  lemma HeaderBytesWhole(flags: nat, copyInfoFlag: nat)
    ensures HeaderBitCount(flags, copyInfoFlag) % 8 == 0
  {
  }

  /** The same but for the payload, its bits and the truncation. */
  predicate SameButPayload(without: ParseResult, full: ParseResult)
  {
    match full
    case Parsed(p, n, over, _) => n >= 8 * |p.data| && without == Parsed(p.(data := []), n - 8 * |p.data|, over, false)
    case _ => without == full
  }

  lemma HeaderWithoutPayload(buf: Bytes, h: PesPacket)
    requires |buf| >= 9 && h.data == []
    ensures SameButPayload(ParseFull(buf, h, true), ParseFull(buf, h, false))
  {
    hide At, BytesBits, IsTruncated, PlainHeader, TimesAt;
    var bits, headerBits := BytesBits(buf), HeaderBitCount(h.ptsDtsFlags, h.copyInfoFlag);
    if PlainHeader(h) && headerBits <= 8 * |buf| {
      var q, k := HeaderRead(bits, h), PayloadStart(bits, h) / 8;
      var n := DataLength(h.packetLength, headerBits, |buf| - k);
      assert |buf[k..k + n]| == n && q.(data := buf[k..k + n]).(data := []) == q;
    }
  }

  /** Asked to leave the payload out, the parse gives all the rest. */
  lemma WithoutPayload(buf: Bytes)
    ensures SameButPayload(ParsePes(buf, true), ParsePes(buf, false))
  {
    hide At, BytesBits, ParseFull, SameButPayload;
    if |buf| >= 9 {
      var wireLength := At(BytesBits(buf), 32, 16);
      HeaderWithoutPayload(buf, FixedHeader(BytesBits(buf), if |buf| - 6 < wireLength then |buf| - 6 else wireLength));
    }
    SameNothing(ParsePes(buf, false));
  }

  lemma SameNothing(r: ParseResult)
    ensures !r.Parsed? ==> SameButPayload(r, r)
  {
  }

  /**
   * The fourth byte says whether the PES has the full header: program stream map, padding, private stream 2 and so
   * on.
   */
  lemma OtherStreams(buf: Bytes, skipData: bool)
    requires |buf| >= 8
    ensures ParsePes(buf, skipData).OtherStream? <==> buf[3] in {0xBC, 0xBE, 0xBF, 0xF0, 0xF1, 0xFF, 0xF2, 0xF8}
  {
    hide BytesBits, FixedHeader, PlainHeader, HeaderRead, PayloadStart;
    FourthByte(buf);
  }

  lemma FourthByte(buf: Bytes)
    requires |buf| >= 4
    ensures At(BytesBits(buf), 24, 8) == buf[3]
  {
    hide BytesBits;
    ByteIsItsBits(buf, 3);
  }

  // ---------------------------------------------------------------- the round trip

  lemma PowersUsed()
    ensures Pow2(1) == 2 && Pow2(2) == 4 && Pow2(3) == 8 && Pow2(7) == 0x80 && Pow2(8) == 0x100
    ensures Pow2(15) == 0x8000 && Pow2(16) == 0x1_0000 && Pow2(24) == 0x100_0000
  {
    Powers();
    assert Pow2(10) == 0x400 && Pow2(12) == 0x1000 && Pow2(14) == 0x4000;
    assert Pow2(18) == 0x4_0000 && Pow2(20) == 0x10_0000 && Pow2(22) == 0x40_0000;
  }

  /** A timestamp written is the timestamp read. */
  lemma TimestampReads(before: seq<bit>, tag: nat, v: nat, after: seq<bit>)
    requires v < 0x2_0000_0000
    ensures var bits := before + FieldBits(TimestampFields(tag, v)) + after;
            |FieldBits(TimestampFields(tag, v))| == 40
            && TimestampAt(bits, |before| + 4) == (v, |before| + 40)
  {
    hide At, FieldBits, Offset, Pow2, TimestampFields;
    var fs := TimestampFields(tag, v);
    var bits := before + FieldBits(fs) + after;
    TimestampOffsets(tag, v);
    PowersUsed();
    FieldAt(before, fs, after, 1);
    FieldAt(before, fs, after, 2);
    FieldAt(before, fs, after, 3);
    FieldAt(before, fs, after, 4);
    FieldAt(before, fs, after, 5);
    FieldAt(before, fs, after, 6);
    TimestampSum(v);
  }

  lemma TimestampOffsets(tag: nat, v: nat)
    ensures var fs := TimestampFields(tag, v);
      && |fs| == 7
      && Offset(fs, 1) == 4 && Offset(fs, 2) == 7 && Offset(fs, 3) == 8 && Offset(fs, 4) == 23
      && Offset(fs, 5) == 24 && Offset(fs, 6) == 39 && Offset(fs, 7) == 40
      && fs[1] == Field(v / 0x4000_0000, 3) && fs[2] == Field(1, 1) && fs[3] == Field(v / 0x8000, 15)
      && fs[4] == Field(1, 1) && fs[5] == Field(v, 15) && fs[6] == Field(1, 1)
  {
    var fs := TimestampFields(tag, v);
    assert Offset(fs, 1) == 4 && Offset(fs, 2) == 7 && Offset(fs, 3) == 8 && Offset(fs, 4) == 23;
  }

  lemma TimestampSum(v: nat)
    requires v < 0x2_0000_0000
    ensures v / 0x4000_0000 % 8 * 0x4000_0000 + v / 0x8000 % 0x8000 * 0x8000 + v % 0x8000 == v
  {
    var low := v / 0x8000;
    assert v == low * 0x8000 + v % 0x8000;
    assert low / 0x8000 == v / 0x4000_0000;
    assert low == low / 0x8000 * 0x8000 + low % 0x8000;
  }

  /** Every field inside its width, and nothing set that the flags do not announce. */
  predicate Packable(p: PesPacket)
  {
    && PlainHeader(p)
    && p.prefix < 0x100_0000 && p.streamId < 0x100 && p.packetLength < 0x1_0000
    && p.scrambling < 4 && p.priority < 2 && p.alignment < 2 && p.copyright < 2 && p.original < 2
    && p.ptsDtsFlags < 4 && p.copyInfoFlag < 2 && p.headerDataLength < 0x100
    && 0 <= p.pts < 0x2_0000_0000 && 0 <= p.dts < 0x2_0000_0000 && p.copyInfo < 0x80
    && (p.ptsDtsFlags < 2 ==> p.pts == 0)
    && (p.ptsDtsFlags != 3 ==> p.dts == 0)
    && (p.copyInfoFlag == 0 ==> p.copyInfo == 0)
  }

  /** The packet without its payload and its timestamps, as the fixed header gives it. */
  function Bare(p: PesPacket, packetLength: nat): PesPacket
  {
    p.(packetLength := packetLength, pts := 0, dts := 0, copyInfo := 0, data := [])
  }

  lemma HeaderOffsets(p: PesPacket)
    ensures var fs := HeaderFields(p);
      && |fs| == 17
      && Offset(fs, 0) == 0 && Offset(fs, 1) == 24 && Offset(fs, 2) == 32 && Offset(fs, 3) == 48
      && Offset(fs, 4) == 50 && Offset(fs, 5) == 52 && Offset(fs, 6) == 53 && Offset(fs, 7) == 54
      && Offset(fs, 8) == 55 && Offset(fs, 9) == 56 && Offset(fs, 10) == 58 && Offset(fs, 11) == 59
      && Offset(fs, 12) == 60 && Offset(fs, 13) == 61 && Offset(fs, 14) == 62 && Offset(fs, 15) == 63
      && Offset(fs, 16) == 64 && Offset(fs, 17) == 72
  {
    var fs := HeaderFields(p);
    assert Offset(fs, 1) == 24 && Offset(fs, 2) == 32 && Offset(fs, 3) == 48 && Offset(fs, 4) == 50;
    assert Offset(fs, 5) == 52 && Offset(fs, 6) == 53 && Offset(fs, 7) == 54 && Offset(fs, 8) == 55;
    assert Offset(fs, 9) == 56 && Offset(fs, 10) == 58 && Offset(fs, 11) == 59 && Offset(fs, 12) == 60;
    assert Offset(fs, 13) == 61 && Offset(fs, 14) == 62 && Offset(fs, 15) == 63 && Offset(fs, 16) == 64;
  }

  lemma SmallRemainder(v: nat, p: nat)
    requires v < p
    ensures v % p == v
  {
  }

  /** Field `k` of a header in range reads back as itself. */
  lemma HeaderFieldReads(p: PesPacket, after: seq<bit>, k: nat)
    requires Packable(p) && k < 17
    ensures var fs := HeaderFields(p);
            Offset(fs, k) + fs[k].width <= |FieldBits(fs) + after|
            && At(FieldBits(fs) + after, Offset(fs, k), fs[k].width) == fs[k].value
  {
    hide At, FieldBits, Offset;
    var fs := HeaderFields(p);
    FieldAt([], fs, after, k);
    assert [] + FieldBits(fs) + after == FieldBits(fs) + after;
    PowersUsed();
    hide Pow2;
    assert fs[k].value < Pow2(fs[k].width);
    SmallRemainder(fs[k].value, Pow2(fs[k].width));
  }

  /** The fixed header written is the fixed header read. */
  lemma HeaderReads(p: PesPacket, after: seq<bit>, packetLength: nat)
    requires Packable(p)
    ensures |FieldBits(HeaderFields(p))| == 72
    ensures var bits := FieldBits(HeaderFields(p)) + after;
            At(bits, 32, 16) == p.packetLength && FixedHeader(bits, packetLength) == Bare(p, packetLength)
  {
    hide At, FieldBits, Offset, Packable;
    HeaderOffsets(p);
    HeaderFieldReads(p, after, 0);
    HeaderFieldReads(p, after, 1);
    HeaderFieldReads(p, after, 2);
    HeaderFieldReads(p, after, 4);
    HeaderFieldReads(p, after, 5);
    HeaderFieldReads(p, after, 6);
    HeaderFieldReads(p, after, 7);
    HeaderFieldReads(p, after, 8);
    HeaderFieldReads(p, after, 9);
    HeaderFieldReads(p, after, 10);
    HeaderFieldReads(p, after, 11);
    HeaderFieldReads(p, after, 12);
    HeaderFieldReads(p, after, 13);
    HeaderFieldReads(p, after, 14);
    HeaderFieldReads(p, after, 15);
    HeaderFieldReads(p, after, 16);
    NotAnnounced(p);
  }

  lemma NotAnnounced(p: PesPacket)
    requires Packable(p)
    ensures p.escrFlag == 0 && p.esRateFlag == 0 && p.trickModeFlag == 0 && p.crcFlag == 0 && p.extensionFlag == 0
  {
  }

  /** The timestamps written are the timestamps read. */
  lemma TimesRead(p: PesPacket, after: seq<bit>)
    requires Packable(p)
    ensures var n := HeaderBitCount(p.ptsDtsFlags, 0);
            |FieldBits(HeaderFields(p)) + FieldBits(TimeFields(p))| == n
            && TimesAt(FieldBits(HeaderFields(p)) + FieldBits(TimeFields(p)) + after, p.ptsDtsFlags)
               == (p.pts, p.dts, n)
  {
    hide At, FieldBits, Offset, TimestampAt, TimestampFields, HeaderFields;
    var h := FieldBits(HeaderFields(p));
    HeaderReads(p, [], 0);
    if p.ptsDtsFlags == 2 {
      TimestampReads(h, 2, p.pts, after);
    } else if p.ptsDtsFlags == 3 {
      var t1, t2 := TimestampFields(3, p.pts), TimestampFields(1, p.dts);
      FieldBitsAppend(t1, t2);
      TimestampReads(h, 3, p.pts, FieldBits(t2) + after);
      TimestampReads(h + FieldBits(t1), 1, p.dts, after);
      assert h + FieldBits(t1 + t2) + after == h + FieldBits(t1) + (FieldBits(t2) + after);
      assert h + FieldBits(t1 + t2) + after == (h + FieldBits(t1)) + FieldBits(t2) + after;
    } else {
      NothingWritten();
    }
  }

  lemma CopyReads(before: seq<bit>, p: PesPacket, after: seq<bit>)
    requires Packable(p) && p.copyInfoFlag != 0
    ensures |FieldBits(CopyFields(p))| == 8
    ensures At(before + FieldBits(CopyFields(p)) + after, |before| + 1, 7) == p.copyInfo
  {
    var fs := CopyFields(p);
    assert fs == [Field(1, 1), Field(p.copyInfo, 7)];
    CopyOffsets(fs, p.copyInfo);
    hide At, FieldBits, Offset, Pow2, Packable, CopyFields;
    FieldAt(before, fs, after, 1);
    PowersUsed();
    CopyInfoInRange(p);
  }

  lemma CopyOffsets(fs: seq<Field>, copyInfo: nat)
    requires fs == [Field(1, 1), Field(copyInfo, 7)]
    ensures Offset(fs, 1) == 1 && Offset(fs, 2) == 8
  {
  }

  lemma CopyInfoInRange(p: PesPacket)
    requires Packable(p)
    ensures p.copyInfo < 0x80
  {
  }

  lemma SameTails<T>(a: seq<T>, b: seq<T>, c: seq<T>, d: seq<T>)
    requires a + b == c + d && |a| == |c|
    ensures b == d
  {
    assert (a + b)[|a|..] == b && (c + d)[|c|..] == d;
  }

  lemma DataReads(before: seq<bit>, data: Bytes, buf: Bytes)
    requires |before| % 8 == 0 && BytesBits(buf) == before + BytesBits(data)
    ensures |buf| == |before| / 8 + |data| && buf[|before| / 8..] == data
  {
    hide BytesBits;
    var k := |before| / 8;
    var front, back := buf[..k], buf[k..];
    SplitJoin(buf, k);
    BytesBitsAppend(front, back);
    SameTails(BytesBits(front), BytesBits(back), before, BytesBits(data));
    BytesOfBits(back, data);
  }

  lemma SplitJoin<T>(s: seq<T>, k: nat)
    requires k <= |s|
    ensures s[..k] + s[k..] == s
  {
  }

  /** Bytes that the payload length counts from: the header behind PES_packet_length. */
  function HeaderTail(p: PesPacket): nat
  {
    (HeaderBitCount(p.ptsDtsFlags, p.copyInfoFlag) - 48) / 8
  }

  /** What a buffer that holds a packed packet looks like to the parser. */
  ghost predicate LaidOut(p: PesPacket, buf: Bytes)
  {
    var bits := BytesBits(buf);
    var k := HeaderBitCount(p.ptsDtsFlags, p.copyInfoFlag) / 8;
    && |buf| == k + |p.data| && buf[k..] == p.data
    && HeaderBitCount(p.ptsDtsFlags, 0) + (if p.copyInfoFlag != 0 then 8 else 0) <= |bits|
    && At(bits, 32, 16) == p.packetLength
    && (forall length: nat :: FixedHeader(bits, length) == Bare(p, length))
    && TimesAt(bits, p.ptsDtsFlags) == (p.pts, p.dts, HeaderBitCount(p.ptsDtsFlags, 0))
    && (p.copyInfoFlag != 0 ==> At(bits, HeaderBitCount(p.ptsDtsFlags, 0) + 1, 7) == p.copyInfo)
  }

  lemma PackedLayout(p: PesPacket, buf: Bytes)
    requires Packable(p) && BytesBits(buf) == PesBits(p)
    ensures LaidOut(p, buf)
  {
    hide At, FieldBits, Offset, BytesBits, HeaderFields, TimeFields, CopyFields, TimesAt, FixedHeader, Pow2, Bare;
    var h, t, c := FieldBits(HeaderFields(p)), FieldBits(TimeFields(p)), FieldBits(CopyFields(p));
    var d, bits := BytesBits(p.data), BytesBits(buf);
    FieldBitsAppend(HeaderFields(p) + TimeFields(p), CopyFields(p));
    FieldBitsAppend(HeaderFields(p), TimeFields(p));
    assert bits == h + (t + c + d);
    assert bits == h + t + (c + d);
    TimesRead(p, c + d);
    CopyLength(p, h + t, d);
    DataReads(h + t + c, p.data, buf);
    forall length: nat ensures FixedHeader(bits, length) == Bare(p, length) {
      HeaderReads(p, t + c + d, length);
    }
    HeaderReads(p, t + c + d, 0);
  }

  lemma CopyLength(p: PesPacket, before: seq<bit>, after: seq<bit>)
    requires Packable(p)
    ensures |FieldBits(CopyFields(p))| == if p.copyInfoFlag != 0 then 8 else 0
    ensures p.copyInfoFlag != 0 ==> At(before + FieldBits(CopyFields(p)) + after, |before| + 1, 7) == p.copyInfo
  {
    hide At, FieldBits;
    if p.copyInfoFlag != 0 { CopyReads(before, p, after); } else { NothingWritten(); }
  }

  lemma FullIsPlain(p: PesPacket, packetLength: nat)
    requires Packable(p)
    ensures PlainHeader(Bare(p, packetLength)) && FullHeader(p.streamId)
  {
  }

  lemma StreamIdOf(bits: seq<bit>, p: PesPacket)
    requires 72 <= |bits| && FixedHeader(bits, 0) == Bare(p, 0)
    ensures At(bits, 24, 8) == p.streamId
  {
  }

  /**
   * Parsing what pack wrote: for a packet with every field in range, the parse gives the packet
   * back with the length the buffer allows and the payload that length allows.
   */
  lemma ParsesPacked(p: PesPacket, buf: Bytes)
    requires Packable(p) && BytesBits(buf) == PesBits(p)
    ensures |buf| == 6 + HeaderTail(p) + |p.data|
    ensures var length := if p.packetLength > |buf| - 6 then |buf| - 6 else p.packetLength;
            var n := if length < HeaderTail(p) then |p.data| else length - HeaderTail(p);
            var headerBits := HeaderBitCount(p.ptsDtsFlags, p.copyInfoFlag);
            n <= |p.data|
            && ParsePes(buf, false) == Parsed(p.(packetLength := length, data := p.data[..n]), headerBits + 8 * n,
                                              p.data == [] && headerBits > 72, false)
  {
    hide At, BytesBits, TimesAt, FixedHeader, Packable, PlainHeader, FullHeader, FieldBits, AllFields, ParseFull,
        ParsePes, LaidOut, HeaderFields, TimeFields, CopyFields;
    PackedLayout(p, buf);
    var length := if p.packetLength > |buf| - 6 then |buf| - 6 else p.packetLength;
    var n := if length < HeaderTail(p) then |p.data| else length - HeaderTail(p);
    LaidOutLength(p, buf);
    FullIsPlain(p, length);
    CopyAnnounced(p);
    PlainParses(p, buf, length, n);
    FullParses(p, buf, length);
  }

  lemma LaidOutLength(p: PesPacket, buf: Bytes)
    requires LaidOut(p, buf)
    ensures |buf| == 6 + HeaderTail(p) + |p.data| && |buf| >= 9
  {
  }

  lemma FullParses(p: PesPacket, buf: Bytes, length: nat)
    requires |buf| >= 9 && LaidOut(p, buf) && FullHeader(p.streamId)
    requires length == if p.packetLength > |buf| - 6 then |buf| - 6 else p.packetLength
    ensures ParsePes(buf, false) == ParseFull(buf, Bare(p, length), false)
  {
    hide At, BytesBits, TimesAt, FixedHeader, FullHeader, ParseFull, HeaderBitCount;
    StreamIdOf(BytesBits(buf), p);
  }

  lemma PlainParses(p: PesPacket, buf: Bytes, length: nat, n: nat)
    requires |buf| >= 9 && LaidOut(p, buf) && PlainHeader(Bare(p, length)) && length <= |buf| - 6
    requires n == if length < HeaderTail(p) then |p.data| else length - HeaderTail(p)
    requires p.copyInfoFlag == 0 ==> p.copyInfo == 0
    ensures var headerBits := HeaderBitCount(p.ptsDtsFlags, p.copyInfoFlag);
            n <= |p.data|
            && ParseFull(buf, Bare(p, length), false)
               == Parsed(p.(packetLength := length, data := p.data[..n]), headerBits + 8 * n,
                         p.data == [] && headerBits > 72, false)
  {
    hide At, BytesBits, TimesAt, FixedHeader, PlainHeader, FieldBits, AllFields;
    var k := HeaderBitCount(p.ptsDtsFlags, p.copyInfoFlag) / 8;
    assert HeaderBitCount(p.ptsDtsFlags, p.copyInfoFlag) == 8 * k && HeaderTail(p) == k - 6;
    assert buf[k..k + n] == buf[k..][..n];
  }

  lemma CopyAnnounced(p: PesPacket)
    requires Packable(p)
    ensures p.copyInfoFlag == 0 ==> p.copyInfo == 0
  {
  }

  lemma InRange(p: PesPacket)
    requires Packable(p)
    ensures p.pts >= 0 && p.dts >= 0
  {
  }

  /**
   * Pack then parse is the identity, with equal bit counts, exactly when PES_packet_length agrees
   * with the packet or is too small to cover the header (0 above all: payload to the end).
   */
  lemma PackThenParse(p: PesPacket, buf: Bytes)
    requires Packable(p) && BytesBits(buf) == PesBits(p)
    ensures ParsePes(buf, false) == Parsed(p, |PesBits(p)|, p.data == [] && |PesBits(p)| > 72, false)
            <==> p.packetLength == HeaderTail(p) + |p.data| || p.packetLength < HeaderTail(p)
  {
    InRange(p);
    TailBits(p);
    hide ParsePes, PesBits, Packable, BytesBits, HeaderTail, HeaderBitCount;
    ParsesPacked(p, buf);
    var tail := HeaderTail(p);
    assert |PesBits(p)| == 8 * |buf| == 48 + 8 * tail + 8 * |p.data|;
    assert p.data[..|p.data|] == p.data;
    if p.packetLength == tail + |p.data| || p.packetLength < tail {
      assert p.(packetLength := p.packetLength, data := p.data) == p;
    } else if p.packetLength > |buf| - 6 {
      assert ParsePes(buf, false).pes.packetLength != p.packetLength;
    } else {
      assert |ParsePes(buf, false).pes.data| != |p.data|;
    }
  }

  lemma TailBits(p: PesPacket)
    ensures HeaderBitCount(p.ptsDtsFlags, p.copyInfoFlag) == 48 + 8 * HeaderTail(p)
  {
  }
}
