/** The one-packet PAT and PMT builders of src/pat.c. */
module Psi {
  import opened Bytes
  import opened Wrappers
  import opened TsPacket
  import opened Crc32

  const PAT_TABLE: byte := 0x00
  const PMT_TABLE: byte := 0x02

  /** Room for a section behind the header and the pointer field. */
  const SECTION_ROOM := 183

  datatype Program = Program(programNumber: nat, pmtPid: nat)

  datatype Pat = Pat(transportStreamId: nat, versionNumber: nat, currentNext: nat, programs: seq<Program>)

  datatype Descriptor = Descriptor(tag: byte, data: Bytes)

  datatype Stream = Stream(streamType: nat, pid: nat, descriptors: seq<Descriptor>)

  datatype Pmt = Pmt(programNumber: nat, versionNumber: nat, currentNext: nat, pcrPid: nat,
                     descriptors: seq<Descriptor>, streams: seq<Stream>)

  // ---------------------------------------------------------------- bytes

  function Octet(n: nat): byte { n % 0x100 }

  function AsBits(b: byte): bv8 { b as bv8 }

  function OfBits(b: bv8): byte { b as int }

  lemma BitsBack(b: bv8)
    ensures AsBits(OfBits(b)) == b
  {
  }

  function BitBytes(s: Bytes): (r: seq<bv8>)
    ensures |r| == |s|
  {
    seq(|s|, i requires 0 <= i < |s| => AsBits(s[i]))
  }

  /** Reserved bits and the two flags; the version is compared with one instead of shifted by one. */
  function VersionByte(versionNumber: nat, currentNext: nat): byte
  {
    OfBits(0xC0 | (if versionNumber % 0x20 < 1 then 1 else 0) | AsBits(Octet(currentNext)))
  }

  function CrcBytes(body: Bytes): (r: Bytes)
    ensures |r| == 4
  {
    BigEndianBytes(SerialFold(INITIAL, BitBytes(body)))
  }

  function BigEndianBytes(crc: bv32): (r: Bytes)
    ensures |r| == 4
  {
    [OfBits(HighByte(crc)), OfBits(SecondByte(crc)), OfBits(ThirdByte(crc)), OfBits(LowByte(crc))]
  }

  function Section(body: Bytes): (r: Bytes)
    ensures |r| == |body| + 4
  {
    body + CrcBytes(body)
  }

  function Header(pid: nat, cc: nat): (r: Bytes)
    ensures |r| == 5
  {
    [0x47, 0x40 + pid % 0x2000 / 0x100, Octet(pid), 0x10 + cc % 0x10, 0x00]
  }

  function Fill(n: nat): (r: Bytes)
    ensures |r| == n
  {
    seq(n, _ => 0xFF)
  }

  /** What has been written so far, and stuffing to the end of the packet. */
  function Padded(done: Bytes): (r: Bytes)
    requires |done| <= PACKET_SIZE
    ensures |r| == PACKET_SIZE
  {
    done + Fill(PACKET_SIZE - |done|)
  }

  // ---------------------------------------------------------------- sections

  function ProgramBytes(p: Program): (r: Bytes)
    ensures |r| == 4
  {
    [Octet(p.programNumber / 0x100), Octet(p.programNumber), 0xE0 + p.pmtPid / 0x100 % 0x20, Octet(p.pmtPid)]
  }

  function ProgramsBytes(ps: seq<Program>): (r: Bytes)
    ensures |r| == 4 * |ps|
  {
    if ps == [] then [] else ProgramsBytes(ps[..|ps| - 1]) + ProgramBytes(ps[|ps| - 1])
  }

  function PatStart(pat: Pat): (r: Bytes)
    ensures |r| == 8
  {
    [PAT_TABLE, 0xB0, Octet(9 + 4 * |pat.programs|),
     Octet(pat.transportStreamId / 0x100), Octet(pat.transportStreamId),
     VersionByte(pat.versionNumber, pat.currentNext), 0x00, 0x00]
  }

  function PatBody(pat: Pat): (r: Bytes)
    ensures |r| == 8 + 4 * |pat.programs|
  {
    PatStart(pat) + ProgramsBytes(pat.programs)
  }

  function DescriptorBytes(d: Descriptor): (r: Bytes)
    ensures |r| == |d.data| + 2
  {
    [d.tag, Octet(|d.data|)] + d.data
  }

  function DescriptorsBytes(ds: seq<Descriptor>): Bytes
  {
    if ds == [] then [] else DescriptorsBytes(ds[..|ds| - 1]) + DescriptorBytes(ds[|ds| - 1])
  }

  function StreamStart(s: Stream): (r: Bytes)
    ensures |r| == 5
  {
    var inner := |DescriptorsBytes(s.descriptors)|;
    [Octet(s.streamType), 0xE0 + s.pid % 0x2000 / 0x100, Octet(s.pid), 0xF0 + inner % 0x1000 / 0x100, Octet(inner)]
  }

  function StreamBytes(s: Stream): (r: Bytes)
    ensures |r| == 5 + |DescriptorsBytes(s.descriptors)|
  {
    StreamStart(s) + DescriptorsBytes(s.descriptors)
  }

  function StreamsBytes(ss: seq<Stream>): Bytes
  {
    if ss == [] then [] else StreamsBytes(ss[..|ss| - 1]) + StreamBytes(ss[|ss| - 1])
  }

  function InnerLength(ss: seq<Stream>): nat
  {
    if ss == [] then 0 else InnerLength(ss[..|ss| - 1]) + |DescriptorsBytes(ss[|ss| - 1].descriptors)|
  }

  lemma {:induction false} StreamsLength(ss: seq<Stream>)
    ensures |StreamsBytes(ss)| == 5 * |ss| + InnerLength(ss)
  {
    if ss != [] {
      StreamsLength(ss[..|ss| - 1]);
    }
  }

  function PmtStart(pmt: Pmt): (r: Bytes)
    ensures |r| == 12
  {
    var outer := |DescriptorsBytes(pmt.descriptors)|;
    [PMT_TABLE, 0xB0, Octet(9 + 4 + 5 * |pmt.streams| + outer + InnerLength(pmt.streams)),
     Octet(pmt.programNumber / 0x100), Octet(pmt.programNumber),
     VersionByte(pmt.versionNumber, pmt.currentNext), 0x00, 0x00,
     0xE0 + pmt.pcrPid % 0x2000 / 0x100, Octet(pmt.pcrPid), 0xF0 + outer % 0x1000 / 0x100, Octet(outer)]
  }

  function PmtBody(pmt: Pmt): (r: Bytes)
    ensures |r| == 12 + |DescriptorsBytes(pmt.descriptors)| + |StreamsBytes(pmt.streams)|
  {
    PmtStart(pmt) + DescriptorsBytes(pmt.descriptors) + StreamsBytes(pmt.streams)
  }

  // ---------------------------------------------------------------- the code

  /** A run of writes through the running index. */
  method Put(packet: array<byte>, i: nat, bytes: Bytes, ghost done: Bytes) returns (next: nat)
    requires packet.Length == PACKET_SIZE && i == |done| && |done| + |bytes| <= PACKET_SIZE
    requires packet[..] == Padded(done)
    modifies packet
    ensures next == i + |bytes| && packet[..] == Padded(done + bytes)
  {
    next := i;
    for k := 0 to |bytes|
      invariant next == i + k
      invariant packet[..] == Padded(done + bytes[..k])
    {
      packet[next] := bytes[k];
      PaddedNext(done + bytes[..k], bytes[k]);
      assert done + bytes[..k + 1] == (done + bytes[..k]) + [bytes[k]];
      next := next + 1;
    }
    assert bytes[..|bytes|] == bytes;
  }

  lemma PaddedNext(done: Bytes, b: byte)
    requires |done| < PACKET_SIZE
    ensures Padded(done)[|done| := b] == Padded(done + [b])
  {
  }

  lemma PaddedBody(head: Bytes, body: Bytes)
    requires |head| == 5 && |body| + 5 <= PACKET_SIZE
    ensures Padded(head + body)[5..5 + |body|] == body
  {
  }

  /** The CRC over everything behind the pointer field, high byte first. */
  method PutCrc(packet: array<byte>, i: nat, ghost pid: nat, ghost cc: nat, ghost body: Bytes)
    requires packet.Length == PACKET_SIZE && body != [] && |body| + 4 <= SECTION_ROOM
    requires i == 5 + |body| && packet[..] == Padded(Header(pid, cc) + body)
    modifies packet
    ensures packet[..] == Padded(Header(pid, cc) + Section(body))
  {
    hide BigEndianBytes, SerialFold, Padded, Header, BitBytes;
    PaddedBody(Header(pid, cc), body);
    assert packet[5..i] == packet[..][5..i];
    var crc := GetCrc32(BitBytes(packet[5..i]));
    var bytes := BigEndianBytes(crc.value);
    assert Header(pid, cc) + body + bytes == Header(pid, cc) + Section(body);
    var _ := Put(packet, i, bytes, Header(pid, cc) + body);
  }

  /** memset to stuffing. */
  method Clear(packet: array<byte>)
    requires packet.Length == PACKET_SIZE
    modifies packet
    ensures packet[..] == Padded([])
  {
    for i := 0 to PACKET_SIZE
      invariant forall k :: 0 <= k < i ==> packet[k] == 0xFF
    {
      packet[i] := 0xFF;
    }
  }

  lemma NoPrograms(head: Bytes, ps: seq<Program>)
    ensures head + ProgramsBytes(ps[..0]) == head
  {
  }

  lemma NextProgram(head: Bytes, ps: seq<Program>, j: nat)
    requires j < |ps|
    ensures head + ProgramsBytes(ps[..j + 1]) == head + ProgramsBytes(ps[..j]) + ProgramBytes(ps[j])
  {
    assert ps[..j + 1][..j] == ps[..j];
  }

  /** ltntstools_pat_create_packet_ts; the table must fit the packet. */
  method PatCreatePacket(pat: Pat, cc: nat, packet: array<byte>) returns (r: int)
    requires |PatBody(pat)| + 4 <= SECTION_ROOM
    modifies packet
    ensures packet.Length != PACKET_SIZE ==> r == -1 && packet[..] == old(packet[..])
    ensures packet.Length == PACKET_SIZE ==> r == 0 && packet[..] == Padded(Header(0, cc) + Section(PatBody(pat)))
  {
    if packet.Length != PACKET_SIZE {
      return -1;
    }
    hide VersionByte, CrcBytes, Padded, ProgramBytes, ProgramsBytes, PatStart, Header;
    Clear(packet);
    var head := Header(0, cc) + PatStart(pat);
    assert [] + head == head;
    var i := Put(packet, 0, head, []);
    NoPrograms(head, pat.programs);
    for j := 0 to |pat.programs|
      invariant i == |head| + 4 * j
      invariant packet[..] == Padded(head + ProgramsBytes(pat.programs[..j]))
    {
      NextProgram(head, pat.programs, j);
      i := Put(packet, i, ProgramBytes(pat.programs[j]), head + ProgramsBytes(pat.programs[..j]));
    }
    assert pat.programs[..|pat.programs|] == pat.programs;
    assert head + ProgramsBytes(pat.programs) == Header(0, cc) + PatBody(pat);
    PutCrc(packet, i, 0, cc, PatBody(pat));
    r := 0;
  }

  method PutDescriptors(packet: array<byte>, i: nat, ds: seq<Descriptor>, ghost done: Bytes) returns (next: nat)
    requires packet.Length == PACKET_SIZE && i == |done| && |done| + |DescriptorsBytes(ds)| <= PACKET_SIZE
    requires packet[..] == Padded(done)
    modifies packet
    ensures next == i + |DescriptorsBytes(ds)| && packet[..] == Padded(done + DescriptorsBytes(ds))
  {
    hide Padded, DescriptorBytes;
    next := i;
    assert done + DescriptorsBytes([]) == done;
    for j := 0 to |ds|
      invariant |DescriptorsBytes(ds[..j])| <= |DescriptorsBytes(ds)|
      invariant next == i + |DescriptorsBytes(ds[..j])|
      invariant packet[..] == Padded(done + DescriptorsBytes(ds[..j]))
    {
      DescriptorsPrefix(ds, j + 1);
      assert ds[..j + 1][..j] == ds[..j];
      assert done + DescriptorsBytes(ds[..j + 1]) == done + DescriptorsBytes(ds[..j]) + DescriptorBytes(ds[j]);
      next := Put(packet, next, DescriptorBytes(ds[j]), done + DescriptorsBytes(ds[..j]));
    }
    assert ds[..|ds|] == ds;
  }

  lemma {:induction false} DescriptorsPrefix(ds: seq<Descriptor>, n: nat)
    requires n <= |ds|
    ensures |DescriptorsBytes(ds[..n])| <= |DescriptorsBytes(ds)|
    decreases |ds|
  {
    if n < |ds| {
      DescriptorsPrefix(ds[..|ds| - 1], n);
      assert ds[..|ds| - 1][..n] == ds[..n];
    } else {
      assert ds[..n] == ds;
    }
  }

  /** What the descriptors take, added up entry by entry. */
  method DescriptorsSize(ds: seq<Descriptor>) returns (size: nat)
    ensures size == |DescriptorsBytes(ds)|
  {
    size := 0;
    for j := 0 to |ds|
      invariant size == |DescriptorsBytes(ds[..j])|
    {
      assert ds[..j + 1][..j] == ds[..j];
      size := size + |ds[j].data| + 2;
    }
    assert ds[..|ds|] == ds;
  }

  lemma {:induction false} StreamsPrefix(ss: seq<Stream>, n: nat)
    requires n <= |ss|
    ensures |StreamsBytes(ss[..n])| <= |StreamsBytes(ss)|
    decreases |ss|
  {
    if n < |ss| {
      StreamsPrefix(ss[..|ss| - 1], n);
      assert ss[..|ss| - 1][..n] == ss[..n];
    } else {
      assert ss[..n] == ss;
    }
  }

  method PutStream(packet: array<byte>, i: nat, s: Stream, ghost done: Bytes) returns (next: nat)
    requires packet.Length == PACKET_SIZE && i == |done| && |done| + |StreamBytes(s)| <= PACKET_SIZE
    requires packet[..] == Padded(done)
    modifies packet
    ensures next == i + |StreamBytes(s)| && packet[..] == Padded(done + StreamBytes(s))
  {
    hide Padded, DescriptorsBytes;
    var inner := DescriptorsSize(s.descriptors);
    next := Put(packet, i, [Octet(s.streamType), 0xE0 + s.pid % 0x2000 / 0x100, Octet(s.pid),
                            0xF0 + inner % 0x1000 / 0x100, Octet(inner)], done);
    next := PutDescriptors(packet, next, s.descriptors, done + StreamStart(s));
    assert done + StreamBytes(s) == done + StreamStart(s) + DescriptorsBytes(s.descriptors);
  }

  method PutStreams(packet: array<byte>, i: nat, ss: seq<Stream>, ghost done: Bytes) returns (next: nat)
    requires packet.Length == PACKET_SIZE && i == |done| && |done| + |StreamsBytes(ss)| <= PACKET_SIZE
    requires packet[..] == Padded(done)
    modifies packet
    ensures next == i + |StreamsBytes(ss)| && packet[..] == Padded(done + StreamsBytes(ss))
  {
    hide Padded, StreamBytes;
    next := i;
    assert done + StreamsBytes([]) == done;
    for j := 0 to |ss|
      invariant |StreamsBytes(ss[..j])| <= |StreamsBytes(ss)|
      invariant next == i + |StreamsBytes(ss[..j])|
      invariant packet[..] == Padded(done + StreamsBytes(ss[..j]))
    {
      StreamsPrefix(ss, j + 1);
      assert ss[..j + 1][..j] == ss[..j];
      assert done + StreamsBytes(ss[..j + 1]) == done + StreamsBytes(ss[..j]) + StreamBytes(ss[j]);
      next := PutStream(packet, next, ss[j], done + StreamsBytes(ss[..j]));
    }
    assert ss[..|ss|] == ss;
  }

  method InnerSize(ss: seq<Stream>) returns (size: nat)
    ensures size == InnerLength(ss)
  {
    size := 0;
    for j := 0 to |ss|
      invariant size == InnerLength(ss[..j])
    {
      assert ss[..j + 1][..j] == ss[..j];
      var one := DescriptorsSize(ss[j].descriptors);
      size := size + one;
    }
    assert ss[..|ss|] == ss;
  }

  /** ltntstools_pmt_create_packet_ts; the table must fit the packet. */
  method PmtCreatePacket(pmt: Pmt, pid: nat, cc: nat, packet: array<byte>) returns (r: int)
    requires |PmtBody(pmt)| + 4 <= SECTION_ROOM
    modifies packet
    ensures packet.Length != PACKET_SIZE ==> r == -1 && packet[..] == old(packet[..])
    ensures packet.Length == PACKET_SIZE ==> r == 0 && packet[..] == Padded(Header(pid, cc) + Section(PmtBody(pmt)))
  {
    if packet.Length != PACKET_SIZE {
      return -1;
    }
    hide VersionByte, CrcBytes, Padded, DescriptorsBytes, StreamsBytes, InnerLength, Header;
    Clear(packet);
    var outer := DescriptorsSize(pmt.descriptors);
    var inner := InnerSize(pmt.streams);
    var start: Bytes := [PMT_TABLE, 0xB0, Octet(9 + 4 + 5 * |pmt.streams| + outer + inner),
      Octet(pmt.programNumber / 0x100), Octet(pmt.programNumber),
      VersionByte(pmt.versionNumber, pmt.currentNext), 0x00, 0x00,
      0xE0 + pmt.pcrPid % 0x2000 / 0x100, Octet(pmt.pcrPid), 0xF0 + outer % 0x1000 / 0x100, Octet(outer)];
    assert start == PmtStart(pmt);
    var i := PutRest(packet, pmt, pid, cc, start);
    PutCrc(packet, i, pid, cc, PmtBody(pmt));
    r := 0;
  }

  /** Header, fixed part, descriptors and streams, one after another. */
  method PutRest(packet: array<byte>, pmt: Pmt, pid: nat, cc: nat, start: Bytes) returns (i: nat)
    requires packet.Length == PACKET_SIZE && packet[..] == Padded([])
    requires start == PmtStart(pmt) && |PmtBody(pmt)| + 5 <= PACKET_SIZE
    modifies packet
    ensures i == 5 + |PmtBody(pmt)| && packet[..] == Padded(Header(pid, cc) + PmtBody(pmt))
  {
    hide VersionByte, Padded, DescriptorsBytes, StreamsBytes, InnerLength, Header, PmtStart;
    var head := Header(pid, cc) + start;
    assert [] + head == head;
    i := Put(packet, 0, head, []);
    i := PutDescriptors(packet, i, pmt.descriptors, head);
    i := PutStreams(packet, i, pmt.streams, head + DescriptorsBytes(pmt.descriptors));
    assert head + DescriptorsBytes(pmt.descriptors) + StreamsBytes(pmt.streams) == Header(pid, cc) + PmtBody(pmt);
  }

  // ---------------------------------------------------------------- what the tables say

  /** What of the version reaches the table: whether it is a multiple of thirty-two, where the flag does not hide it. */
  predicate SameMark(v: nat, w: nat, currentNext: nat)
  {
    (v % 0x20 < 1) == (w % 0x20 < 1) || AsBits(Octet(currentNext)) & 1 == 1
  }

  lemma MarkBit(x: bv8)
    ensures (0xC0 | 1 | x) == (0xC0 | 0 | x) <==> x & 1 == 1
  {
  }

  lemma VersionByteShows(v: nat, w: nat, currentNext: nat)
    ensures VersionByte(v, currentNext) == VersionByte(w, currentNext) <==> SameMark(v, w, currentNext)
  {
    hide OfBits, AsBits;
    var x := AsBits(Octet(currentNext));
    MarkBit(x);
    BitsBack(0xC0 | 1 | x);
    BitsBack(0xC0 | 0 | x);
  }

  /** Two PAT that differ in their version only give the same section exactly then: the version is not encoded. */
  lemma VersionLost(pat: Pat, version: nat)
    ensures Section(PatBody(pat)) == Section(PatBody(pat.(versionNumber := version)))
            <==> SameMark(pat.versionNumber, version, pat.currentNext)
  {
    hide VersionByte, SameMark, CrcBytes, ProgramsBytes;
    VersionByteShows(pat.versionNumber, version, pat.currentNext);
    var a, b := Section(PatBody(pat)), Section(PatBody(pat.(versionNumber := version)));
    assert a[5] == VersionByte(pat.versionNumber, pat.currentNext) && b[5] == VersionByte(version, pat.currentNext);
  }

  /** So it is with two PMT. */
  lemma PmtVersionLost(pmt: Pmt, version: nat)
    ensures Section(PmtBody(pmt)) == Section(PmtBody(pmt.(versionNumber := version)))
            <==> SameMark(pmt.versionNumber, version, pmt.currentNext)
  {
    hide VersionByte, SameMark, CrcBytes, DescriptorsBytes, StreamsBytes, InnerLength;
    VersionByteShows(pmt.versionNumber, version, pmt.currentNext);
    var a, b := Section(PmtBody(pmt)), Section(PmtBody(pmt.(versionNumber := version)));
    assert a[5] == VersionByte(pmt.versionNumber, pmt.currentNext) && b[5] == VersionByte(version, pmt.currentNext);
  }

  // ---------------------------------------------------------------- what a reader makes of the version byte

  /** version_number, the five bits above the lowest: section 2.4.4.5 of ISO/IEC 13818-1. */
  function DecodedVersion(b: byte): nat { OfBits((AsBits(b) >> 1) & 0x1F) }

  /** current_next_indicator, the lowest bit. */
  function DecodedCurrentNext(b: byte): nat { OfBits(AsBits(b) & 1) }

  lemma MarkFields(x: bv8)
    ensures ((0xC0 | 1 | x) >> 1) & 0x1F == (x >> 1) & 0x1F && (0xC0 | 1 | x) & 1 == 1
    ensures ((0xC0 | 0 | x) >> 1) & 0x1F == (x >> 1) & 0x1F && (0xC0 | 0 | x) & 1 == x & 1
  {
  }

  lemma FlagFields(flag: nat)
    requires flag <= 1
    ensures DecodedVersion(Octet(flag)) == 0 && DecodedCurrentNext(Octet(flag)) == flag
  {
    if flag == 0 { assert AsBits(0) == 0; } else { assert AsBits(1) == 1; }
  }

  /** A reader finds the flag's own upper bits for a version, and the flag set for every multiple of thirty-two. */
  ghost predicate ReadsAs(b: byte, version: nat, currentNext: nat)
  {
    && DecodedVersion(b) == DecodedVersion(Octet(currentNext))
    && DecodedCurrentNext(b) == (if version % 0x20 == 0 then 1 else DecodedCurrentNext(Octet(currentNext)))
    && (currentNext <= 1 ==>
          && (DecodedVersion(b) == version % 0x20 <==> version % 0x20 == 0)
          && (DecodedCurrentNext(b) == currentNext <==> version % 0x20 != 0 || currentNext == 1))
  }

  lemma VersionByteReadsAs(version: nat, currentNext: nat)
    ensures ReadsAs(VersionByte(version, currentNext), version, currentNext)
  {
    hide OfBits, AsBits;
    var x := AsBits(Octet(currentNext));
    MarkFields(x);
    BitsBack(0xC0 | 1 | x);
    BitsBack(0xC0 | 0 | x);
    assert OfBits(1) == 1 by { OneOfBits(); }
    if currentNext <= 1 { FlagFields(currentNext); }
  }

  lemma OneOfBits()
    ensures OfBits(1) == 1
  {
  }

  /**
   * What the version and flag of a PAT read as; with a flag of 0 or 1, both are right only for a multiple of
   * thirty-two with the flag set.
   */
  lemma VersionReadsAs(pat: Pat)
    ensures ReadsAs(Section(PatBody(pat))[5], pat.versionNumber, pat.currentNext)
  {
    hide VersionByte, ReadsAs, CrcBytes, ProgramsBytes;
    VersionByteReadsAs(pat.versionNumber, pat.currentNext);
    assert Section(PatBody(pat))[5] == VersionByte(pat.versionNumber, pat.currentNext);
  }

  /** So it is with a PMT. */
  lemma PmtVersionReadsAs(pmt: Pmt)
    ensures ReadsAs(Section(PmtBody(pmt))[5], pmt.versionNumber, pmt.currentNext)
  {
    hide VersionByte, ReadsAs, CrcBytes, DescriptorsBytes, StreamsBytes, InnerLength;
    VersionByteReadsAs(pmt.versionNumber, pmt.currentNext);
    assert Section(PmtBody(pmt))[5] == VersionByte(pmt.versionNumber, pmt.currentNext);
  }
}
