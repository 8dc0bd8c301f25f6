/** What a reader of the tables finds, walking a section by its own lengths: section 2.4.4 of ISO/IEC 13818-1. */
module PsiReader {
  import opened Bytes
  import opened Psi
  import opened SectionExtractor
  import opened TsPacket
  import opened Wrappers

  datatype PatRead = PatRead(transportStreamId: nat, programs: seq<Program>)

  datatype PmtRead = PmtRead(programNumber: nat, pcrPid: nat, descriptors: seq<Descriptor>, streams: seq<Stream>)

  // ---------------------------------------------------------------- the reader

  function Sixteen(s: Bytes, i: nat): nat
    requires i + 2 <= |s|
  {
    s[i] as int * 0x100 + s[i + 1]
  }

  /** A PID, behind three reserved bits. */
  function Thirteen(s: Bytes, i: nat): nat
    requires i + 2 <= |s|
  {
    Sixteen(s, i) % 0x2000
  }

  /** A length, behind four reserved bits. */
  function Twelve(s: Bytes, i: nat): nat
    requires i + 2 <= |s|
  {
    Sixteen(s, i) % 0x1000
  }

  /** A section of this table with eight bytes of header: it ends where its length says, and is the only one. */
  predicate IsTable(s: Bytes, tableId: byte)
  {
    && |s| >= 12 && s[0] == tableId && s[1] / 0x10 == 0xB && 3 + Twelve(s, 1) == |s|
    && s[5] / 0x40 == 3 && s[6] == 0 && s[7] == 0
  }

  function ReadPrograms(s: Bytes): Option<seq<Program>>
  {
    if s == [] then Some([])
    else if |s| < 4 then None
    else match ReadPrograms(s[4..])
      case None => None
      case Some(ps) => Some([Program(Sixteen(s, 0), Thirteen(s, 2))] + ps)
  }

  function ReadDescriptors(s: Bytes): Option<seq<Descriptor>>
    decreases |s|
  {
    if s == [] then Some([])
    else if |s| < 2 || |s| < 2 + s[1] as int then None
    else match ReadDescriptors(s[2 + s[1]..])
      case None => None
      case Some(ds) => Some([Descriptor(s[0], s[2..2 + s[1]])] + ds)
  }

  function ReadStreams(s: Bytes): Option<seq<Stream>>
    decreases |s|
  {
    if s == [] then Some([])
    else if |s| < 5 || |s| < 5 + Twelve(s, 3) then None
    else
      var end := 5 + Twelve(s, 3);
      match (ReadDescriptors(s[5..end]), ReadStreams(s[end..]))
      case (Some(ds), Some(ss)) => Some([Stream(s[0] as int, Thirteen(s, 1), ds)] + ss)
      case _ => None
  }

  function ReadPat(s: Bytes): Option<PatRead>
  {
    if !IsTable(s, 0x00) then None
    else match ReadPrograms(s[8..|s| - 4])
      case None => None
      case Some(ps) => Some(PatRead(Sixteen(s, 3), ps))
  }

  function ReadPmt(s: Bytes): Option<PmtRead>
  {
    if !IsTable(s, 0x02) || |s| < 16 || 12 + Twelve(s, 10) > |s| - 4 then None
    else
      var end := 12 + Twelve(s, 10);
      match (ReadDescriptors(s[12..end]), ReadStreams(s[end..|s| - 4]))
      case (Some(ds), Some(ss)) => Some(PmtRead(Sixteen(s, 3), Thirteen(s, 8), ds, ss))
      case _ => None
  }

  // ---------------------------------------------------------------- what the builders write reads back

  /** The numbers as far as the fields go. */
  function Reduced(p: Program): Program
  {
    Program(p.programNumber % 0x1_0000, p.pmtPid % 0x2000)
  }

  function ReducedAll(ps: seq<Program>): (r: seq<Program>)
    ensures |r| == |ps|
  {
    seq(|ps|, i requires 0 <= i < |ps| => Reduced(ps[i]))
  }

  function ReducedStream(s: Stream): Stream
  {
    Stream(s.streamType % 0x100, s.pid % 0x2000, s.descriptors)
  }

  function ReducedStreams(ss: seq<Stream>): (r: seq<Stream>)
    ensures |r| == |ss|
  {
    seq(|ss|, i requires 0 <= i < |ss| => ReducedStream(ss[i]))
  }

  lemma Split16(n: nat)
    ensures n / 0x100 % 0x100 * 0x100 + n % 0x100 == n % 0x1_0000
  {
  }

  lemma Split13(n: nat)
    ensures ((0xE0 + n / 0x100 % 0x20) * 0x100 + n % 0x100) % 0x2000 == n % 0x2000
    ensures n / 0x100 % 0x20 == n % 0x2000 / 0x100
  {
    var h, l := n / 0x100 % 0x20, n % 0x100;
    assert n == 0x2000 * (n / 0x2000) + (h * 0x100 + l);
    assert (0xE0 + h) * 0x100 + l == 0x2000 * 7 + (h * 0x100 + l);
  }

  lemma Split12(n: nat, high: nat)
    requires n < 0x1000
    ensures (high * 0x1000 + n) % 0x1000 == n && high * 0x1000 + n == (high * 0x10 + n / 0x100) * 0x100 + n % 0x100
  {
  }

  lemma OneProgram(p: Program, rest: Bytes)
    ensures ReadPrograms(ProgramBytes(p) + rest)
            == match ReadPrograms(rest) case None => None case Some(ps) => Some([Reduced(p)] + ps)
  {
    var s := ProgramBytes(p) + rest;
    Split16(p.programNumber);
    Split13(p.pmtPid);
    assert s[4..] == rest && s[0] == ProgramBytes(p)[0] && s[1] == ProgramBytes(p)[1];
    assert s[2] == ProgramBytes(p)[2] && s[3] == ProgramBytes(p)[3];
  }

  lemma {:induction false} ProgramsFront(ps: seq<Program>)
    requires ps != []
    ensures ProgramsBytes(ps) == ProgramBytes(ps[0]) + ProgramsBytes(ps[1..])
  {
    hide ProgramBytes;
    if |ps| > 1 {
      ProgramsFront(ps[..|ps| - 1]);
      assert ps[..|ps| - 1][1..] == ps[1..][..|ps| - 2];
    } else {
      assert ps[1..] == [] && ps[..0] == [];
    }
  }

  lemma {:induction false} ProgramsRead(ps: seq<Program>)
    ensures ReadPrograms(ProgramsBytes(ps)) == Some(ReducedAll(ps))
  {
    hide ProgramBytes, ReadPrograms, Reduced;
    if ps == [] {
      NoneRead();
    } else {
      ProgramsFront(ps);
      ProgramsRead(ps[1..]);
      OneProgram(ps[0], ProgramsBytes(ps[1..]));
      assert [Reduced(ps[0])] + ReducedAll(ps[1..]) == ReducedAll(ps);
    }
  }

  lemma NoneRead()
    ensures ReadPrograms([]) == Some([]) && ReadDescriptors([]) == Some([]) && ReadStreams([]) == Some([])
    ensures ProgramsBytes([]) == [] && DescriptorsBytes([]) == [] && StreamsBytes([]) == []
  {
  }

  lemma OneDescriptor(d: Descriptor, rest: Bytes)
    requires |d.data| < 0x100
    ensures ReadDescriptors(DescriptorBytes(d) + rest)
            == match ReadDescriptors(rest) case None => None case Some(ds) => Some([d] + ds)
  {
    var s, n := DescriptorBytes(d) + rest, 2 + |d.data|;
    assert s[0] == d.tag && s[1] as int == |d.data| && s[2..n] == d.data && s[n..] == rest;
  }

  lemma {:induction false} DescriptorsFront(ds: seq<Descriptor>)
    requires ds != []
    ensures DescriptorsBytes(ds) == DescriptorBytes(ds[0]) + DescriptorsBytes(ds[1..])
  {
    hide DescriptorBytes;
    if |ds| > 1 {
      DescriptorsFront(ds[..|ds| - 1]);
      assert ds[..|ds| - 1][1..] == ds[1..][..|ds| - 2];
    } else {
      assert ds[1..] == [] && ds[..0] == [];
    }
  }

  lemma {:induction false} DescriptorsRead(ds: seq<Descriptor>)
    requires |DescriptorsBytes(ds)| < 0x100
    ensures ReadDescriptors(DescriptorsBytes(ds)) == Some(ds)
  {
    hide DescriptorBytes, ReadDescriptors;
    if ds == [] {
      NoneRead();
    } else {
      DescriptorsFront(ds);
      DescriptorsRead(ds[1..]);
      OneDescriptor(ds[0], DescriptorsBytes(ds[1..]));
      assert [ds[0]] + ds[1..] == ds;
    }
  }

  lemma OneStream(st: Stream, rest: Bytes)
    requires |DescriptorsBytes(st.descriptors)| < 0x100
    ensures ReadStreams(StreamBytes(st) + rest)
            == match ReadStreams(rest) case None => None case Some(ss) => Some([ReducedStream(st)] + ss)
  {
    var ds := DescriptorsBytes(st.descriptors);
    var s, n := StreamBytes(st) + rest, 5 + |ds|;
    DescriptorsRead(st.descriptors);
    hide DescriptorsBytes, ReadDescriptors, StreamStart, Twelve, Thirteen;
    assert s[..5] == StreamStart(st) && s[5..n] == ds && s[n..] == rest;
    StreamHead(st, s);
  }

  lemma StreamHead(st: Stream, s: Bytes)
    requires |DescriptorsBytes(st.descriptors)| < 0x100 && |s| >= 5 && s[..5] == StreamStart(st)
    ensures s[0] == st.streamType % 0x100 && Thirteen(s, 1) == st.pid % 0x2000
    ensures Twelve(s, 3) == |DescriptorsBytes(st.descriptors)|
  {
    hide DescriptorsBytes;
    Split13(st.pid);
    Split12(|DescriptorsBytes(st.descriptors)|, 0xF);
    assert s[0] == s[..5][0] && s[1] == s[..5][1] && s[2] == s[..5][2] && s[3] == s[..5][3] && s[4] == s[..5][4];
  }

  lemma {:induction false} StreamsFront(ss: seq<Stream>)
    requires ss != []
    ensures StreamsBytes(ss) == StreamBytes(ss[0]) + StreamsBytes(ss[1..])
  {
    hide StreamBytes;
    if |ss| > 1 {
      StreamsFront(ss[..|ss| - 1]);
      assert ss[..|ss| - 1][1..] == ss[1..][..|ss| - 2];
    } else {
      assert ss[1..] == [] && ss[..0] == [];
    }
  }

  lemma {:induction false} StreamsRead(ss: seq<Stream>)
    requires |StreamsBytes(ss)| < 0x100
    ensures ReadStreams(StreamsBytes(ss)) == Some(ReducedStreams(ss))
  {
    hide StreamStart, ReadStreams, ReducedStream, DescriptorsBytes;
    if ss == [] {
      NoneRead();
    } else {
      StreamsFront(ss);
      StreamsRead(ss[1..]);
      OneStream(ss[0], StreamsBytes(ss[1..]));
      assert [ReducedStream(ss[0])] + ReducedStreams(ss[1..]) == ReducedStreams(ss);
    }
  }

  lemma TableBytes(version: nat, currentNext: nat)
    ensures VersionByte(version, currentNext) / 0x40 == 3
  {
    hide AsBits;
    var x := AsBits(Octet(currentNext));
    TopBits(x);
  }

  lemma TopBits(x: bv8)
    ensures OfBits(0xC0 | 1 | x) / 0x40 == 3 && OfBits(0xC0 | 0 | x) / 0x40 == 3
  {
    assert 0xC0 <= 0xC0 | 1 | x && 0xC0 <= 0xC0 | 0 | x;
  }

  /** A PAT reads back: its stream id and its programs, number and PID, in order. */
  lemma PatReadsBack(pat: Pat)
    requires |PatBody(pat)| + 4 <= SECTION_ROOM
    ensures ReadPat(Section(PatBody(pat)))
            == Some(PatRead(pat.transportStreamId % 0x1_0000, ReducedAll(pat.programs)))
  {
    var s, start := Section(PatBody(pat)), PatStart(pat);
    ProgramsRead(pat.programs);
    TableBytes(pat.versionNumber, pat.currentNext);
    Split16(pat.transportStreamId);
    hide ProgramsBytes, ReadPrograms, CrcBytes, VersionByte, ReducedAll;
    assert s[..8] == start && s[8..|s| - 4] == ProgramsBytes(pat.programs);
    assert forall k :: 0 <= k < 8 ==> s[k] == s[..8][k];
    Split12(|s| - 3, 0xB);
  }

  /** So does a PMT: program number, PCR PID, descriptors, and for each stream its type, PID and descriptors. */
  lemma PmtReadsBack(pmt: Pmt)
    requires |PmtBody(pmt)| + 4 <= SECTION_ROOM
    ensures ReadPmt(Section(PmtBody(pmt)))
            == Some(PmtRead(pmt.programNumber % 0x1_0000, pmt.pcrPid % 0x2000, pmt.descriptors,
                            ReducedStreams(pmt.streams)))
  {
    var s, start, outer := Section(PmtBody(pmt)), PmtStart(pmt), |DescriptorsBytes(pmt.descriptors)|;
    hide StreamsBytes, DescriptorsBytes, ReadStreams, ReadDescriptors, CrcBytes, PmtStart, ReducedStreams, IsTable,
      Twelve, Thirteen, Sixteen;
    StreamsLength(pmt.streams);
    DescriptorsRead(pmt.descriptors);
    StreamsRead(pmt.streams);
    assert s[..12] == start && s[12..12 + outer] == DescriptorsBytes(pmt.descriptors);
    assert s[12 + outer..|s| - 4] == StreamsBytes(pmt.streams);
    PmtHead(pmt, s);
  }

  lemma StartBytes(s: Bytes, start: Bytes)
    requires |start| == 12 <= |s| && s[..12] == start
    ensures s[0] == start[0] && s[1] == start[1] && s[2] == start[2] && s[3] == start[3]
    ensures s[4] == start[4] && s[5] == start[5] && s[6] == start[6] && s[7] == start[7]
    ensures s[8] == start[8] && s[9] == start[9] && s[10] == start[10] && s[11] == start[11]
  {
    assert forall k :: 0 <= k < 12 ==> s[k] == s[..12][k];
  }

  lemma PmtHead(pmt: Pmt, s: Bytes)
    requires 16 <= |s| <= SECTION_ROOM && s[..12] == PmtStart(pmt) && |s| == |PmtBody(pmt)| + 4
    ensures IsTable(s, 0x02) && Sixteen(s, 3) == pmt.programNumber % 0x1_0000
    ensures Thirteen(s, 8) == pmt.pcrPid % 0x2000 && Twelve(s, 10) == |DescriptorsBytes(pmt.descriptors)|
  {
    PmtIsTable(pmt, s);
    hide IsTable, StreamsBytes, DescriptorsBytes, VersionByte, InnerLength, Octet, Sixteen, Thirteen, Twelve;
    StartBytes(s, PmtStart(pmt));
    Reads16(s, 3, pmt.programNumber);
    Reads13(s, 8, pmt.pcrPid);
    Reads12(s, 10, |DescriptorsBytes(pmt.descriptors)|);
  }

  lemma Reads16(s: Bytes, i: nat, n: nat)
    requires i + 2 <= |s| && s[i] == Octet(n / 0x100) && s[i + 1] == Octet(n)
    ensures Sixteen(s, i) == n % 0x1_0000
  {
    Split16(n);
  }

  lemma Reads13(s: Bytes, i: nat, n: nat)
    requires i + 2 <= |s| && s[i] == 0xE0 + n % 0x2000 / 0x100 && s[i + 1] == Octet(n)
    ensures Thirteen(s, i) == n % 0x2000
  {
    Split13(n);
  }

  lemma Reads12(s: Bytes, i: nat, n: nat)
    requires n < 0x1000 && i + 2 <= |s| && s[i] == 0xF0 + n % 0x1000 / 0x100 && s[i + 1] == Octet(n)
    ensures Twelve(s, i) == n
  {
    Split12(n, 0xF);
  }

  lemma PmtIsTable(pmt: Pmt, s: Bytes)
    requires 16 <= |s| <= SECTION_ROOM && s[..12] == PmtStart(pmt) && |s| == |PmtBody(pmt)| + 4
    ensures IsTable(s, 0x02)
  {
    StreamsLength(pmt.streams);
    TableBytes(pmt.versionNumber, pmt.currentNext);
    hide StreamsBytes, DescriptorsBytes, VersionByte, InnerLength;
    StartBytes(s, PmtStart(pmt));
    Split12(|s| - 3, 0xB);
  }

  // ---------------------------------------------------------------- through the extractor

  /** Built, sent among other packets, extracted and read: the PAT that went in. */
  lemma PatComesBack(pat: Pat, cc: nat, before: seq<Packet>, after: seq<Packet>, was: bool)
    requires |PatBody(pat)| + 4 <= SECTION_ROOM && OffPid(before, 0) && OffPid(after, 0)
    ensures var pkt: Packet := Padded(Header(0, cc) + Section(PatBody(pat)));
      && AllReadable(FRESH, 0, PAT_TABLE, before + [pkt] + after)
      && var w := WriteAll(FRESH, 0, PAT_TABLE, before + [pkt] + after, was);
         w.complete && w.crcValid
         && ReadPat(w.next.held) == Some(PatRead(pat.transportStreamId % 0x1_0000, ReducedAll(pat.programs)))
  {
    hide PatBody, Section, Padded, Header, ReadPat, ReducedAll, AllReadable, WriteAll;
    PatRoundTrip(pat, cc, before, after, was);
    PatReadsBack(pat);
  }

  lemma PmtComesBack(pmt: Pmt, pid: nat, cc: nat, before: seq<Packet>, after: seq<Packet>, was: bool)
    requires |PmtBody(pmt)| + 4 <= SECTION_ROOM && OffPid(before, pid % 0x2000) && OffPid(after, pid % 0x2000)
    ensures var pkt: Packet := Padded(Header(pid, cc) + Section(PmtBody(pmt)));
      && AllReadable(FRESH, pid % 0x2000, PMT_TABLE, before + [pkt] + after)
      && var w := WriteAll(FRESH, pid % 0x2000, PMT_TABLE, before + [pkt] + after, was);
         w.complete && w.crcValid
         && ReadPmt(w.next.held) == Some(PmtRead(pmt.programNumber % 0x1_0000, pmt.pcrPid % 0x2000, pmt.descriptors,
                                                 ReducedStreams(pmt.streams)))
  {
    hide PmtBody, Section, Padded, Header, ReadPmt, ReducedStreams, AllReadable, WriteAll;
    PmtRoundTrip(pmt, pid, cc, before, after, was);
    PmtReadsBack(pmt);
  }
}
