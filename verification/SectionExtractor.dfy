/** Pulling a table section out of transport packets, src/sectionextractor.c. */
module SectionExtractor {
  import opened Bytes
  import opened CArith
  import opened TsPacket
  import opened Crc32
  import opened Psi

  const SECTION_BUFFER := 4096

  /** The extractor between packets: `held` is what it has of a section whose length it knows. */
  datatype Extraction = Extraction(complete: bool, appending: bool, held: Bytes, sectionLength: nat)

  /** After one packet: the return value, and what the flags are set to, `complete` only ever to one. */
  datatype Outcome = Outcome(next: Extraction, r: int, completed: bool, crcValid: bool)

  const FRESH := Extraction(false, false, [], 0)

  /** Where the section starts, behind an adaptation field and the pointer field. */
  function SectionOffset(pkt: Packet): nat
  {
    var o := if HasAdaption(pkt) then 5 + AdaptionFieldLength(pkt) else 4;
    if Pusi(pkt) && o < PACKET_SIZE then o + pkt[o] + 1 else o
  }

  predicate Skipped(pkt: Packet)
  {
    pkt[0] != SYNC_BYTE || (Pusi(pkt) && SectionOffset(pkt) >= 180)
  }

  /** The packet holds what will be read of it, and the buffer what will be copied. */
  predicate Readable(s: Extraction, tableId: byte, pkt: Packet)
  {
    && (HasAdaption(pkt) && Pusi(pkt) ==> AdaptionFieldLength(pkt) <= 182)
    && (!Skipped(pkt) ==>
      && SectionOffset(pkt) < PACKET_SIZE
      && (Starts(s, tableId, pkt) ==> SectionOffset(pkt) + 2 < PACKET_SIZE && LengthField(pkt) + 3 <= SECTION_BUFFER)
      && SectionOffset(pkt) + CopyLength(s, tableId, pkt) <= PACKET_SIZE)
    && (s.appending ==> |s.held| <= s.sectionLength <= SECTION_BUFFER)
  }

  predicate Starts(s: Extraction, tableId: byte, pkt: Packet)
    requires SectionOffset(pkt) < PACKET_SIZE
  {
    !s.appending && !s.complete && pkt[SectionOffset(pkt)] == tableId
  }

  function LengthField(pkt: Packet): nat
    requires SectionOffset(pkt) + 2 < PACKET_SIZE
  {
    (pkt[SectionOffset(pkt) + 1] as int * 0x100 + pkt[SectionOffset(pkt) + 2]) % 0x1000
  }

  function Minimum(a: nat, b: nat): nat { if a < b then a else b }

  function CopyLength(s: Extraction, tableId: byte, pkt: Packet): nat
    requires SectionOffset(pkt) < PACKET_SIZE
    requires Starts(s, tableId, pkt) ==> SectionOffset(pkt) + 2 < PACKET_SIZE
  {
    if Starts(s, tableId, pkt) then Minimum(LengthField(pkt) + 3, SECTION_ROOM)
    else if s.appending && !s.complete && |s.held| <= s.sectionLength then
      Minimum(SECTION_ROOM, s.sectionLength - |s.held|)
    else 0
  }

  /** The section just begun, nothing of it held yet. */
  function Begun(s: Extraction, tableId: byte, pkt: Packet): Extraction
    requires SectionOffset(pkt) < PACKET_SIZE
    requires Starts(s, tableId, pkt) ==> SectionOffset(pkt) + 2 < PACKET_SIZE
  {
    if Starts(s, tableId, pkt) then Extraction(false, true, [], LengthField(pkt) + 3) else s
  }

  /** The flags once all of the section is held. */
  function Finished(s: Extraction, n: nat): Outcome
  {
    if |s.held| == s.sectionLength then Outcome(s.(complete := true, appending := false), n, true, Checks(s.held))
    else Outcome(s, n, false, false)
  }

  /** One packet of the PID. */
  function WriteOne(s: Extraction, tableId: byte, pkt: Packet): Outcome
    requires Readable(s, tableId, pkt)
  {
    if Skipped(pkt) then Outcome(s, 0, false, false)
    else
      var t, n := Begun(s, tableId, pkt), CopyLength(s, tableId, pkt);
      if !(t.appending && !t.complete) then Outcome(s.(complete := false, appending := false), -1, false, false)
      else Finished(t.(held := t.held + pkt[SectionOffset(pkt)..SectionOffset(pkt) + n]), n)
  }

  predicate Checks(section: Bytes)
  {
    |section| >= 4 && SerialFold(INITIAL, BitBytes(section)) == 0
  }

  datatype Written = Written(next: Extraction, r: int, complete: bool, crcValid: bool)

  predicate AllReadable(s: Extraction, pid: nat, tableId: byte, pkts: seq<Packet>)
    decreases |pkts|, 0
  {
    pkts == [] ||
    (AllReadable(s, pid, tableId, pkts[..|pkts| - 1]) &&
     (Pid(pkts[|pkts| - 1]) == pid ==>
       Readable(WriteEach(s, pid, tableId, pkts[..|pkts| - 1], false).next, tableId, pkts[|pkts| - 1])))
  }

  /** Packet after packet; those of other PIDs are passed over, and leave what the caller had in crcValid. */
  function WriteEach(s: Extraction, pid: nat, tableId: byte, pkts: seq<Packet>, was: bool): (w: Written)
    requires AllReadable(s, pid, tableId, pkts)
    ensures w.next == WriteEach(s, pid, tableId, pkts, false).next
    decreases |pkts|, 1, if was then 1 else 0
  {
    if pkts == [] then Written(s, 0, false, was)
    else
      var w := WriteEach(s, pid, tableId, pkts[..|pkts| - 1], was);
      if Pid(pkts[|pkts| - 1]) != pid then w
      else
        var o := WriteOne(w.next, tableId, pkts[|pkts| - 1]);
        Written(o.next, w.r + o.r, w.complete || o.completed, o.crcValid)
  }

  /** ltntstools_sectionextractor_write: a section completed by any of the packets can be asked for afterwards. */
  function WriteAll(s: Extraction, pid: nat, tableId: byte, pkts: seq<Packet>, was: bool): Written
    requires AllReadable(s, pid, tableId, pkts)
  {
    var w := WriteEach(s, pid, tableId, pkts, was);
    if w.complete then w.(next := w.next.(complete := true)) else w
  }

  /** Whether a query is answered. */
  predicate Answers(s: Extraction, lengthBytes: int)
  {
    s.complete && lengthBytes >= s.sectionLength + 3
  }

  function AfterQuery(s: Extraction, lengthBytes: int): Extraction
  {
    if Answers(s, lengthBytes) then s.(complete := false, appending := false) else s
  }

  lemma {:induction false} ReadablePrefix(s: Extraction, pid: nat, tableId: byte, pkts: seq<Packet>, n: nat)
    requires AllReadable(s, pid, tableId, pkts) && n <= |pkts|
    ensures AllReadable(s, pid, tableId, pkts[..n])
    decreases |pkts|
  {
    hide Readable, WriteEach;
    if n < |pkts| {
      ReadablePrefix(s, pid, tableId, pkts[..|pkts| - 1], n);
      assert pkts[..|pkts| - 1][..n] == pkts[..n];
    } else {
      assert pkts[..n] == pkts;
    }
  }

  // ---------------------------------------------------------------- the code

  class Extractor {
    const tableId: byte
    const pid: nat
    var complete: bool
    var appending: bool
    const section: array<byte>
    var sectionLength: nat
    var sectionLengthCurrent: nat

    constructor (PID: nat, tableID: byte)
      ensures pid == PID && tableId == tableID && Valid() && fresh(section) && State() == FRESH
    {
      tableId, pid := tableID, PID;
      complete, appending := false, false;
      section := new byte[SECTION_BUFFER];
      sectionLength, sectionLengthCurrent := 0, 0;
    }

    ghost predicate Valid()
      reads this
    {
      section.Length == SECTION_BUFFER && sectionLengthCurrent <= SECTION_BUFFER
    }

    ghost function State(): Extraction
      requires Valid()
      reads this, section
    {
      Extraction(complete, appending, section[..sectionLengthCurrent], sectionLength)
    }

    /** memcpy of part of the packet behind what is held. */
    method Copy(pkt: Packet, from: nat, n: nat)
      requires Valid() && from + n <= PACKET_SIZE && sectionLengthCurrent + n <= SECTION_BUFFER
      modifies `sectionLengthCurrent, section
      ensures Valid() && State() == old(State()).(held := old(State()).held + pkt[from..from + n])
    {
      for k := 0 to n
        invariant sectionLengthCurrent == old(sectionLengthCurrent)
        invariant section[..sectionLengthCurrent + k] == old(section[..sectionLengthCurrent]) + pkt[from..from + k]
      {
        section[sectionLengthCurrent + k] := pkt[from + k];
      }
      sectionLengthCurrent := sectionLengthCurrent + n;
    }

    /** Start a section, or go on with one; how much of it the packet has, or -1 if it has nothing to do with one. */
    method Begin(pkt: Packet, offset: nat) returns (copyLength: int)
      requires Valid() && Readable(State(), tableId, pkt) && !Skipped(pkt) && offset == SectionOffset(pkt)
      modifies this
      ensures Valid()
      ensures var t := Begun(old(State()), tableId, pkt);
        if t.appending && !t.complete then State() == t && copyLength == CopyLength(old(State()), tableId, pkt)
        else copyLength == -1 && State() == old(State()).(complete := false, appending := false)
    {
      if !appending && !complete && pkt[offset] == tableId {
        appending := true;
        complete := false;
        sectionLengthCurrent := 0;
        sectionLength := (pkt[offset + 1] as int * 0x100 + pkt[offset + 2]) % 0x1000 + 3;
        copyLength := sectionLength;
        if copyLength > 183 {
          copyLength := 183;
        }
      } else if appending && !complete {
        copyLength := 183;
        if sectionLengthCurrent + copyLength > sectionLength {
          copyLength := sectionLength - sectionLengthCurrent;
        }
      } else {
        complete, appending := false, false;
        copyLength := -1;
      }
    }

    /** The CRC once the whole section is there. */
    method Finish(n: nat) returns (completed: bool, crcValid: bool)
      requires Valid()
      modifies `complete, `appending
      ensures Valid() && Outcome(State(), n, completed, crcValid) == Finished(old(State()), n)
    {
      completed, crcValid := false, false;
      if sectionLength == sectionLengthCurrent {
        crcValid := CheckCrc32(BitBytes(section[..sectionLength]));
        complete, appending, completed := true, false, true;
      }
    }

    /** ltntstools_sectionextractor_write_packet. */
    method WritePacket(pkt: Packet) returns (r: int, completed: bool, crcValid: bool)
      requires Valid() && Readable(State(), tableId, pkt)
      modifies this, section
      ensures Valid() && Outcome(State(), r, completed, crcValid) == WriteOne(old(State()), tableId, pkt)
    {
      hide Checks, HasAdaption, Pusi, LengthField;
      var offset := 4;
      if pkt[0] != SYNC_BYTE {
        return 0, false, false;
      }
      if HasAdaption(pkt) {
        offset := offset + 1 + AdaptionFieldLength(pkt);
      }
      if Pusi(pkt) {
        offset := offset + pkt[offset] + 1;
        if offset >= 180 {
          return 0, false, false;
        }
      }
      r := Begin(pkt, offset);
      if r < 0 {
        return r, false, false;
      }
      Copy(pkt, offset, r);
      completed, crcValid := Finish(r);
    }

    /** ltntstools_sectionextractor_write; `was` is what the caller's crcValid holds. */
    method Write(pkts: seq<Packet>, was: bool) returns (r: int, completed: bool, crcValid: bool)
      requires Valid() && AllReadable(State(), pid, tableId, pkts)
      modifies this, section
      ensures Valid() && Written(State(), r, completed, crcValid) == WriteAll(old(State()), pid, tableId, pkts, was)
    {
      hide WriteOne, Readable;
      r, completed, crcValid := 0, false, was;
      ghost var before := State();
      for i := 0 to |pkts|
        invariant Valid() && AllReadable(before, pid, tableId, pkts[..i])
        invariant Written(State(), r, completed, crcValid) == WriteEach(before, pid, tableId, pkts[..i], was)
      {
        ReadablePrefix(before, pid, tableId, pkts, i + 1);
        assert pkts[..i + 1][..i] == pkts[..i];
        if Pid(pkts[i]) == pid {
          var n, done, valid := WritePacket(pkts[i]);
          r := r + n;
          completed := completed || done;
          crcValid := valid;
        }
      }
      assert pkts[..|pkts|] == pkts;
      if completed {
        complete := true;
      }
    }

    /**
     * ltntstools_sectionextractor_query: the section and three bytes more, if one is there and the caller has room for
     * as many; it can be asked for once.
     */
    method Query(lengthBytes: int) returns (r: int, dst: Bytes)
      requires Valid() && sectionLength + 3 <= SECTION_BUFFER
      modifies `complete, `appending
      ensures Valid() && State() == AfterQuery(old(State()), lengthBytes)
      ensures var s := old(State());
        if Answers(s, lengthBytes) then
          r == |dst| == s.sectionLength + 3 && (|s.held| == s.sectionLength ==> dst[..s.sectionLength] == s.held)
        else r == -1 && dst == []
    {
      if !complete || lengthBytes < sectionLength + 3 {
        return -1, [];
      }
      r, dst := sectionLength + 3, section[..sectionLength + 3];
      complete, appending := false, false;
    }
  }

  // ---------------------------------------------------------------- tables built, then extracted

  /** A section in one packet: its length field counts what follows it. */
  predicate OnePacketSection(section: Bytes, tableId: byte)
  {
    && 4 <= |section| <= SECTION_ROOM && section[0] == tableId
    && (section[1] as int * 0x100 + section[2]) % 0x1000 + 3 == |section|
  }

  lemma BuilderPacket(pid: nat, cc: nat, section: Bytes)
    requires |section| <= SECTION_ROOM
    ensures var pkt: Packet := Padded(Header(pid, cc) + section);
      && Pid(pkt) == pid % 0x2000 && pkt[0] == SYNC_BYTE && Pusi(pkt) && !HasAdaption(pkt)
      && ContinuityCounter(pkt) == cc % 16 && AdaptionFieldControl(pkt) == 1
      && pkt[4] == 0 && pkt[5..5 + |section|] == section
  {
    hide Padded, Header, Pid, Pusi, HasAdaption, ContinuityCounter, AdaptionFieldControl;
    var pkt: Packet := Padded(Header(pid, cc) + section);
    BuilderPrefix(pid, cc, section);
    assert pkt[0] == pkt[..5][0] && pkt[1] == pkt[..5][1] && pkt[2] == pkt[..5][2] && pkt[3] == pkt[..5][3];
    assert pkt[4] == pkt[..5][4];
    HeaderReads(pkt, pid, cc);
  }

  lemma HeaderReads(pkt: Packet, pid: nat, cc: nat)
    requires forall k :: 0 <= k < 5 ==> pkt[k] == Header(pid, cc)[k]
    ensures Pid(pkt) == pid % 0x2000 && pkt[0] == SYNC_BYTE && Pusi(pkt) && !HasAdaption(pkt) && pkt[4] == 0
    ensures ContinuityCounter(pkt) == cc % 16 && AdaptionFieldControl(pkt) == 1
  {
    var p := pid % 0x2000;
    LowByteOf(pid);
    assert (0x40 + p / 0x100) % 0x20 == p / 0x100 && (0x40 + p / 0x100) / 0x40 == 1;
    assert (0x10 + cc % 0x10) / 0x10 == 1;
  }

  lemma LowByteOf(pid: nat)
    ensures pid % 0x100 == pid % 0x2000 % 0x100 && pid % 0x2000 / 0x100 < 0x20
  {
    var p := pid % 0x2000;
    Divided(pid, 0x100, 0x20 * (pid / 0x2000) + p / 0x100, p % 0x100);
  }

  lemma BuilderPrefix(pid: nat, cc: nat, section: Bytes)
    requires |section| <= SECTION_ROOM
    ensures var pkt: Packet := Padded(Header(pid, cc) + section);
      pkt[..5] == Header(pid, cc) && pkt[5..5 + |section|] == section
  {
    hide Header;
  }

  /** A fresh extractor given a builder's packet holds the section whole, and says whether its CRC is right. */
  lemma FreshHolds(pid: nat, cc: nat, section: Bytes, tableId: byte)
    requires OnePacketSection(section, tableId)
    ensures var pkt: Packet := Padded(Header(pid, cc) + section);
      && Readable(FRESH, tableId, pkt)
      && WriteOne(FRESH, tableId, pkt)
         == Outcome(Extraction(true, false, section, |section|), |section|, true, Checks(section))
  {
    hide Padded, Header, Checks, Pusi, HasAdaption;
    var pkt: Packet := Padded(Header(pid, cc) + section);
    BuilderPacket(pid, cc, section);
    assert SectionOffset(pkt) == 5 && [] + section == section;
    assert pkt[5] == pkt[5..5 + |section|][0] && pkt[6] == pkt[5..5 + |section|][1]
        && pkt[7] == pkt[5..5 + |section|][2];
  }

  lemma BitBytesJoin(a: Bytes, b: Bytes)
    ensures BitBytes(a + b) == BitBytes(a) + BitBytes(b)
  {
  }

  lemma CrcBits(crc: bv32)
    ensures BitBytes(BigEndianBytes(crc)) == BigEndian(crc)
  {
    hide HighByte, SecondByte, ThirdByte, LowByte, OfBits, AsBits;
    BitsBack(HighByte(crc));
    BitsBack(SecondByte(crc));
    BitsBack(ThirdByte(crc));
    BitsBack(LowByte(crc));
  }

  /** A section with its CRC appended checks. */
  lemma SectionChecks(body: Bytes)
    ensures Checks(Section(body))
  {
    hide BitBytes, BigEndian, BigEndianBytes, SerialFold;
    var bits, crc := BitBytes(body), SerialFold(INITIAL, BitBytes(body));
    BitBytesJoin(body, CrcBytes(body));
    CrcBits(crc);
    var all := BitBytes(Section(body));
    assert all[..|all| - 4] == bits && all[|all| - 4..] == BigEndian(crc);
    CheckExactly(all);
  }

  predicate OffPid(pkts: seq<Packet>, pid: nat)
  {
    forall i :: 0 <= i < |pkts| ==> Pid(pkts[i]) != pid
  }

  /** Packets of other PIDs change nothing. */
  lemma {:induction false} OthersPassedOver(s: Extraction, pid: nat, tableId: byte, pkts: seq<Packet>,
      others: seq<Packet>, was: bool)
    requires AllReadable(s, pid, tableId, pkts) && OffPid(others, pid)
    ensures AllReadable(s, pid, tableId, pkts + others)
    ensures WriteEach(s, pid, tableId, pkts + others, was) == WriteEach(s, pid, tableId, pkts, was)
    decreases |others|
  {
    hide WriteOne, Readable, Pid;
    if others == [] {
      assert pkts + others == pkts;
    } else {
      var init, last := others[..|others| - 1], others[|others| - 1];
      OthersPassedOver(s, pid, tableId, pkts, init, was);
      assert (pkts + others)[..|pkts + others| - 1] == pkts + init;
    }
  }

  lemma EmptyCall(s: Extraction, pid: nat, tableId: byte, was: bool)
    ensures AllReadable(s, pid, tableId, []) && WriteAll(s, pid, tableId, [], was).crcValid == was
  {
  }

  /** What one more packet makes of the word on the CRC. */
  lemma OneMorePacket(s: Extraction, pid: nat, tableId: byte, pkts: seq<Packet>, was: bool)
    requires pkts != [] && AllReadable(s, pid, tableId, pkts)
    ensures var init, pkt := pkts[..|pkts| - 1], pkts[|pkts| - 1];
      && AllReadable(s, pid, tableId, init)
      && (Pid(pkt) != pid ==>
        WriteAll(s, pid, tableId, pkts, was).crcValid == WriteAll(s, pid, tableId, init, was).crcValid)
      && (Pid(pkt) == pid ==>
        && Readable(WriteEach(s, pid, tableId, init, was).next, tableId, pkt)
        && var o := WriteOne(WriteEach(s, pid, tableId, init, was).next, tableId, pkt);
           WriteAll(s, pid, tableId, pkts, was).crcValid <==> o.completed && Checks(o.next.held))
  {
    hide Readable, Pid, Checks, WriteOne;
    var init, pkt := pkts[..|pkts| - 1], pkts[|pkts| - 1];
    if Pid(pkt) == pid {
      ValidWhenCompleted(WriteEach(s, pid, tableId, init, was).next, tableId, pkt);
    }
  }

  /**
   * What a call says of the CRC hangs on packet `last`, behind which there is none of the PID: without one it is what
   * the caller had; otherwise it is right if and only if that packet completes a section, and that section checks.
   */
  ghost predicate DecidedBy(s: Extraction, pid: nat, tableId: byte, pkts: seq<Packet>, was: bool, last: int)
    requires AllReadable(s, pid, tableId, pkts)
  {
    var valid := WriteAll(s, pid, tableId, pkts, was).crcValid;
    && -1 <= last < |pkts| && OffPid(pkts[last + 1..], pid)
    && (last == -1 ==> valid == was)
    && (last >= 0 ==>
      && Pid(pkts[last]) == pid && AllReadable(s, pid, tableId, pkts[..last])
      && Readable(WriteEach(s, pid, tableId, pkts[..last], was).next, tableId, pkts[last])
      && var o := WriteOne(WriteEach(s, pid, tableId, pkts[..last], was).next, tableId, pkts[last]);
        valid <==> o.completed && Checks(o.next.held))
  }

  lemma DecidedByOwn(s: Extraction, pid: nat, tableId: byte, pkts: seq<Packet>, was: bool)
    requires pkts != [] && AllReadable(s, pid, tableId, pkts) && Pid(pkts[|pkts| - 1]) == pid
    ensures DecidedBy(s, pid, tableId, pkts, was, |pkts| - 1)
  {
    hide Readable, Pid, Checks, WriteOne, WriteEach, WriteAll, AllReadable;
    OneMorePacket(s, pid, tableId, pkts, was);
  }

  lemma PrefixSlices(pkts: seq<Packet>, pid: nat, last: int)
    requires pkts != [] && Pid(pkts[|pkts| - 1]) != pid && -1 <= last < |pkts| - 1
    requires OffPid(pkts[..|pkts| - 1][last + 1..], pid)
    ensures OffPid(pkts[last + 1..], pid)
    ensures last >= 0 ==> pkts[..|pkts| - 1][..last] == pkts[..last] && pkts[..|pkts| - 1][last] == pkts[last]
  {
    hide Pid;
    var rest, before := pkts[last + 1..], pkts[..|pkts| - 1][last + 1..];
    forall i | 0 <= i < |rest| ensures Pid(rest[i]) != pid {
      if i < |before| { assert before[i] == rest[i]; }
    }
  }

  lemma DecidedByEarlier(s: Extraction, pid: nat, tableId: byte, pkts: seq<Packet>, was: bool, last: int)
    requires pkts != [] && AllReadable(s, pid, tableId, pkts) && Pid(pkts[|pkts| - 1]) != pid
    requires AllReadable(s, pid, tableId, pkts[..|pkts| - 1])
    requires DecidedBy(s, pid, tableId, pkts[..|pkts| - 1], was, last)
    ensures DecidedBy(s, pid, tableId, pkts, was, last)
  {
    hide Readable, Pid, Checks, WriteOne, WriteEach, WriteAll, AllReadable, OffPid;
    OneMorePacket(s, pid, tableId, pkts, was);
    PrefixSlices(pkts, pid, last);
  }

  /** Every call is decided by the last packet of the PID in it. */
  lemma {:induction false} LastPacketDecides(s: Extraction, pid: nat, tableId: byte, pkts: seq<Packet>, was: bool)
    returns (last: int)
    requires AllReadable(s, pid, tableId, pkts)
    ensures DecidedBy(s, pid, tableId, pkts, was, last)
  {
    hide Readable, Pid, Checks, WriteOne, WriteEach, WriteAll, AllReadable;
    if pkts == [] {
      last := -1;
      EmptyCall(s, pid, tableId, was);
    } else {
      hide DecidedBy;
      OneMorePacket(s, pid, tableId, pkts, was);
      if Pid(pkts[|pkts| - 1]) == pid {
        last := |pkts| - 1;
        DecidedByOwn(s, pid, tableId, pkts, was);
      } else {
        last := LastPacketDecides(s, pid, tableId, pkts[..|pkts| - 1], was);
        DecidedByEarlier(s, pid, tableId, pkts, was, last);
      }
    }
  }

  lemma ValidWhenCompleted(s: Extraction, tableId: byte, pkt: Packet)
    requires Readable(s, tableId, pkt)
    ensures var o := WriteOne(s, tableId, pkt); o.crcValid <==> o.completed && Checks(o.next.held)
  {
    hide Checks, LengthField, Pusi, HasAdaption;
  }

  /** A builder's packet that carries this section, whatever its counter. */
  ghost predicate IsCopy(pkt: Packet, pid: nat, body: Bytes)
  {
    |Section(body)| <= SECTION_ROOM && exists cc: nat :: pkt == Padded(Header(pid, cc) + Section(body))
  }

  /** Copies of one section among packets of other PIDs. */
  ghost predicate Copies(pkts: seq<Packet>, pid: nat, body: Bytes)
  {
    forall i :: 0 <= i < |pkts| ==> Pid(pkts[i]) == pid % 0x2000 ==> IsCopy(pkts[i], pid, body)
  }

  function OwnCount(pkts: seq<Packet>, pid: nat): nat
  {
    if pkts == [] then 0 else OwnCount(pkts[..|pkts| - 1], pid) + if Pid(pkts[|pkts| - 1]) == pid then 1 else 0
  }

  /**
   * A copy given to an extractor that is not in the middle of a section completes it; one that is complete refuses
   * it.
   */
  lemma CopyWritten(s: Extraction, pkt: Packet, pid: nat, body: Bytes, tableId: byte)
    requires OnePacketSection(Section(body), tableId) && IsCopy(pkt, pid, body) && !s.appending
    ensures Readable(s, tableId, pkt)
    ensures WriteOne(s, tableId, pkt) ==
      if s.complete then Outcome(s.(complete := false), -1, false, false)
      else Outcome(Extraction(true, false, Section(body), |Section(body)|), |Section(body)|, true, true)
  {
    hide Padded, Header, Checks, Pusi, HasAdaption, Section, OnePacketSection, LengthField;
    var cc: nat :| pkt == Padded(Header(pid, cc) + Section(body));
    BuilderPacket(pid, cc, Section(body));
    SectionChecks(body);
    CopyFacts(pkt, Section(body), tableId);
  }

  lemma CopyFacts(pkt: Packet, section: Bytes, tableId: byte)
    requires OnePacketSection(section, tableId)
    requires pkt[0] == SYNC_BYTE && Pusi(pkt) && !HasAdaption(pkt) && pkt[4] == 0 && pkt[5..5 + |section|] == section
    ensures SectionOffset(pkt) == 5 && !Skipped(pkt) && pkt[5] == tableId
        && LengthField(pkt) + 3 == |section| <= SECTION_ROOM
    ensures [] + pkt[5..5 + |section|] == section
  {
    hide Pusi, HasAdaption;
    assert pkt[5] == pkt[5..5 + |section|][0] && pkt[6] == pkt[5..5 + |section|][1]
        && pkt[7] == pkt[5..5 + |section|][2];
  }

  /** One for an extractor that still has a section to be asked for, which the next copy is refused for. */
  function Waiting(s: Extraction): nat { if s.complete then 1 else 0 }

  lemma CopiesReportNone(s: Extraction, pid: nat, tableId: byte, was: bool)
    ensures AllReadable(s, pid, tableId, []) && WriteEach(s, pid, tableId, [], was) == Written(s, 0, false, was)
    ensures OwnCount([], pid) == 0
  {
  }

  /**
   * Any number of copies of a one-packet section in one call, among packets of other PIDs, to an extractor that is not
   * in the middle of one: every other copy completes the section, beginning with the first if none is waiting to be
   * asked for and with the second if one is; the call says valid if and only if the last copy is such a one.
   */
  lemma {:induction false} CopiesReport(s: Extraction, pid: nat, body: Bytes, tableId: byte, pkts: seq<Packet>,
      was: bool)
    requires OnePacketSection(Section(body), tableId) && Copies(pkts, pid, body) && !s.appending
    ensures AllReadable(s, pid % 0x2000, tableId, pkts)
    ensures var n, b, w := OwnCount(pkts, pid % 0x2000), Waiting(s), WriteEach(s, pid % 0x2000, tableId, pkts, was);
      && (w.complete <==> n > b)
      && w.crcValid == (if n == 0 then was else (n + b) % 2 == 1)
      && !w.next.appending && (w.next.complete <==> (n + b) % 2 == 1)
      && w.next.(complete := true)
         == if n > b then Extraction(true, false, Section(body), |Section(body)|) else s.(complete := true)
  {
    hide WriteOne, Readable, Pid, Section, OnePacketSection, IsCopy, AllReadable, WriteEach;
    var p := pid % 0x2000;
    if pkts == [] {
      CopiesReportNone(s, p, tableId, was);
    } else {
      var m := |pkts| - 1;
      assert Copies(pkts[..m], pid, body);
      CopiesReport(s, pid, body, tableId, pkts[..m], was);
      CopiesReport(s, pid, body, tableId, pkts[..m], false);
      if Pid(pkts[m]) == p {
        CopyWritten(WriteEach(s, p, tableId, pkts[..m], was).next, pkts[m], pid, body, tableId);
      }
      EachSnoc(s, p, tableId, pkts, was);
    }
  }

  lemma EachSnoc(s: Extraction, pid: nat, tableId: byte, pkts: seq<Packet>, was: bool)
    requires pkts != [] && AllReadable(s, pid, tableId, pkts[..|pkts| - 1])
    requires Pid(pkts[|pkts| - 1]) == pid ==>
      Readable(WriteEach(s, pid, tableId, pkts[..|pkts| - 1], false).next, tableId, pkts[|pkts| - 1])
    ensures AllReadable(s, pid, tableId, pkts)
    ensures var w, pkt := WriteEach(s, pid, tableId, pkts[..|pkts| - 1], was), pkts[|pkts| - 1];
      WriteEach(s, pid, tableId, pkts, was) ==
        if Pid(pkt) != pid then w
        else var o := WriteOne(w.next, tableId, pkt); Written(o.next, w.r + o.r, w.complete || o.completed, o.crcValid)
  {
    hide WriteOne, Readable, Pid;
  }

  /** In particular one copy comes out complete, valid and as it was built. */
  lemma Recovered(pid: nat, cc: nat, body: Bytes, tableId: byte, before: seq<Packet>, after: seq<Packet>, was: bool)
    requires OnePacketSection(Section(body), tableId) && OffPid(before, pid % 0x2000) && OffPid(after, pid % 0x2000)
    ensures var pkt: Packet, section := Padded(Header(pid, cc) + Section(body)), Section(body);
      && AllReadable(FRESH, pid % 0x2000, tableId, before + [pkt] + after)
      && WriteAll(FRESH, pid % 0x2000, tableId, before + [pkt] + after, was)
         == Written(Extraction(true, false, section, |section|), |section|, true, true)
  {
    hide WriteOne, Readable, Pid, Padded, Header, Checks, OnePacketSection, Section;
    var p := pid % 0x2000;
    SectionFits(body, tableId);
    var pkt: Packet := Padded(Header(pid, cc) + Section(body));
    assert [] + before == before;
    OthersPassedOver(FRESH, p, tableId, [], before, was);
    OthersPassedOver(FRESH, p, tableId, [], before, false);
    BuilderPacket(pid, cc, Section(body));
    FreshHolds(pid, cc, Section(body), tableId);
    SectionChecks(body);
    assert (before + [pkt])[..|before + [pkt]| - 1] == before;
    OthersPassedOver(FRESH, p, tableId, before + [pkt], after, was);
  }

  lemma SectionFits(body: Bytes, tableId: byte)
    requires OnePacketSection(Section(body), tableId)
    ensures |Section(body)| <= SECTION_ROOM
  {
  }

  /** Any PAT that fits one packet comes out of a fresh extractor complete, valid and as it was built. */
  lemma PatRoundTrip(pat: Pat, cc: nat, before: seq<Packet>, after: seq<Packet>, was: bool)
    requires |PatBody(pat)| + 4 <= SECTION_ROOM && OffPid(before, 0) && OffPid(after, 0)
    ensures var pkt: Packet, section := Padded(Header(0, cc) + Section(PatBody(pat))), Section(PatBody(pat));
      && AllReadable(FRESH, 0, PAT_TABLE, before + [pkt] + after)
      && WriteAll(FRESH, 0, PAT_TABLE, before + [pkt] + after, was)
         == Written(Extraction(true, false, section, |section|), |section|, true, true)
  {
    PatSection(pat);
    hide Section, PatBody;
    Recovered(0, cc, PatBody(pat), PAT_TABLE, before, after, was);
  }

  lemma PatSection(pat: Pat)
    requires |PatBody(pat)| + 4 <= SECTION_ROOM
    ensures OnePacketSection(Section(PatBody(pat)), PAT_TABLE)
  {
    hide VersionByte, CrcBytes, ProgramsBytes;
  }

  /** Any PMT that fits one packet comes out of a fresh extractor complete, valid and as it was built. */
  lemma PmtRoundTrip(pmt: Pmt, pid: nat, cc: nat, before: seq<Packet>, after: seq<Packet>, was: bool)
    requires |PmtBody(pmt)| + 4 <= SECTION_ROOM && OffPid(before, pid % 0x2000) && OffPid(after, pid % 0x2000)
    ensures var pkt: Packet, section := Padded(Header(pid, cc) + Section(PmtBody(pmt))), Section(PmtBody(pmt));
      && AllReadable(FRESH, pid % 0x2000, PMT_TABLE, before + [pkt] + after)
      && WriteAll(FRESH, pid % 0x2000, PMT_TABLE, before + [pkt] + after, was)
         == Written(Extraction(true, false, section, |section|), |section|, true, true)
  {
    PmtSection(pmt);
    hide Section, PmtBody;
    Recovered(pid, cc, PmtBody(pmt), PMT_TABLE, before, after, was);
  }

  lemma PmtBegins(pmt: Pmt)
    ensures var section, start := Section(PmtBody(pmt)), PmtStart(pmt);
      section[0] == start[0] && section[1] == start[1] && section[2] == start[2]
  {
    hide PmtStart, CrcBytes, DescriptorsBytes, StreamsBytes;
  }

  lemma PmtSection(pmt: Pmt)
    requires |PmtBody(pmt)| + 4 <= SECTION_ROOM
    ensures OnePacketSection(Section(PmtBody(pmt)), PMT_TABLE)
  {
    StreamsLength(pmt.streams);
    hide VersionByte, CrcBytes, DescriptorsBytes, StreamsBytes, InnerLength;
    PmtBegins(pmt);
    var section := Section(PmtBody(pmt));
    assert section[1] == 0xB0 && section[2] as int + 3 == |section|;
  }

  lemma CopyOfBuilt(pid: nat, cc: nat, body: Bytes)
    requires |Section(body)| <= SECTION_ROOM
    ensures var pkt: Packet := Padded(Header(pid, cc) + Section(body));
      Pid(pkt) == pid % 0x2000 && IsCopy(pkt, pid, body)
  {
    hide Padded, Header, Section, Pid;
    BuilderPacket(pid, cc, Section(body));
  }

  lemma TwoOwn(a: Packet, b: Packet, pid: nat, body: Bytes)
    requires Pid(a) == Pid(b) == pid % 0x2000 && IsCopy(a, pid, body) && IsCopy(b, pid, body)
    ensures Copies([a, b], pid, body) && OwnCount([a, b], pid % 0x2000) == 2
  {
    hide Pid, IsCopy;
    assert [a, b][..1] == [a] && [a][..0] == [];
    assert OwnCount([a], pid % 0x2000) == 1;
  }

  /**
   * The same table twice in one call: the second copy is refused, and with it the word that the first one was
   * valid.
   */
  lemma RepeatReportsInvalid(pid: nat, cc: nat, cc': nat, body: Bytes, tableId: byte, was: bool)
    requires OnePacketSection(Section(body), tableId)
    ensures var p: nat, pkts: seq<Packet> := pid % 0x2000,
        [Padded(Header(pid, cc) + Section(body)), Padded(Header(pid, cc') + Section(body))];
      && AllReadable(FRESH, p, tableId, pkts)
      && WriteAll(FRESH, p, tableId, pkts, was).complete && !WriteAll(FRESH, p, tableId, pkts, was).crcValid
  {
    hide Padded, Header, Section, Pid, IsCopy, Copies, OwnCount, AllReadable, WriteEach;
    SectionFits(body, tableId);
    var a: Packet, b: Packet := Padded(Header(pid, cc) + Section(body)), Padded(Header(pid, cc') + Section(body));
    CopyOfBuilt(pid, cc, body);
    CopyOfBuilt(pid, cc', body);
    TwoOwn(a, b, pid, body);
    CopiesReport(FRESH, pid, body, tableId, [a, b], was);
  }
}
