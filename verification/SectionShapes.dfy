/** Sections that do not begin right behind the header, and sections longer than a packet, in the section extractor. */
module SectionShapes {
  import opened Bytes
  import opened Crc32
  import opened Psi
  import opened SectionExtractor
  import opened TsPacket

  // ---------------------------------------------------------------- where a section begins

  /** Behind the four bytes and, if the packet has one, the adaptation field. */
  function PointerAt(p: Packet): nat
  {
    if p[3] / 0x20 % 2 == 1 then 5 + p[4] as int else 4
  }

  /** A packet that starts a section: as many bytes of another one as pointer_field counts come first. */
  predicate StartsSection(p: Packet)
  {
    p[0] == 0x47 && p[1] / 0x40 % 2 == 1 && PointerAt(p) < 188
  }

  function SectionAt(p: Packet): nat
    requires StartsSection(p)
  {
    PointerAt(p) + 1 + p[PointerAt(p)] as int
  }

  lemma SameOffset(p: Packet)
    requires StartsSection(p)
    ensures SectionOffset(p) == SectionAt(p) && Pusi(p) && p[0] == SYNC_BYTE
    ensures HasAdaption(p) ==> AdaptionFieldLength(p) <= 182
    ensures Skipped(p) <==> SectionAt(p) >= 180
  {
  }

  /**
   * Wherever a whole section lies in a packet, behind an adaptation field or the end of another one: it is
   * extracted.
   */
  lemma ExtractedAnywhere(p: Packet, section: Bytes, tableId: byte)
    requires StartsSection(p) && OnePacketSection(section, tableId)
    requires SectionAt(p) < 180 && SectionAt(p) + |section| <= 188
    requires p[SectionAt(p)..SectionAt(p) + |section|] == section
    ensures Readable(FRESH, tableId, p)
    ensures WriteOne(FRESH, tableId, p)
            == Outcome(Extraction(true, false, section, |section|), |section|, true, Checks(section))
  {
    hide Checks, Pusi, HasAdaption, StartsSection, SectionAt;
    SameOffset(p);
    var o, s := SectionAt(p), p[SectionAt(p)..SectionAt(p) + |section|];
    assert p[o] == s[0] && p[o + 1] == s[1] && p[o + 2] == s[2] && [] + section == section;
  }

  /** One that begins in the last eight bytes is passed over, though four of them can be all of it. */
  lemma LateSectionSkipped(s: Extraction, p: Packet, tableId: byte)
    requires StartsSection(p) && SectionAt(p) >= 180 && Readable(s, tableId, p)
    ensures WriteOne(s, tableId, p) == Outcome(s, 0, false, false)
  {
    hide StartsSection, SectionAt;
    SameOffset(p);
  }

  // ---------------------------------------------------------------- sections longer than a packet

  /** The length field of a long section of this table counts what follows it. */
  predicate LongSection(section: Bytes, tableId: byte)
  {
    && 183 < |section| <= 4096 && section[0] == tableId
    && (section[1] as int * 0x100 + section[2]) % 0x1000 + 3 == |section|
  }

  /** Its first packet: no adaptation field, a pointer of zero, and 183 bytes. */
  predicate FirstPacket(p: Packet, section: Bytes)
    requires |section| >= 183
  {
    StartsSection(p) && p[3] / 0x20 % 2 == 0 && p[4] == 0 && p[5..188] == section[..183]
  }

  /** A packet that goes on with one: all 184 bytes behind the header. */
  predicate NextPacket(p: Packet)
  {
    p[0] == 0x47 && p[1] / 0x40 % 2 == 0 && p[3] / 0x20 % 2 == 0
  }

  lemma FirstHalf(p: Packet, section: Bytes, tableId: byte)
    requires LongSection(section, tableId) && FirstPacket(p, section)
    ensures Readable(FRESH, tableId, p)
    ensures WriteOne(FRESH, tableId, p)
            == Outcome(Extraction(false, true, section[..183], |section|), 183, false, false)
  {
    hide Checks, Pusi, HasAdaption;
    SameOffset(p);
    hide StartsSection;
    assert SectionAt(p) == 5;
    var s := p[5..188];
    assert p[5] == s[0] && p[6] == s[1] && p[7] == s[2];
    assert [] + p[5..188] == section[..183];
  }

  /** What a packet that goes on adds: never more than 183 of its 184 bytes. */
  lemma GoesOn(s: Extraction, p: Packet, tableId: byte)
    requires NextPacket(p) && s.appending && !s.complete && |s.held| <= s.sectionLength <= 4096
    ensures Readable(s, tableId, p)
    ensures var n := if s.sectionLength - |s.held| > 183 then 183 else s.sectionLength - |s.held|;
      var held := s.held + p[4..4 + n];
      WriteOne(s, tableId, p) ==
        if |held| == s.sectionLength then Outcome(Extraction(true, false, held, s.sectionLength), n, true, Checks(held))
        else Outcome(Extraction(false, true, held, s.sectionLength), n, false, false)
  {
    hide Checks;
  }

  lemma TwoHeld(section: Bytes, p: Packet)
    requires 183 < |section|
    requires forall k :: 183 <= k < |section| && k < 367 ==> p[4 + (k - 183)] == section[k]
    ensures |section| <= 366 ==> section[..183] + p[4..4 + (|section| - 183)] == section
    ensures |section| > 366 ==> section[..183] + p[4..187] == section[..366]
  {
  }

  /** Sections of up to 366 bytes come out of two packets as they went in, and are judged by their CRC. */
  lemma TwoPacketsSuffice(p: Packet, q: Packet, section: Bytes, tableId: byte)
    requires LongSection(section, tableId) && |section| <= 366 && FirstPacket(p, section) && NextPacket(q)
    requires forall k :: 183 <= k < |section| ==> q[4 + (k - 183)] == section[k]
    ensures Readable(FRESH, tableId, p) && Readable(WriteOne(FRESH, tableId, p).next, tableId, q)
    ensures WriteOne(WriteOne(FRESH, tableId, p).next, tableId, q)
            == Outcome(Extraction(true, false, section, |section|), |section| - 183, true, Checks(section))
  {
    hide WriteOne, Readable, Checks, FirstPacket, NextPacket;
    FirstHalf(p, section, tableId);
    GoesOn(Extraction(false, true, section[..183], |section|), q, tableId);
    TwoHeld(section, q);
  }

  /** Written in one call, those two packets report the whole length, whatever the call's caller had. */
  lemma TwoPacketsReport(p: Packet, q: Packet, section: Bytes, pid: nat, tableId: byte, was: bool)
    requires LongSection(section, tableId) && |section| <= 366 && FirstPacket(p, section) && NextPacket(q)
    requires forall k :: 183 <= k < |section| ==> q[4 + (k - 183)] == section[k]
    requires Pid(p) == pid == Pid(q)
    ensures AllReadable(FRESH, pid, tableId, [p, q])
    ensures WriteAll(FRESH, pid, tableId, [p, q], was)
            == Written(Extraction(true, false, section, |section|), |section|, true, Checks(section))
  {
    hide WriteOne, Readable, Checks, FirstPacket, NextPacket, Pid;
    FirstHalf(p, section, tableId);
    TwoPacketsSuffice(p, q, section, tableId);
    var half := Extraction(false, true, section[..183], |section|);
    assert [p][..|[p]| - 1] == [] && [p, q][..|[p, q]| - 1] == [p];
    assert AllReadable(FRESH, pid, tableId, [p]);
    assert WriteEach(FRESH, pid, tableId, [p], was) == Written(half, 183, false, false);
    assert WriteEach(FRESH, pid, tableId, [p, q], was).r == 183 + (|section| - 183);
  }

  /**
   * Of longer ones the last byte of every packet that goes on is dropped. A third packet, which carries them from byte
   * 367 on, completes those of up to 549 bytes; what is held then is the section if and only if, from byte 366 on, it
   * is the same as what the third packet carries, one byte later.
   */
  lemma ThirdPacketLosesAByte(p: Packet, q: Packet, r: Packet, section: Bytes, tableId: byte)
    requires LongSection(section, tableId) && 366 < |section| <= 549
    requires FirstPacket(p, section) && NextPacket(q) && NextPacket(r)
    requires forall k :: 183 <= k < 367 ==> q[4 + (k - 183)] == section[k]
    ensures Readable(FRESH, tableId, p) && Readable(WriteOne(FRESH, tableId, p).next, tableId, q)
    ensures var two := WriteOne(WriteOne(FRESH, tableId, p).next, tableId, q);
      && !two.completed && two.next == Extraction(false, true, section[..366], |section|)
      && Readable(two.next, tableId, r)
      && var three := WriteOne(two.next, tableId, r);
         && three.completed && three.next.held == section[..366] + r[4..4 + (|section| - 366)]
         && (three.next.held == section <==> section[366..] == r[4..4 + (|section| - 366)])
  {
    hide WriteOne, Readable, Checks, FirstPacket, NextPacket;
    FirstHalf(p, section, tableId);
    GoesOn(Extraction(false, true, section[..183], |section|), q, tableId);
    TwoHeld(section, q);
    GoesOn(Extraction(false, true, section[..366], |section|), r, tableId);
    SameRest(section, r[4..4 + (|section| - 366)]);
  }

  lemma SameRest(section: Bytes, rest: Bytes)
    requires 366 < |section| && |rest| == |section| - 366
    ensures section[..366] + rest == section <==> section[366..] == rest
  {
    assert section == section[..366] + section[366..];
    if section[..366] + rest == section {
      assert (section[..366] + rest)[366..] == rest;
    }
  }
}
