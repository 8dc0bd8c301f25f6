/** The section extractor over many calls: which of them report a table, and why asking for it matters. */
module SectionCalls {
  import opened Bytes
  import opened Psi
  import opened SectionExtractor
  import opened TsPacket

  /** Packets are written, or the section is asked for. */
  datatype Call = Write(pkts: seq<Packet>) | Query(lengthBytes: int)

  predicate AllCallable(s: Extraction, pid: nat, tableId: byte, calls: seq<Call>)
    decreases |calls|, 0
  {
    calls == [] ||
    (AllCallable(s, pid, tableId, calls[..|calls| - 1]) &&
     (calls[|calls| - 1].Write? ==>
       AllReadable(AfterCalls(s, pid, tableId, calls[..|calls| - 1]), pid, tableId, calls[|calls| - 1].pkts)))
  }

  /** The extractor once all the calls have been made. */
  function AfterCalls(s: Extraction, pid: nat, tableId: byte, calls: seq<Call>): Extraction
    requires AllCallable(s, pid, tableId, calls)
    decreases |calls|, 1
  {
    if calls == [] then s
    else
      var t := AfterCalls(s, pid, tableId, calls[..|calls| - 1]);
      match calls[|calls| - 1]
      case Write(pkts) => WriteAll(t, pid, tableId, pkts, false).next
      case Query(lengthBytes) => AfterQuery(t, lengthBytes)
  }

  /** Every packet of the PID in any of the calls is a copy of the one section. */
  ghost predicate AllCopies(calls: seq<Call>, pid: nat, body: Bytes)
  {
    forall k :: 0 <= k < |calls| ==> calls[k].Write? ==> Copies(calls[k].pkts, pid, body)
  }

  /** Whether the section is there to be asked for after the calls, counted from the copies in each of them. */
  function IsThere(calls: seq<Call>, pid: nat, size: nat): bool
  {
    calls != [] &&
    var before := IsThere(calls[..|calls| - 1], pid, size);
    match calls[|calls| - 1]
    case Write(pkts) => if before then OwnCount(pkts, pid) != 1 else OwnCount(pkts, pid) >= 1
    case Query(lengthBytes) => before && lengthBytes < size + 3
  }

  /** The extractor holds the section and can be asked for it, or has nothing. */
  ghost predicate Settled(s: Extraction, there: bool, body: Bytes)
  {
    && !s.appending && s.complete == there
    && (there ==> s == Extraction(true, false, Section(body), |Section(body)|))
  }

  /** One call: how much of it depends on what the calls before it left. */
  lemma CallReports(s: Extraction, there: bool, pid: nat, body: Bytes, tableId: byte, pkts: seq<Packet>, was: bool)
    requires OnePacketSection(Section(body), tableId) && Settled(s, there, body) && Copies(pkts, pid, body)
    ensures AllReadable(s, pid % 0x2000, tableId, pkts)
    ensures var n, b := OwnCount(pkts, pid % 0x2000), if there then 1 else 0;
      var w := WriteAll(s, pid % 0x2000, tableId, pkts, was);
      && (w.complete <==> n > b) && w.crcValid == (if n == 0 then was else (n + b) % 2 == 1)
      && Settled(w.next, if there then n != 1 else n >= 1, body)
  {
    hide Copies, OnePacketSection, AllReadable, WriteEach, Section, OwnCount;
    CopiesReport(s, pid, body, tableId, pkts, was);
  }

  lemma {:induction false} CallsSettle(calls: seq<Call>, pid: nat, body: Bytes, tableId: byte)
    requires OnePacketSection(Section(body), tableId) && AllCopies(calls, pid, body)
    ensures AllCallable(FRESH, pid % 0x2000, tableId, calls)
    ensures var p := pid % 0x2000;
      Settled(AfterCalls(FRESH, p, tableId, calls), IsThere(calls, p, |Section(body)|), body)
  {
    hide Copies, OnePacketSection, AllReadable, WriteAll, Section, OwnCount;
    if calls != [] {
      var init, p := calls[..|calls| - 1], pid % 0x2000;
      assert AllCopies(init, pid, body);
      CallsSettle(init, pid, body, tableId);
      if calls[|calls| - 1].Write? {
        CallReports(AfterCalls(FRESH, p, tableId, init), IsThere(init, p, |Section(body)|), pid, body, tableId,
                    calls[|calls| - 1].pkts, false);
      }
    }
  }

  /**
   * Any calls on a fresh extractor, any number of copies of a one-packet section in each, then one more: it is complete
   * if and only if it has a copy, or two where the section is still there from before; it is valid if and only if the
   * copies it has, and that one, are odd in number; and if it is complete the section is there as it was built.
   */
  lemma CallsReport(calls: seq<Call>, pid: nat, body: Bytes, tableId: byte, pkts: seq<Packet>, was: bool)
    requires OnePacketSection(Section(body), tableId) && AllCopies(calls, pid, body) && Copies(pkts, pid, body)
    ensures var p := pid % 0x2000;
      && AllCallable(FRESH, p, tableId, calls) && AllReadable(AfterCalls(FRESH, p, tableId, calls), p, tableId, pkts)
      && var n, b := OwnCount(pkts, p), if IsThere(calls, p, |Section(body)|) then 1 else 0;
         var w := WriteAll(AfterCalls(FRESH, p, tableId, calls), p, tableId, pkts, was);
         && (w.complete <==> n > b) && w.crcValid == (if n == 0 then was else (n + b) % 2 == 1)
         && (w.complete ==> w.next == Extraction(true, false, Section(body), |Section(body)|))
  {
    hide Copies, AllCopies, OnePacketSection, AllReadable, AllCallable, AfterCalls, WriteAll, Section, OwnCount,
        IsThere;
    CallsSettle(calls, pid, body, tableId);
    var p := pid % 0x2000;
    var there := IsThere(calls, p, |Section(body)|);
    CallReports(AfterCalls(FRESH, p, tableId, calls), there, pid, body, tableId, pkts, was);
  }

  /** One copy a call and no query: the section is there after every other call, so every other call reports nothing. */
  lemma {:induction false} EveryOtherCall(calls: seq<Call>, pid: nat, size: nat)
    requires forall k :: 0 <= k < |calls| ==> calls[k].Write? && OwnCount(calls[k].pkts, pid) == 1
    ensures IsThere(calls, pid, size) <==> |calls| % 2 == 1
  {
    hide OwnCount;
    if calls != [] {
      EveryOtherCall(calls[..|calls| - 1], pid, size);
    }
  }

  /**
   * A query with room for three bytes more than the section makes the next copy welcome; with less room it does
   * not.
   */
  lemma QueryMakesRoom(calls: seq<Call>, pid: nat, size: nat, lengthBytes: int)
    ensures IsThere(calls + [Query(lengthBytes)], pid, size) <==> IsThere(calls, pid, size) && lengthBytes < size + 3
  {
    assert (calls + [Query(lengthBytes)])[..|calls|] == calls;
  }
}
