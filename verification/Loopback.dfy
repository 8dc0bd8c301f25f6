/** The packetizer's own output fed straight to an extractor: the pipeline run from end to end. */
module Loopback {
  import opened Bytes
  import opened OrderedOutput
  import opened Packetizer
  import opened Pes
  import opened PesExtractor
  import opened Pipeline
  import opened Reassembly
  import opened Stats
  import opened TsPacket

  /** Nothing but payload packets of one PID, in sync. */
  ghost predicate AllOf(l: seq<Packet>, pid: nat)
  {
    forall i :: 0 <= i < |l| ==> Pid(l[i]) == pid && SyncPresent(l[i])
  }

  lemma {:induction false} OnlyPid(l: seq<Packet>, pid: nat, q: nat)
    requires AllOf(l, pid)
    ensures Unsynced(l) == 0 && OnPid(l, q) == if q == pid then l else []
  {
    if l != [] {
      OnlyPid(l[..|l| - 1], pid, q);
    }
  }

  lemma OthersAbsent(l: seq<Packet>, pid: nat)
    requires AllOf(l, pid)
    ensures OthersClean(l, pid)
  {
    OnlyPid(l, pid, pid);
    forall q: nat | q != pid ensures PidErrors(l, q) == 0 {
      OnlyPid(l, pid, q);
    }
  }

  /** Packets cut with a counter are cut with any counter that agrees modulo 16. */
  lemma CutModulo16(pkts: seq<Packet>, unit: Bytes, pid: nat, c: nat, n: nat)
    requires CutFrom(pkts, unit, pid, c) && c % 16 == n % 16
    ensures CutFrom(pkts, unit, pid, n)
  {
    hide CleanPacket;
    forall i | 0 <= i < |pkts| ensures CleanPacket(pkts[i], pid, n + i, i == 0) {
      SameModulo16(c, n, i);
      OnlyModulo16(pkts[i], pid, c + i, n + i, i == 0);
    }
  }

  lemma SameModulo16(c: nat, n: nat, i: nat)
    requires c % 16 == n % 16
    ensures (c + i) % 16 == (n + i) % 16
  {
  }

  lemma CutIsOnPid(pkts: seq<Packet>, unit: Bytes, pid: nat, c: nat)
    requires CutFrom(pkts, unit, pid, c)
    ensures AllOf(pkts, pid) && forall p :: p in pkts ==> AdaptionFits(p)
  {
  }

  lemma CutMore(cuts: seq<seq<Packet>>, units: seq<Bytes>, pid: nat, cc: nat, pkts: seq<Packet>, unit: Bytes)
    requires CutInTurn(cuts, units, pid, cc) && CutFrom(pkts, unit, pid, cc + |Flatten(cuts)|)
    ensures CutInTurn(cuts + [pkts], units + [unit], pid, cc)
  {
    hide CutFrom, Flatten;
    forall k | 0 <= k < |cuts| + 1
      ensures CutFrom((cuts + [pkts])[k], (units + [unit])[k], pid, cc + |Flatten((cuts + [pkts])[..k])|)
    {
      assert (cuts + [pkts])[..k] == cuts[..k];
      assert cuts[..|cuts|] == cuts;
    }
  }

  /** What a caller may ask of the first packet of a unit. */
  datatype Options = Options(pcr: int, rai: bool, priority: bool)

  function Capacity(o: Options): nat
  {
    FirstCapacity(o.pcr, o.rai, o.priority)
  }

  /** The payload sizes a unit is cut into. */
  function Pieces(unit: Bytes, o: Options): seq<nat>
  {
    seq(PacketCount(|unit|, Capacity(o)), i requires i >= 0 => PieceSize(|unit|, Capacity(o), i))
  }

  function AllPieces(units: seq<Bytes>, os: seq<Options>): seq<seq<nat>>
    requires |os| == |units|
  {
    seq(|units|, k requires 0 <= k < |units| => Pieces(units[k], os[k]))
  }

  /** One unit, cut with a counter that runs on from the units before it. */
  method CutUnit(unit: Bytes, cc: byte, pid: nat, o: Options, ghost cuts: seq<seq<Packet>>, ghost counter: nat)
    returns (next: byte, packets: seq<Packet>)
    requires unit != [] && pid <= 0x1fff && cc as int % 16 == (counter + |Flatten(cuts)|) % 16
    ensures CutFrom(packets, unit, pid, counter + |Flatten(cuts)|) && Loads(packets) == Pieces(unit, o)
    ensures next as int % 16 == (counter + |Flatten(cuts)| + |packets|) % 16
  {
    hide CutFrom, IsPacketization, Flatten, Payload, PieceSize, PacketCount;
    var ok, arr, n, after := TsPacketizerWithPcr(unit, PACKET_SIZE, cc, pid, o.pcr, o.rai, o.priority);
    packets := PacketsOf(arr[..], n);
    PacketizationIsCut(packets, unit, pid, cc, o.pcr, o.rai, o.priority);
    CutModulo16(packets, unit, pid, cc, counter + |Flatten(cuts)|);
    SameModulo16(cc, counter + |Flatten(cuts)|, |packets|);
    next := after;
  }

  /** Units packetized one after another with a shared counter. */
  method CutAll(units: seq<Bytes>, os: seq<Options>, pid: nat, counter: byte)
    returns (packets: seq<Packet>, ghost cuts: seq<seq<Packet>>)
    requires |os| == |units| && pid <= 0x1fff && forall k :: 0 <= k < |units| ==> units[k] != []
    ensures CutInTurn(cuts, units, pid, counter) && packets == Flatten(cuts)
    ensures AllLoads(cuts) == AllPieces(units, os)
  {
    hide CutInTurn, CutFrom, Flatten, Pieces, Loads;
    packets, cuts := [], [];
    var cc := counter;
    NothingCut(pid, counter);
    for i := 0 to |units|
      invariant |cuts| == i && CutInTurn(cuts, units[..i], pid, counter) && packets == Flatten(cuts)
      invariant cc as int % 16 == (counter as int + |Flatten(cuts)|) % 16
      invariant forall k :: 0 <= k < i ==> Loads(cuts[k]) == Pieces(units[k], os[k])
    {
      var more;
      cc, more := CutUnit(units[i], cc, pid, os[i], cuts, counter);
      FlattenSnoc(cuts, more);
      CutMore(cuts, units[..i], pid, counter, more, units[i]);
      assert units[..i] + [units[i]] == units[..i + 1];
      packets, cuts := packets + more, cuts + [more];
    }
    assert units[..|units|] == units;
  }

  lemma NothingCut(pid: nat, cc: nat)
    ensures CutInTurn([], [], pid, cc) && Flatten<Packet>([]) == []
  {
  }

  lemma {:induction false} CutsOnPid(cuts: seq<seq<Packet>>, units: seq<Bytes>, pid: nat, cc: nat)
    requires CutInTurn(cuts, units, pid, cc)
    ensures AllOf(Flatten(cuts), pid) && forall p :: p in Flatten(cuts) ==> AdaptionFits(p)
  {
    hide CutFrom;
    if cuts != [] {
      var n := |cuts| - 1;
      CutInTurnSnoc(cuts, units, pid, cc);
      CutsOnPid(cuts[..n], units[..n], pid, cc);
      CutIsOnPid(cuts[n], units[n], pid, cc + |Flatten(cuts[..n])|);
    }
  }

  lemma {:induction false} WatchPrefix(pid: nat, h: seq<Packet>, n: nat)
    requires n <= |h|
    ensures Watch(pid, h[..n]) <= Watch(pid, h)
    decreases |h|
  {
    if n < |h| {
      WatchPrefix(pid, h[..|h| - 1], n);
      assert h[..|h| - 1][..n] == h[..n];
    } else {
      assert h[..n] == h;
    }
  }

  /** Given up on part of a stream is given up on all of it. */
  lemma AbortedEarly(lim: Limits, pid: nat, h: seq<Packet>, n: nat)
    requires n <= |h| && Run(lim, Watch(pid, h[..n])).aborted
    ensures Run(lim, Watch(pid, h)).aborted
  {
    hide Run;
    WatchPrefix(pid, h, n);
    var o, m := Watch(pid, h), |Watch(pid, h[..n])|;
    assert o[..m] == Watch(pid, h[..n]);
    AbortStays(lim, o, m);
  }

  /** What an extractor that has been given all the packets, or given up among them, comes to. */
  lemma Received(e: PesExtractor, packets: seq<Packet>, n: nat, cuts: seq<seq<Packet>>, units: seq<Bytes>, cc: nat)
    requires e.Valid() && units != [] && CutInTurn(cuts, units, e.pid, cc) && packets == Flatten(cuts)
    requires n <= |packets| && e.libstats.history == packets[..n] && (!e.aborted ==> n == |packets|)
    ensures if Manageable(e.Limit(), AllLoads(cuts), units) then
        !e.aborted && e.handed == units[..|units| - 1] && e.acc == e.rb.Contents() == units[|units| - 1]
      else
        e.aborted || e.rb.fill < |e.acc|
  {
    hide Manageable, AllLoads, Run, CutInTurn, Flatten, Watch, HasPayload, AdaptionOnly, WithPayload, Consecutive;
    CutsOnPid(cuts, units, e.pid, cc);
    OthersAbsent(packets, e.pid);
    OnlyPid(packets, e.pid, e.pid);
    CutsAreConsecutive(cuts, units, e.pid, cc);
    PayloadOnly(packets);
    if e.aborted {
      AbortedEarly(e.Limit(), e.pid, packets, n);
      EndToEnd(e.Limit(), e.pid, packets, cuts, units, cc);
    } else {
      assert packets[..n] == packets;
      ExtractorHandsOver(e, cuts, units, cc);
    }
  }

  /**
   * Any byte strings packetized one after another with a shared counter, PCRs and indicators as one likes, and written
   * to a new extractor. If all but the last have sixteen bytes and the ring has room for their pieces, what has reached
   * the parser is those byte strings, all but the last; if not, the extractor has given up or dropped bytes.
   */
  method SendAndReceive(units: seq<Bytes>, os: seq<Options>, pid: nat, counter: byte, bufferMin: nat, bufferMax: nat)
    returns (e: PesExtractor)
    requires units != [] && |os| == |units| && pid <= 0x1fff && 2 * 184 <= bufferMin <= bufferMax
    requires forall k :: 0 <= k < |units| ==> units[k] != []
    ensures fresh(e) && e.Valid()
    ensures if Manageable(Limits(bufferMin, bufferMax), AllPieces(units, os), units) then
        !e.aborted && e.handed == units[..|units| - 1] && e.acc == e.rb.Contents() == units[|units| - 1]
      else
        e.aborted || e.rb.fill < |e.acc|
    ensures exists o: Outlet :: o.emitted == [] && GoesThrough(o, false, false, e.handed, e.Out())
  {
    hide Manageable, AllLoads, AllPieces, CutInTurn, Flatten, PesExtractor.Valid, AdaptionFits, GoesThrough;
    var packets, cuts := CutAll(units, os, pid, counter);
    CutsOnPid(cuts, units, pid, counter);
    e := new PesExtractor(pid, bufferMin, bufferMax);
    ghost var o := e.Out();
    var n := e.Write(packets);
    Received(e, packets, n, cuts, units, counter);
    assert Newly([], e.handed) == e.handed;
    assert o.emitted == [] && GoesThrough(o, false, false, e.handed, e.Out());
  }

  /** And when the byte strings are packed PES, the callback has had those PES, all but the last. */
  method SendPes(units: seq<Bytes>, ghost pes: seq<PesPacket>, os: seq<Options>, pid: nat, counter: byte,
                 bufferMin: nat, bufferMax: nat) returns (e: PesExtractor)
    requires units != [] && |os| == |units| == |pes| && pid <= 0x1fff && 2 * 184 <= bufferMin <= bufferMax
    requires forall k :: 0 <= k < |units| ==> units[k] != [] && PackedAs(units[k], pes[k])
    requires Manageable(Limits(bufferMin, bufferMax), AllPieces(units, os), units)
    ensures fresh(e) && !e.aborted && e.emitted == pes[..|pes| - 1]
  {
    hide Manageable, AllPieces, PackedAs, GoesThrough, PesExtractor.Valid;
    e := SendAndReceive(units, os, pid, counter, bufferMin, bufferMax);
    ghost var o: Outlet :| o.emitted == [] && GoesThrough(o, false, false, e.handed, e.Out());
    ghost var n := |units| - 1;
    assert forall k :: 0 <= k < n ==> units[..n][k] == units[k] && pes[..n][k] == pes[k];
    PesGoThrough(o, units[..n], pes[..n], e.Out());
  }

  lemma PesGoThrough(o: Outlet, units: seq<Bytes>, pes: seq<PesPacket>, after: Outlet)
    requires |units| == |pes| && forall k :: 0 <= k < |units| ==> PackedAs(units[k], pes[k])
    requires GoesThrough(o, false, false, units, after)
    ensures after.emitted == o.emitted + pes
  {
    hide PackedAs, UnitsThrough, Followed;
    PesComeThrough(o, units, pes);
    forall k | 0 <= k < |units| ensures Followed(units[k], false) {
      PackedIsFollowed(units[k], pes[k]);
    }
  }
}
