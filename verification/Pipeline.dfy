/** Packetizer, continuity check and extractor end to end: what goes in comes out, whole and in order. */
module Pipeline {
  import opened Bits
  import opened Bytes
  import opened OrderedOutput
  import opened Packetizer
  import opened Pes
  import opened PesExtractor
  import opened PesParse
  import opened Reassembly
  import opened RingRoom
  import opened Stats
  import opened TsPacket
  import opened Wrappers
  import Counting

  // ---------------------------------------------------------------- a clean stream

  /** `l`, as the extractor sees it when no error is ever counted. */
  function Quiet(l: seq<Packet>): seq<Seen>
  {
    if l == [] then [] else Quiet(l[..|l| - 1]) + [Seen(l[|l| - 1], 0)]
  }

  /** The packets that carry payload. */
  function WithPayload(l: seq<Packet>): seq<Packet>
  {
    if l == [] then []
    else WithPayload(l[..|l| - 1]) + if HasPayload(l[|l| - 1]) then [l[|l| - 1]] else []
  }

  /** The number of the last payload packet among the first `i`, counted from `cc`. */
  function LastNumber(l: seq<Packet>, cc: nat, i: nat): int
    requires i <= |l|
  {
    cc + |WithPayload(l[..i])| - 1
  }

  /** Payload packets whose counter rises by one, from `cc`; the others repeat it. */
  ghost predicate Consecutive(l: seq<Packet>, cc: nat)
  {
    forall i :: 0 <= i < |l| ==> ContinuityCounter(l[i]) == LastNumber(l, cc, i + 1) % 16
  }

  lemma LastNumberStep(l: seq<Packet>, cc: nat, i: nat)
    requires i < |l|
    ensures LastNumber(l, cc, i + 1) == LastNumber(l, cc, i) + if HasPayload(l[i]) then 1 else 0
  {
    hide HasPayload;
    assert l[..i + 1][..i] == l[..i];
  }

  lemma ConsecutiveIsClean(l: seq<Packet>, cc: nat)
    requires Consecutive(l, cc)
    ensures ContinuityErrors(l) == 0
  {
    hide ContinuityErrors, ContinuityCounter, LastNumber, HasPayload;
    var sent := seq(|l|, i requires 0 <= i < |l| => LastNumber(l, cc, i + 1));
    forall i | 1 <= i < |l| ensures sent[i] == sent[i - 1] + if HasPayload(l[i]) then 1 else 0 {
      LastNumberStep(l, cc, i);
    }
    NothingLostNoErrors(l, sent);
  }

  /** Every packet in sync, and no other PID with an error of its own. */
  ghost predicate OthersClean(h: seq<Packet>, pid: nat)
  {
    Unsynced(h) == 0 && forall q: nat :: q != pid ==> PidErrors(h, q) == 0
  }

  lemma {:induction false} SumIsZero(h: seq<Packet>, pids: seq<nat>)
    requires forall q: nat :: PidErrors(h, q) == 0
    ensures SumErrors(h, pids) == 0
  {
    if pids != [] { SumIsZero(h, pids[..|pids| - 1]); }
  }

  lemma CleanStream(h: seq<Packet>, pid: nat, cc: nat)
    requires OthersClean(h, pid) && Consecutive(OnPid(h, pid), cc)
    ensures StreamErrors(h) == 0
  {
    hide StreamErrors, Unsynced, OnPid, SumErrors, ContinuityErrors, Consecutive;
    var all := seq(MAX_PID, i requires 0 <= i < MAX_PID => i);
    assert Covers(all, h) by {
      forall p | p in h ensures Pid(p) in all { assert all[Pid(p)] == Pid(p); }
    }
    ConsecutiveIsClean(OnPid(h, pid), cc);
    TotalIsSum(h, all);
    SumIsZero(h, all);
  }

  /** The packets without payload are adaptation only, and repeat the counter of the last that has some. */
  ghost predicate BareRepeat(l: seq<Packet>, cc: nat)
  {
    forall i :: 0 <= i < |l| && !HasPayload(l[i]) ==>
      AdaptionOnly(l[i]) && ContinuityCounter(l[i]) == LastNumber(l, cc, i + 1) % 16
  }

  lemma {:induction false} WithPayloadAt(l: seq<Packet>, i: nat)
    requires i < |l| && HasPayload(l[i])
    ensures var k := |WithPayload(l[..i])|; k < |WithPayload(l)| && WithPayload(l)[k] == l[i]
  {
    hide HasPayload;
    var n := |l| - 1;
    if i < n {
      WithPayloadAt(l[..n], i);
      assert l[..n][..i] == l[..i];
    }
  }

  /** Packets with payload in turn, and others that repeat the counter in between. */
  lemma BareInBetween(l: seq<Packet>, cc: nat)
    requires Consecutive(WithPayload(l), cc) && BareRepeat(l, cc)
    ensures Consecutive(l, cc)
  {
    hide HasPayload, ContinuityCounter, AdaptionOnly, LastNumber, WithPayload;
    forall i | 0 <= i < |l| ensures ContinuityCounter(l[i]) == LastNumber(l, cc, i + 1) % 16 {
      if HasPayload(l[i]) { PayloadCounter(l, cc, i); }
    }
  }

  lemma PayloadCounter(l: seq<Packet>, cc: nat, i: nat)
    requires i < |l| && HasPayload(l[i]) && Consecutive(WithPayload(l), cc)
    ensures ContinuityCounter(l[i]) == LastNumber(l, cc, i + 1) % 16
  {
    hide HasPayload, ContinuityCounter, WithPayload;
    var w, k := WithPayload(l), |WithPayload(l[..i])|;
    WithPayloadAt(l, i);
    LastNumberStep(l, cc, i);
    AllPayload(l);
    PayloadOnlyPrefix(w, k + 1);
  }

  lemma {:induction false} AllPayload(l: seq<Packet>)
    ensures forall i :: 0 <= i < |WithPayload(l)| ==> HasPayload(WithPayload(l)[i])
  {
    hide HasPayload;
    if l != [] { AllPayload(l[..|l| - 1]); }
  }

  lemma {:induction false} PayloadOnly(l: seq<Packet>)
    requires forall i :: 0 <= i < |l| ==> HasPayload(l[i])
    ensures WithPayload(l) == l
  {
    hide HasPayload;
    if l != [] { PayloadOnly(l[..|l| - 1]); }
  }

  lemma PayloadOnlyPrefix(l: seq<Packet>, n: nat)
    requires n <= |l| && forall i :: 0 <= i < |l| ==> HasPayload(l[i])
    ensures WithPayload(l[..n]) == l[..n]
  {
    PayloadOnly(l[..n]);
  }

  /** Where no error is ever counted, the extractor passes over adaptation-only packets. */
  lemma {:induction false} BarePassedOver(lim: Limits, l: seq<Packet>)
    requires forall i :: 0 <= i < |l| && !HasPayload(l[i]) ==> AdaptionOnly(l[i])
    ensures Run(lim, Quiet(l)) == Run(lim, Quiet(WithPayload(l))) && Run(lim, Quiet(l)).lastCC == 0
  {
    if l == [] {
      NothingYet(lim);
    } else {
      hide Step, Run, AdaptionOnly, HasPayload;
      var init, p := l[..|l| - 1], l[|l| - 1];
      BarePassedOver(lim, init);
      RunSnoc(lim, Quiet(init), Seen(p, 0));
      BareStep(Run(lim, Quiet(init)), lim, p);
      if HasPayload(p) {
        QuietSnoc(WithPayload(init), p);
        RunSnoc(lim, Quiet(WithPayload(init)), Seen(p, 0));
      } else {
        assert WithPayload(init) + [] == WithPayload(init);
      }
    }
  }

  lemma NothingYet(lim: Limits)
    ensures Run(lim, Quiet([])) == Run(lim, Quiet(WithPayload([]))) && Run(lim, Quiet([])).lastCC == 0
  {
  }

  lemma BareStep(s: State, lim: Limits, p: Packet)
    requires s.lastCC == 0
    ensures Step(s, lim, Seen(p, 0)).lastCC == 0
    ensures AdaptionOnly(p) ==> Step(s, lim, Seen(p, 0)) == s
  {
    hide AdaptionOnly, Pusi, Payload;
  }

  /** Without errors, watching a PID is just picking out its packets. */
  lemma {:induction false} WatchQuiet(pid: nat, h: seq<Packet>)
    requires StreamErrors(h) == 0
    ensures Watch(pid, h) == Quiet(OnPid(h, pid))
  {
    if h != [] {
      var init, p := h[..|h| - 1], h[|h| - 1];
      WatchQuiet(pid, init);
      if Pid(p) == pid {
        var l := OnPid(init, pid);
        assert (l + [p])[..|l|] == l;
      } else {
        assert OnPid(init, pid) + [] == OnPid(init, pid);
        assert Watch(pid, init) + [] == Watch(pid, init);
      }
    }
  }

  // ---------------------------------------------------------------- units through the extractor

  /** The packets of one unit, as any packetization of it makes them. */
  ghost predicate CutFrom(pkts: seq<Packet>, unit: Bytes, pid: nat, cc: nat)
  {
    && pkts != []
    && (forall i :: 0 <= i < |pkts| ==> CleanPacket(pkts[i], pid, cc + i, i == 0))
    && PayloadBytes(pkts) == unit
  }

  lemma PacketizationIsCut(pkts: seq<Packet>, unit: Bytes, pid: nat, cc: nat, pcr: int, rai: bool, priority: bool)
    requires IsPacketization(pkts, unit, pid, cc, pcr, rai, priority)
    ensures CutFrom(pkts, unit, pid, cc)
  {
  }

  /** The payload each packet carries, in bytes. */
  function Loads(pkts: seq<Packet>): (ws: seq<nat>)
    ensures |ws| == |pkts|
  {
    seq(|pkts|, i requires 0 <= i < |pkts| => |Payload(pkts[i])|)
  }

  lemma {:induction false} LoadsTotal(pkts: seq<Packet>)
    ensures Total(Loads(pkts)) == |PayloadBytes(pkts)| && InPackets(Loads(pkts))
  {
    hide Payload;
    if pkts != [] {
      LoadsTotal(pkts[..|pkts| - 1]);
      assert Loads(pkts)[..|pkts| - 1] == Loads(pkts[..|pkts| - 1]);
    }
  }

  /** The extractor in the middle of a stream: `handed` is out, `acc` is in the ring, nothing was lost. */
  ghost predicate Holding(s: State, lim: Limits, size: nat, handed: seq<Bytes>, acc: Bytes)
  {
    && !s.aborted && s.lastCC == 0 && s.handed == handed
    && (s.appending <==> acc != []) && s.acc == acc && s.fill == |acc|
    && s.size == size && lim.initial <= size <= lim.max
  }

  /** The extractor past saving: it has given up, or will at the next start, for the ring has dropped bytes. */
  predicate Lost(s: State)
  {
    s.aborted || (s.appending && s.lastCC == 0 && 0 < s.fill < |s.acc|)
  }

  /** A first packet hands over what was held, and starts anew; or what was held is too short. */
  lemma FirstPacket(s: State, lim: Limits, size: nat, handed: seq<Bytes>, acc: Bytes, p: Packet)
    requires UsableLimits(lim) && Holding(s, lim, size, handed, acc)
    requires Pusi(p) && !AdaptionOnly(p) && Payload(p) != []
    ensures var t := Step(s, lim, Seen(p, 0));
      if acc == [] || 16 <= |acc| then
        Holding(t, lim, size, handed + (if acc == [] then [] else [acc]), Payload(p))
      else
        Lost(t)
  {
    hide Pusi, AdaptionOnly, Payload;
  }

  /** Any other packet extends it; or overflows. */
  lemma NextPacket(s: State, lim: Limits, size: nat, handed: seq<Bytes>, acc: Bytes, p: Packet)
    requires UsableLimits(lim) && Holding(s, lim, size, handed, acc) && acc != []
    requires !Pusi(p) && !AdaptionOnly(p) && Payload(p) != []
    ensures match Grown(lim, size, |acc|, |Payload(p)|)
      case Some(now) => Holding(Step(s, lim, Seen(p, 0)), lim, now, handed, acc + Payload(p))
      case None => Lost(Step(s, lim, Seen(p, 0)))
  {
    hide Pusi, AdaptionOnly, Payload;
  }

  lemma LostStep(s: State, lim: Limits, p: Packet)
    requires Lost(s) && !AdaptionOnly(p)
    ensures Lost(Step(s, lim, Seen(p, 0)))
  {
    hide Pusi, AdaptionOnly, Payload;
  }

  lemma {:induction false} PayloadPrefix(pkts: seq<Packet>, i: nat)
    requires i <= |pkts|
    ensures |PayloadBytes(pkts[..i])| <= |PayloadBytes(pkts)|
  {
    if i < |pkts| {
      PayloadPrefix(pkts[..|pkts| - 1], i);
      assert pkts[..|pkts| - 1][..i] == pkts[..i];
    } else {
      assert pkts[..i] == pkts;
    }
  }

  lemma QuietSnoc(l: seq<Packet>, p: Packet)
    ensures Quiet(l + [p]) == Quiet(l) + [Seen(p, 0)]
  {
    assert (l + [p])[..|l|] == l;
  }

  lemma CleanFacts(p: Packet, pid: nat, cc: nat, first: bool)
    requires CleanPacket(p, pid, cc, first)
    ensures (Pusi(p) <==> first) && !AdaptionOnly(p) && Payload(p) != []
    ensures AdaptionFieldControl(p) in {1, 3} && ContinuityCounter(p) == cc % 16 && Pid(p) == pid && SyncPresent(p)
  {
  }

  lemma LoadsPrefix(pkts: seq<Packet>, i: nat)
    requires 1 <= i <= |pkts|
    ensures Loads(pkts[..i])[..i - 1] == Loads(pkts[..i - 1]) && Loads(pkts[..i])[i - 1] == |Payload(pkts[i - 1])|
    ensures Loads(pkts)[..i] == Loads(pkts[..i])
  {
    hide Payload;
  }

  lemma OneLoad(lim: Limits, size: nat, p: Packet)
    requires 184 <= size
    ensures Room(lim, size, Loads([p])) == Some(size)
  {
    hide Payload;
    var ws := Loads([p]);
    assert ws[..0] == [] && Total([]) == 0;
  }

  /** The first `i` packets of a unit, as long as the ring takes them. */
  lemma {:induction false} PartOfUnit(lim: Limits, l: seq<Packet>, size: nat, handed: seq<Bytes>, acc: Bytes,
                                      pkts: seq<Packet>, unit: Bytes, pid: nat, cc: nat, i: nat)
    requires UsableLimits(lim) && Holding(Run(lim, Quiet(l)), lim, size, handed, acc) && (acc == [] || 16 <= |acc|)
    requires CutFrom(pkts, unit, pid, cc) && 1 <= i <= |pkts| && Room(lim, size, Loads(pkts[..i])).Some?
    ensures Holding(Run(lim, Quiet(l + pkts[..i])), lim, Room(lim, size, Loads(pkts[..i])).value,
                    handed + (if acc == [] then [] else [acc]), PayloadBytes(pkts[..i]))
    ensures PayloadBytes(pkts[..i]) != []
  {
    hide Run, Step, Quiet, CleanPacket, Payload, Pusi, AdaptionOnly, Grown, Loads;
    var p := pkts[i - 1];
    var before := l + pkts[..i - 1];
    assert l + pkts[..i] == before + [p];
    QuietSnoc(before, p);
    RunSnoc(lim, Quiet(before), Seen(p, 0));
    CleanFacts(p, pid, cc + (i - 1), i - 1 == 0);
    assert pkts[..i][..i - 1] == pkts[..i - 1];
    if i == 1 {
      assert pkts[..i - 1] == [] && l + pkts[..i - 1] == l && pkts[..1] == [p];
      assert PayloadBytes(pkts[..i]) == [] + Payload(p) == Payload(p);
      OneLoad(lim, size, p);
      FirstPacket(Run(lim, Quiet(l)), lim, size, handed, acc, p);
    } else {
      LoadsPrefix(pkts, i);
      CarriesPart(lim, size, pkts, i);
      PartOfUnit(lim, l, size, handed, acc, pkts, unit, pid, cc, i - 1);
      var now := handed + (if acc == [] then [] else [acc]);
      assert PayloadBytes(pkts[..i]) == PayloadBytes(pkts[..i - 1]) + Payload(p);
      NextPacket(Run(lim, Quiet(before)), lim, Room(lim, size, Loads(pkts[..i - 1])).value, now,
          PayloadBytes(pkts[..i - 1]), p);
    }
  }

  /** The ring's room packet by packet. */
  lemma CarriesPart(lim: Limits, size: nat, pkts: seq<Packet>, i: nat)
    requires 1 <= i <= |pkts|
    ensures Room(lim, size, Loads(pkts[..i]))
            == match Room(lim, size, Loads(pkts[..i - 1]))
               case None => None
               case Some(now) => Grown(lim, now, |PayloadBytes(pkts[..i - 1])|, |Payload(pkts[i - 1])|)
  {
    hide Payload, Grown, PayloadBytes;
    LoadsPrefix(pkts, i);
    LoadsTotal(pkts[..i - 1]);
  }

  /** Past saving, a stream of payload packets stays so. */
  lemma {:induction false} LostStays(lim: Limits, l: seq<Packet>, more: seq<Packet>)
    requires Lost(Run(lim, Quiet(l))) && forall i :: 0 <= i < |more| ==> !AdaptionOnly(more[i])
    ensures Lost(Run(lim, Quiet(l + more)))
  {
    hide Run, Step, Quiet, Lost, AdaptionOnly;
    if more == [] {
      assert l + more == l;
    } else {
      var n := |more| - 1;
      LostStays(lim, l, more[..n]);
      var before := l + more[..n];
      assert l + more == before + [more[n]];
      QuietSnoc(before, more[n]);
      RunSnoc(lim, Quiet(before), Seen(more[n], 0));
      LostStep(Run(lim, Quiet(before)), lim, more[n]);
    }
  }

  lemma CutCarries(pkts: seq<Packet>, unit: Bytes, pid: nat, cc: nat)
    requires CutFrom(pkts, unit, pid, cc)
    ensures forall i :: 0 <= i < |pkts| ==> !AdaptionOnly(pkts[i])
  {
    hide CleanPacket, AdaptionOnly;
    forall i | 0 <= i < |pkts| ensures !AdaptionOnly(pkts[i]) {
      CleanFacts(pkts[i], pid, cc + i, i == 0);
    }
  }

  /** A unit behind one that is too short, or a unit that does not fit, loses the extractor. */
  lemma UnitLoses(lim: Limits, l: seq<Packet>, size: nat, handed: seq<Bytes>, acc: Bytes,
                  pkts: seq<Packet>, unit: Bytes, pid: nat, cc: nat)
    requires UsableLimits(lim) && Holding(Run(lim, Quiet(l)), lim, size, handed, acc)
    requires CutFrom(pkts, unit, pid, cc)
    requires (acc != [] && |acc| < 16) || Room(lim, size, Loads(pkts)).None?
    ensures Lost(Run(lim, Quiet(l + pkts)))
  {
    hide Run, Step, Quiet, CleanPacket, Payload, Pusi, AdaptionOnly, Grown, Loads, Room, Total, Lost;
    CutCarries(pkts, unit, pid, cc);
    var n := 0;
    if acc != [] && |acc| < 16 {
      CleanFacts(pkts[0], pid, cc, true);
      FirstPacket(Run(lim, Quiet(l)), lim, size, handed, acc, pkts[0]);
      assert l + pkts[..0] == l;
    } else {
      n := FirstOverflow(lim, size, Loads(pkts));
      OverflowingPacket(lim, l, size, handed, acc, pkts, unit, pid, cc, n);
    }
    var before := l + pkts[..n];
    QuietSnoc(before, pkts[n]);
    RunSnoc(lim, Quiet(before), Seen(pkts[n], 0));
    assert before + [pkts[n]] == l + pkts[..n + 1] && l + pkts[..n + 1] + pkts[n + 1..] == l + pkts;
    LostStays(lim, before + [pkts[n]], pkts[n + 1..]);
  }

  lemma OverflowingPacket(lim: Limits, l: seq<Packet>, size: nat, handed: seq<Bytes>, acc: Bytes,
                          pkts: seq<Packet>, unit: Bytes, pid: nat, cc: nat, n: nat)
    requires UsableLimits(lim) && Holding(Run(lim, Quiet(l)), lim, size, handed, acc) && (acc == [] || 16 <= |acc|)
    requires CutFrom(pkts, unit, pid, cc) && n < |pkts| && Room(lim, size, Loads(pkts)[..n]).Some?
    requires Grown(lim, Room(lim, size, Loads(pkts)[..n]).value, Total(Loads(pkts)[..n]), Loads(pkts)[n]).None?
    ensures Lost(Step(Run(lim, Quiet(l + pkts[..n])), lim, Seen(pkts[n], 0)))
  {
    hide Run, Step, Quiet, CleanPacket, Payload, Pusi, AdaptionOnly, Grown, Room, Total, Lost;
    CleanFacts(pkts[n], pid, cc + n, n == 0);
    assert Loads(pkts)[..n] == Loads(pkts[..n]);
    LoadsTotal(pkts[..n]);
    if n == 0 {
      FirstAlwaysFits(lim, size, pkts[0]);
    } else {
      PartOfUnit(lim, l, size, handed, acc, pkts, unit, pid, cc, n);
      NextPacket(Run(lim, Quiet(l + pkts[..n])), lim, Room(lim, size, Loads(pkts[..n])).value,
                 handed + (if acc == [] then [] else [acc]), PayloadBytes(pkts[..n]), pkts[n]);
    }
  }

  lemma FirstAlwaysFits(lim: Limits, size: nat, p: Packet)
    requires 184 <= size
    ensures Room(lim, size, []) == Some(size) && Grown(lim, size, Total([]), |Payload(p)|) == Some(size)
  {
    hide Payload;
  }

  /** Units cut one after another, the counter running on from each to the next. */
  ghost predicate CutInTurn(cuts: seq<seq<Packet>>, units: seq<Bytes>, pid: nat, cc: nat)
  {
    && |cuts| == |units|
    && forall k :: 0 <= k < |cuts| ==> CutFrom(cuts[k], units[k], pid, cc + |Flatten(cuts[..k])|)
  }

  function AllLoads(cuts: seq<seq<Packet>>): (wss: seq<seq<nat>>)
    ensures |wss| == |cuts|
  {
    seq(|cuts|, k requires 0 <= k < |cuts| => Loads(cuts[k]))
  }

  /** All but the last long enough to be processed, and the ring never overflowing. */
  ghost predicate Manageable(lim: Limits, wss: seq<seq<nat>>, units: seq<Bytes>)
  {
    (forall k :: 0 <= k < |units| - 1 ==> 16 <= |units[k]|) && RoomAll(lim, wss).Some?
  }

  /** All units but the last handed over, the last one in the ring; or the extractor is lost. */
  ghost predicate CameOut(lim: Limits, cuts: seq<seq<Packet>>, units: seq<Bytes>)
  {
    var s := Run(lim, Quiet(Flatten(cuts)));
    if !Manageable(lim, AllLoads(cuts), units) then Lost(s)
    else if units == [] then Holding(s, lim, RoomAll(lim, AllLoads(cuts)).value, [], [])
    else Holding(s, lim, RoomAll(lim, AllLoads(cuts)).value, units[..|units| - 1], units[|units| - 1])
  }

  lemma AllLoadsSnoc(lim: Limits, cuts: seq<seq<Packet>>, pkts: seq<Packet>)
    ensures RoomAll(lim, AllLoads(cuts + [pkts]))
            == match RoomAll(lim, AllLoads(cuts)) case None => None case Some(now) => Room(lim, now, Loads(pkts))
  {
    hide Loads, Room;
    assert AllLoads(cuts + [pkts])[..|cuts|] == AllLoads(cuts);
  }

  lemma ManageableSnoc(lim: Limits, cuts: seq<seq<Packet>>, units: seq<Bytes>, pkts: seq<Packet>, unit: Bytes)
    requires |cuts| == |units|
    ensures Manageable(lim, AllLoads(cuts + [pkts]), units + [unit]) <==>
      && Manageable(lim, AllLoads(cuts), units) && (units == [] || 16 <= |units[|units| - 1]|)
      && Room(lim, RoomAll(lim, AllLoads(cuts)).value, Loads(pkts)).Some?
  {
    hide Loads, Room, AllLoads, RoomAll;
    AllLoadsSnoc(lim, cuts, pkts);
    var more := units + [unit];
    if Manageable(lim, AllLoads(cuts + [pkts]), more) {
      assert units != [] ==> more[|units| - 1] == units[|units| - 1];
      assert forall k :: 0 <= k < |units| - 1 ==> more[k] == units[k];
    }
  }

  lemma OneMoreUnit(lim: Limits, cuts: seq<seq<Packet>>, units: seq<Bytes>, pkts: seq<Packet>, unit: Bytes,
      pid: nat, cc: nat)
    requires UsableLimits(lim) && |cuts| == |units| && CameOut(lim, cuts, units)
        && (units != [] ==> units[|units| - 1] != [])
    requires CutFrom(pkts, unit, pid, cc)
    ensures CameOut(lim, cuts + [pkts], units + [unit])
  {
    hide Run, Quiet, Holding, CutFrom, Flatten, Manageable, Loads, Room, AllLoads, RoomAll, Lost;
    CutIsWhole(pkts, unit, pid, cc);
    FlattenSnoc(cuts, pkts);
    ManageableSnoc(lim, cuts, units, pkts, unit);
    AllLoadsSnoc(lim, cuts, pkts);
    CutCarries(pkts, unit, pid, cc);
    var n, l := |units|, Flatten(cuts);
    assert (units + [unit])[..n] == units;
    if !Manageable(lim, AllLoads(cuts), units) {
      LostStays(lim, l, pkts);
    } else {
      RoomIsKnown(lim, cuts, units);
      var size := RoomAll(lim, AllLoads(cuts)).value;
      var handed: seq<Bytes> := if n == 0 then [] else units[..n - 1];
      var acc: Bytes := if n == 0 then [] else units[n - 1];
      if Manageable(lim, AllLoads(cuts + [pkts]), units + [unit]) {
        PartOfUnit(lim, l, size, handed, acc, pkts, unit, pid, cc, |pkts|);
        assert handed + (if acc == [] then [] else [acc]) == units;
      } else {
        UnitLoses(lim, l, size, handed, acc, pkts, unit, pid, cc);
      }
    }
  }

  lemma RoomIsKnown(lim: Limits, cuts: seq<seq<Packet>>, units: seq<Bytes>)
    requires Manageable(lim, AllLoads(cuts), units)
    ensures RoomAll(lim, AllLoads(cuts)).Some?
  {
  }

  lemma CutInTurnSnoc(cuts: seq<seq<Packet>>, units: seq<Bytes>, pid: nat, cc: nat)
    requires CutInTurn(cuts, units, pid, cc) && cuts != []
    ensures var n := |cuts| - 1;
            CutInTurn(cuts[..n], units[..n], pid, cc) && CutFrom(cuts[n], units[n], pid, cc + |Flatten(cuts[..n])|)
  {
    hide CutFrom, Flatten;
    var n := |cuts| - 1;
    forall k | 0 <= k < n ensures CutFrom(cuts[..n][k], units[..n][k], pid, cc + |Flatten(cuts[..n][..k])|) {
      assert cuts[..n][..k] == cuts[..k];
    }
  }

  /** The unit before the next is not empty, and the next one is cut from where the others end. */
  lemma CutInTurnLast(cuts: seq<seq<Packet>>, units: seq<Bytes>, pid: nat, cc: nat)
    requires CutInTurn(cuts, units, pid, cc) && cuts != []
    ensures var n := |cuts| - 1;
      && CutInTurn(cuts[..n], units[..n], pid, cc) && CutFrom(cuts[n], units[n], pid, cc + |Flatten(cuts[..n])|)
      && (n > 0 ==> units[n - 1] != [])
  {
    hide CutFrom, Flatten;
    var n := |cuts| - 1;
    CutInTurnSnoc(cuts, units, pid, cc);
    if n > 0 { CutNotEmpty(cuts[n - 1], units[n - 1], pid, cc + |Flatten(cuts[..n - 1])|); }
  }

  lemma OneMore(lim: Limits, cuts: seq<seq<Packet>>, units: seq<Bytes>, pid: nat, cc: nat)
    requires UsableLimits(lim) && CutInTurn(cuts, units, pid, cc) && |cuts| == |units| > 0
    requires CameOut(lim, cuts[..|cuts| - 1], units[..|units| - 1])
    ensures CameOut(lim, cuts, units)
  {
    hide CameOut, CutFrom, Flatten, CutInTurn, UsableLimits;
    var n := |cuts| - 1;
    var init, us := cuts[..n], units[..n];
    CutInTurnLast(cuts, units, pid, cc);
    assert init + [cuts[n]] == cuts && us + [units[n]] == units;
    OneMoreUnit(lim, init, us, cuts[n], units[n], pid, cc + |Flatten(init)|);
  }

  lemma SameLength(cuts: seq<seq<Packet>>, units: seq<Bytes>, pid: nat, cc: nat)
    requires CutInTurn(cuts, units, pid, cc)
    ensures |cuts| == |units|
  {
  }

  /** Whatever the sizes: the units come out whole and in order, or the extractor is lost, and it is known which. */
  lemma {:induction false} UnitsComeOut(lim: Limits, cuts: seq<seq<Packet>>, units: seq<Bytes>, pid: nat, cc: nat)
    requires UsableLimits(lim) && CutInTurn(cuts, units, pid, cc)
    ensures CameOut(lim, cuts, units)
  {
    hide CameOut, CutFrom, Flatten, CutInTurn, UsableLimits;
    SameLength(cuts, units, pid, cc);
    if units == [] {
      EmptyStream(lim);
    } else {
      CutInTurnLast(cuts, units, pid, cc);
      UnitsComeOut(lim, cuts[..|cuts| - 1], units[..|units| - 1], pid, cc);
      OneMore(lim, cuts, units, pid, cc);
    }
  }

  lemma CutNotEmpty(pkts: seq<Packet>, unit: Bytes, pid: nat, cc: nat)
    requires CutFrom(pkts, unit, pid, cc)
    ensures unit != []
  {
    hide CleanPacket, Payload;
    CleanFacts(pkts[|pkts| - 1], pid, cc + (|pkts| - 1), |pkts| - 1 == 0);
  }

  lemma EmptyStream(lim: Limits)
    requires UsableLimits(lim)
    ensures CameOut(lim, [], [])
  {
  }

  lemma CutIsWhole(pkts: seq<Packet>, unit: Bytes, pid: nat, cc: nat)
    requires CutFrom(pkts, unit, pid, cc)
    ensures pkts != [] && pkts[..|pkts|] == pkts && PayloadBytes(pkts) == unit
  {
  }

  // ---------------------------------------------------------------- end to end

  /**
   * The payload packets of a PID are those of `units`, cut in turn, with adaptation-only packets anywhere in between;
   * the rest of the stream is without errors.
   */
  ghost predicate Carries(h: seq<Packet>, pid: nat, cuts: seq<seq<Packet>>, units: seq<Bytes>, cc: nat)
  {
    && OthersClean(h, pid) && CutInTurn(cuts, units, pid, cc)
    && WithPayload(OnPid(h, pid)) == Flatten(cuts) && BareRepeat(OnPid(h, pid), cc)
  }

  lemma {:induction false} CutsAreConsecutive(cuts: seq<seq<Packet>>, units: seq<Bytes>, pid: nat, cc: nat)
    requires CutInTurn(cuts, units, pid, cc)
    ensures Consecutive(Flatten(cuts), cc) && forall k :: 0 <= k < |Flatten(cuts)| ==> HasPayload(Flatten(cuts)[k])
  {
    hide CutFrom, Consecutive, HasPayload;
    if cuts == [] {
      NoneConsecutive(cc);
    } else {
      var n := |cuts| - 1;
      CutInTurnSnoc(cuts, units, pid, cc);
      hide CutInTurn;
      CutsAreConsecutive(cuts[..n], units[..n], pid, cc);
      AppendConsecutive(Flatten(cuts[..n]), cuts[n], units[n], pid, cc);
    }
  }

  lemma NoneConsecutive(cc: nat)
    ensures Consecutive([], cc)
  {
  }

  lemma AppendConsecutive(l: seq<Packet>, pkts: seq<Packet>, unit: Bytes, pid: nat, cc: nat)
    requires Consecutive(l, cc) && CutFrom(pkts, unit, pid, cc + |l|) && forall k :: 0 <= k < |l| ==> HasPayload(l[k])
    ensures Consecutive(l + pkts, cc) && forall k :: 0 <= k < |l + pkts| ==> HasPayload((l + pkts)[k])
  {
    hide CleanPacket, HasPayload, ContinuityCounter, LastNumber;
    var all := l + pkts;
    forall i | 0 <= i < |all| ensures HasPayload(all[i]) && ContinuityCounter(all[i]) == (cc + i) % 16 {
      if i < |l| {
        assert all[i] == l[i];
        NumberOfPayload(l, cc, i);
      } else {
        assert all[i] == pkts[i - |l|];
        CleanFacts(pkts[i - |l|], pid, cc + |l| + (i - |l|), i - |l| == 0);
        PayloadBit(all[i]);
      }
    }
    forall i | 0 <= i < |all| ensures ContinuityCounter(all[i]) == LastNumber(all, cc, i + 1) % 16 {
      NumberOfPayload(all, cc, i);
    }
  }

  lemma NumberOfPayload(l: seq<Packet>, cc: nat, i: nat)
    requires i < |l| && forall k :: 0 <= k < |l| ==> HasPayload(l[k])
    ensures LastNumber(l, cc, i + 1) == cc + i
  {
    PayloadOnlyPrefix(l, i + 1);
  }

  /**
   * Packetize, interleave with any error-free PIDs, extract: what reaches the parser is exactly the
   * byte strings that went in, whole and in order, all but the last, which is still in the ring, if
   * and only if all but the last have sixteen bytes and the ring has room; otherwise it is lost.
   */
  lemma EndToEnd(lim: Limits, pid: nat, h: seq<Packet>, cuts: seq<seq<Packet>>, units: seq<Bytes>, cc: nat)
    requires UsableLimits(lim) && Carries(h, pid, cuts, units, cc) && units != []
    ensures StreamErrors(h) == 0
    ensures var s := Run(lim, Watch(pid, h));
      && (Manageable(lim, AllLoads(cuts), units) <==>
          (!s.aborted && s.handed == units[..|units| - 1] && s.acc == units[|units| - 1] && s.fill == |s.acc|))
      && (!Manageable(lim, AllLoads(cuts), units) <==> Lost(s))
  {
    hide OthersClean, CutInTurn, Run, StreamErrors, Manageable, AllLoads, RoomAll, Flatten, Consecutive, HasPayload,
      AdaptionOnly, LastNumber, WithPayload;
    CutsAreConsecutive(cuts, units, pid, cc);
    BareInBetween(OnPid(h, pid), cc);
    CleanStream(h, pid, cc);
    WatchQuiet(pid, h);
    BarePassedOver(lim, OnPid(h, pid));
    UnitsComeOut(lim, cuts, units, pid, cc);
  }

  /** The same of an extractor object, however its packets were batched into calls. */
  lemma ExtractorHandsOver(e: PesExtractor, cuts: seq<seq<Packet>>, units: seq<Bytes>, cc: nat)
    requires e.Valid() && units != []
    requires Carries(e.libstats.history, e.pid, cuts, units, cc)
    ensures Manageable(e.Limit(), AllLoads(cuts), units) ==>
      && !e.aborted && e.handed == units[..|units| - 1] && e.acc == units[|units| - 1]
      && e.rb.Contents() == e.acc
    ensures !Manageable(e.Limit(), AllLoads(cuts), units) ==> e.aborted || e.rb.fill < |e.acc|
  {
    hide Manageable, AllLoads, Run, Carries;
    EndToEnd(e.Limit(), e.pid, e.libstats.history, cuts, units, cc);
  }

  /**
   * Units that fit by their sizes alone, all but the last of sixteen bytes and more, are manageable however they
   * are cut.
   */
  lemma SizesSuffice(lim: Limits, cuts: seq<seq<Packet>>, units: seq<Bytes>, pid: nat, cc: nat)
    requires UsableLimits(lim) && CutInTurn(cuts, units, pid, cc)
    requires forall k :: 0 <= k < |units| ==> FitsRing(lim, |units[k]|) && (k < |units| - 1 ==> 16 <= |units[k]|)
    ensures Manageable(lim, AllLoads(cuts), units)
  {
    hide Loads, PayloadBytes, FitsRing, Flatten, CleanPacket, RoomAll, InPackets;
    forall k | 0 <= k < |cuts| ensures InPackets(AllLoads(cuts)[k]) && FitsRing(lim, Total(AllLoads(cuts)[k])) {
      LoadsTotal(cuts[k]);
      assert CutFrom(cuts[k], units[k], pid, cc + |Flatten(cuts[..k])|);
    }
    AllFitHoweverCut(lim, AllLoads(cuts));
  }

  // ---------------------------------------------------------------- with PES inside

  /** A packed PES that parses back as itself, and is delivered. */
  ghost predicate PackedAs(unit: Bytes, p: PesPacket)
  {
    && Packable(p) && p.data != [] && BytesBits(unit) == PesBits(p)
    && (p.packetLength == HeaderTail(p) + |p.data| || p.packetLength < HeaderTail(p))
  }

  lemma PackedIsDelivered(unit: Bytes, p: PesPacket)
    requires PackedAs(unit, p)
    ensures Delivered(unit, false) == Some(p)
  {
    hide ParsePes, Packable, BytesBits;
    InRange(p);
    PackThenParse(p, unit);
    TailBits(p);
  }

  /**
   * A packed PES with a length that agrees is delivered as it is, unless it has no payload behind a timestamp or copy
   * information: the reader's overrun flag is up then, and it is dropped.
   */
  lemma PackedDeliveredExactly(unit: Bytes, p: PesPacket)
    requires Packable(p) && BytesBits(unit) == PesBits(p)
    requires p.packetLength == HeaderTail(p) + |p.data| || p.packetLength < HeaderTail(p)
    ensures Delivered(unit, false)
            == if p.data == [] && (p.ptsDtsFlags >= 2 || p.copyInfoFlag == 1) then None else Some(p)
  {
    hide ParsePes, BytesBits, PesBits, Packable;
    InRange(p);
    PackThenParse(p, unit);
    ParsesPacked(p, unit);
    TailBits(p);
    SmallFlags(p);
    assert |PesBits(p)| == 8 * |unit|;
  }

  lemma SmallFlags(p: PesPacket)
    requires Packable(p)
    ensures p.ptsDtsFlags < 4 && p.copyInfoFlag < 2
  {
  }

  lemma PackedIsFollowed(unit: Bytes, p: PesPacket)
    requires PackedAs(unit, p)
    ensures Followed(unit, false)
  {
    hide ParsePes, Packable, BytesBits;
    PackThenParse(p, unit);
  }

  lemma {:induction false} PesComeThrough(o: Outlet, units: seq<Bytes>, pes: seq<PesPacket>)
    requires |units| == |pes| && forall k :: 0 <= k < |units| ==> PackedAs(units[k], pes[k])
    ensures UnitsThrough(o, false, false, units) == o.(emitted := o.emitted + pes)
  {
    hide PackedAs, Delivered;
    if units == [] {
      assert o.emitted + pes == o.emitted;
    } else {
      var n := |units| - 1;
      PesComeThrough(o, units[..n], pes[..n]);
      PackedIsDelivered(units[n], pes[n]);
      assert pes == pes[..n] + [pes[n]];
    }
  }

  /**
   * Pack, packetize, interleave, extract, parse: the callback is given the very PES that were
   * packed, in order, all but the last.
   */
  lemma PesEndToEnd(lim: Limits, pid: nat, h: seq<Packet>, cuts: seq<seq<Packet>>, units: seq<Bytes>, cc: nat,
                    pes: seq<PesPacket>, o: Outlet)
    requires UsableLimits(lim) && Carries(h, pid, cuts, units, cc) && Manageable(lim, AllLoads(cuts), units)
        && units != []
    requires |units| == |pes| && forall k :: 0 <= k < |units| ==> PackedAs(units[k], pes[k])
    ensures UnitsThrough(o, false, false, Run(lim, Watch(pid, h)).handed) == o.(emitted := o.emitted + pes[..|pes| - 1])
  {
    hide PackedAs, UnitsThrough, Run, Carries, Manageable, AllLoads;
    EndToEnd(lim, pid, h, cuts, units, cc);
    var n := |units| - 1;
    assert forall k :: 0 <= k < n ==> units[..n][k] == units[k] && pes[..n][k] == pes[k];
    PesComeThrough(o, units[..n], pes[..n]);
  }
}
