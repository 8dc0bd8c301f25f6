/** Stream statistics, src/stats.c: continuity counting and the table of PIDs. */
module Stats {
  import opened Counting
  import opened TsPacket

  const MAX_PID := 8192
  const NULL_PID := 0x1fff

  /** Does the packet's counter fail to follow `oldCC`? */
  predicate CCInError(p: Packet, oldCC: nat)
  {
    var adap, cc := AdaptionFieldControl(p), ContinuityCounter(p);
    if (adap == 0 || adap == 2) && oldCC == cc then false
    else if (adap == 1 || adap == 3) && oldCC == cc then true
    else (oldCC + 1) % 16 != cc
  }

  // ---------------------------------------------------------------- what a history of packets amounts to

  /** The packets of `h` on `pid`. */
  function OnPid(h: seq<Packet>, pid: nat): seq<Packet>
  {
    if h == [] then []
    else
      var p := h[|h| - 1];
      OnPid(h[..|h| - 1], pid) + if Pid(p) == pid then [p] else []
  }

  function Unsynced(h: seq<Packet>): nat
  {
    if h == [] then 0
    else Unsynced(h[..|h| - 1]) + if SyncPresent(h[|h| - 1]) then 0 else 1
  }

  /** Continuity errors among the packets of one PID. */
  function ContinuityErrors(l: seq<Packet>): nat
  {
    if |l| < 2 then 0
    else ContinuityErrors(l[..|l| - 1]) + if CCInError(l[|l| - 1], ContinuityCounter(l[|l| - 2])) then 1 else 0
  }

  /** Those that are counted: all but the null PID's. */
  function PidErrors(h: seq<Packet>, pid: nat): nat
  {
    if pid == NULL_PID then 0 else ContinuityErrors(OnPid(h, pid))
  }

  function SumErrors(h: seq<Packet>, pids: seq<nat>): nat
  {
    if pids == [] then 0 else SumErrors(h, pids[..|pids| - 1]) + PidErrors(h, pids[|pids| - 1])
  }

  /** `pids` is all the PIDs of `h`, each once, and perhaps others. */
  ghost predicate Covers(pids: seq<nat>, h: seq<Packet>)
  {
    NoDuplicates(pids) && forall p :: p in h ==> Pid(p) in pids
  }

  /** The stream's error count: unsynced packets and the continuity errors of every PID. */
  function StreamErrors(h: seq<Packet>): nat
  {
    if h == [] then 0
    else
      var init, p := h[..|h| - 1], h[|h| - 1];
      StreamErrors(init) + (if SyncPresent(p) then 0 else 1) + NewError(init, p)
  }

  /** The continuity error, if any, that `p` brings after `h`. */
  function NewError(h: seq<Packet>, p: Packet): (e: nat)
    ensures e <= 1
  {
    var l := OnPid(h, Pid(p));
    if Pid(p) != NULL_PID && l != [] && CCInError(p, ContinuityCounter(l[|l| - 1])) then 1 else 0
  }

  lemma OnPidSnoc(h: seq<Packet>, p: Packet, pid: nat)
    ensures OnPid(h + [p], pid) == OnPid(h, pid) + if Pid(p) == pid then [p] else []
  {
    assert (h + [p])[..|h|] == h;
  }

  lemma PidErrorsSnoc(h: seq<Packet>, p: Packet, pid: nat)
    ensures PidErrors(h + [p], pid) == PidErrors(h, pid) + if Pid(p) == pid then NewError(h, p) else 0
  {
    OnPidSnoc(h, p, pid);
    var l0 := OnPid(h, pid);
    if Pid(p) == pid {
      var l := l0 + [p];
      assert l[..|l| - 1] == l0;
      if l0 != [] { assert l[|l| - 2] == l0[|l0| - 1]; }
    } else {
      assert l0 + [] == l0;
    }
  }

  lemma {:induction false} SumErrorsSnoc(h: seq<Packet>, p: Packet, pids: seq<nat>)
    requires NoDuplicates(pids)
    ensures SumErrors(h + [p], pids) == SumErrors(h, pids) + if Pid(p) in pids then NewError(h, p) else 0
  {
    if pids != [] {
      var init, last := pids[..|pids| - 1], pids[|pids| - 1];
      SumErrorsSnoc(h, p, init);
      PidErrorsSnoc(h, p, last);
      assert pids == init + [last];
      if Pid(p) in init {
        var i :| 0 <= i < |init| && init[i] == Pid(p);
        assert pids[i] != pids[|pids| - 1];
      }
    }
  }

  lemma {:induction false} SumErrorsEmpty(pids: seq<nat>)
    ensures SumErrors([], pids) == 0
  {
    if pids != [] { SumErrorsEmpty(pids[..|pids| - 1]); }
  }

  /** Nothing is counted twice and nothing is missed: the total is the unsynced packets plus the PIDs' own errors. */
  lemma {:induction false} TotalIsSum(h: seq<Packet>, pids: seq<nat>)
    requires Covers(pids, h)
    ensures StreamErrors(h) == Unsynced(h) + SumErrors(h, pids)
  {
    if h == [] {
      SumErrorsEmpty(pids);
    } else {
      var init, p := h[..|h| - 1], h[|h| - 1];
      assert h == init + [p];
      TotalIsSum(init, pids);
      SumErrorsSnoc(init, p, pids);
    }
  }

  // ---------------------------------------------------------------- continuity checking is exact

  /** The low bit of adaptation_field_control: the packet carries payload. */
  predicate HasPayload(p: Packet) { p[3] / 0x10 % 2 == 1 }

  /**
   * The numbers of the packets that arrived: the counter is the number modulo 16. A packet with payload is numbered one
   * above the payload packet sent before it, a packet without repeats that one's number, and so does a duplicate.
   */
  ghost predicate ArrivedAs(l: seq<Packet>, sent: seq<int>)
  {
    |l| == |sent| && forall i :: 0 <= i < |l| ==> ContinuityCounter(l[i]) == sent[i] % 16
  }

  /**
   * A step of `d` from one number to the next shows: it is not one, nor none to a packet without payload, modulo
   * 16.
   */
  predicate Shows(d: int, payload: bool)
  {
    d % 16 != 1 && (payload || d % 16 != 0)
  }

  function VisibleGaps(l: seq<Packet>, sent: seq<int>): nat
    requires |l| == |sent|
  {
    if |l| < 2 then 0
    else
      var n := |l| - 1;
      VisibleGaps(l[..n], sent[..n]) + if Shows(sent[n] - sent[n - 1], HasPayload(l[n])) then 1 else 0
  }

  lemma StepModulo16(a: int, b: int)
    ensures (a % 16 + 1) % 16 == b % 16 <==> (b - a) % 16 == 1
    ensures a % 16 == b % 16 <==> (b - a) % 16 == 0
  {
    var r, r', k := a % 16, b % 16, b / 16 - a / 16;
    assert b - a == 16 * k + (r' - r);
  }

  lemma PayloadBit(p: Packet)
    ensures HasPayload(p) <==> AdaptionFieldControl(p) in {1, 3}
    ensures !HasPayload(p) <==> AdaptionFieldControl(p) in {0, 2}
  {
  }

  /** Whatever was lost, doubled or swapped, with payload or without: the errors counted are the steps that show. */
  lemma {:induction false} ErrorsAreGaps(l: seq<Packet>, sent: seq<int>)
    requires ArrivedAs(l, sent)
    ensures ContinuityErrors(l) == VisibleGaps(l, sent)
  {
    hide AdaptionFieldControl, ContinuityCounter, HasPayload;
    if |l| >= 2 {
      var n := |l| - 1;
      ErrorsAreGaps(l[..n], sent[..n]);
      StepModulo16(sent[n - 1], sent[n]);
      PayloadBit(l[n]);
    }
  }

  /** Each packet with payload has the next number, each without the same one. */
  ghost predicate NothingLost(l: seq<Packet>, sent: seq<int>)
    requires |l| == |sent|
  {
    forall i :: 1 <= i < |l| ==> sent[i] == sent[i - 1] + if HasPayload(l[i]) then 1 else 0
  }

  lemma {:induction false} NothingLostNoErrors(l: seq<Packet>, sent: seq<int>)
    requires ArrivedAs(l, sent) && NothingLost(l, sent)
    ensures ContinuityErrors(l) == 0
  {
    hide ContinuityErrors, ContinuityCounter, HasPayload;
    ErrorsAreGaps(l, sent);
    NoneVisible(l, sent);
  }

  lemma {:induction false} NoneVisible(l: seq<Packet>, sent: seq<int>)
    requires |l| == |sent| && NothingLost(l, sent)
    ensures VisibleGaps(l, sent) == 0
  {
    hide HasPayload;
    if |l| >= 2 {
      NoneVisible(l[..|l| - 1], sent[..|l| - 1]);
    }
  }

  /** Every PID but 8191 is counted by the steps that show among its packets. */
  lemma CountedPids(h: seq<Packet>, pid: nat, sent: seq<int>)
    requires ArrivedAs(OnPid(h, pid), sent)
    ensures PidErrors(h, pid) == if pid == 8191 then 0 else VisibleGaps(OnPid(h, pid), sent)
  {
    ErrorsAreGaps(OnPid(h, pid), sent);
  }

  /** A duplicate of a packet with payload counts as an error, though section 2.4.3.3 of ISO/IEC 13818-1 allows it. */
  lemma DuplicateCounts(p: Packet)
    requires HasPayload(p)
    ensures ContinuityErrors([p, p]) == 1
  {
    hide ContinuityErrors, ContinuityCounter;
    var c := ContinuityCounter(p);
    CounterBelow(p);
    ErrorsAreGaps([p, p], [c, c]);
    assert [p, p][..1] == [p] && [c, c][..1] == [c];
    assert VisibleGaps([p], [c]) == 0;
  }

  lemma CounterBelow(p: Packet)
    ensures ContinuityCounter(p) == ContinuityCounter(p) % 16
  {
  }

  // ---------------------------------------------------------------- the code

  datatype PidStatistics = PidStatistics(packetCount: nat, lastCC: nat, ccErrors: nat, hasPCR: bool)

  /** The counters of one PID after the history `h`. */
  ghost predicate Records(s: PidStatistics, h: seq<Packet>, pid: nat)
  {
    var l := OnPid(h, pid);
    && s.packetCount == |l|
    && s.lastCC == (if l == [] then 0 else ContinuityCounter(l[|l| - 1]))
    && s.ccErrors == PidErrors(h, pid)
  }

  lemma RecordsSnoc(s: PidStatistics, h: seq<Packet>, p: Packet, pid: nat)
    requires Records(s, h, pid)
    ensures Pid(p) != pid ==> Records(s, h + [p], pid)
    ensures Pid(p) == pid ==>
      Records(s.(packetCount := s.packetCount + 1, lastCC := ContinuityCounter(p),
                 ccErrors := s.ccErrors + NewError(h, p)), h + [p], pid)
    ensures Pid(p) == pid ==>
      (NewError(h, p) == 1 <==> CCInError(p, s.lastCC) && s.packetCount + 1 > 1 && pid != NULL_PID)
  {
    OnPidSnoc(h, p, pid);
    PidErrorsSnoc(h, p, pid);
  }

  ghost predicate AllRecord(pids: map<nat, PidStatistics>, h: seq<Packet>)
  {
    && (forall p :: p in pids ==> Records(pids[p], h, p))
    && (forall p :: p in h ==> Pid(p) in pids)
  }

  lemma AllRecordNew(pids: map<nat, PidStatistics>, h: seq<Packet>, pid: nat)
    requires AllRecord(pids, h) && pid !in pids
    ensures AllRecord(pids[pid := PidStatistics(0, 0, 0, false)], h)
  {
    NotSeen(h, pid);
  }

  lemma AllRecordMarked(pids: map<nat, PidStatistics>, h: seq<Packet>, pid: nat)
    requires AllRecord(pids, h) && pid in pids
    ensures AllRecord(pids[pid := pids[pid].(hasPCR := true)], h)
  {
  }

  lemma AllRecordSnoc(pids: map<nat, PidStatistics>, h: seq<Packet>, p: Packet)
    requires AllRecord(pids, h) && Pid(p) in pids
    ensures var s, e := pids[Pid(p)], NewError(h, p);
      && (e == 1 <==> CCInError(p, s.lastCC) && s.packetCount + 1 > 1 && Pid(p) != NULL_PID)
      && AllRecord(pids[Pid(p) := s.(packetCount := s.packetCount + 1, ccErrors := s.ccErrors + e,
                                     lastCC := ContinuityCounter(p))], h + [p])
  {
    hide Records, OnPid, Pid, CCInError, ContinuityCounter, NewError;
    forall q | q in pids { RecordsSnoc(pids[q], h, p, q); }
  }

  lemma StreamErrorsSnoc(h: seq<Packet>, p: Packet)
    ensures StreamErrors(h + [p]) == StreamErrors(h) + (if SyncPresent(p) then 0 else 1) + NewError(h, p)
    ensures Unsynced(h + [p]) == Unsynced(h) + if SyncPresent(p) then 0 else 1
  {
    assert (h + [p])[..|h|] == h;
  }

  class StreamStatistics {
    var packetCount: nat
    var ccErrors: nat
    /** The non-null entries of internal_pids. */
    var pids: map<nat, PidStatistics>
    var pidArray: seq<nat>
    /** Every packet seen, in order. */
    ghost var history: seq<Packet>

    ghost predicate TablesAgree()
      reads this`pids, this`pidArray
    {
      && NoDuplicates(pidArray)
      && (forall p :: p in pidArray <==> p in pids)
      && (forall p :: p in pids ==> p < MAX_PID)
    }

    ghost predicate CountersRecord(h: seq<Packet>)
      reads this`pids
    {
      AllRecord(pids, h)
    }

    ghost predicate Valid()
      reads this
    {
      && TablesAgree()
      && CountersRecord(history)
      && ccErrors == StreamErrors(history)
      && packetCount == |history| - Unsynced(history)
    }

    constructor ()
      ensures Valid() && history == [] && pids == map[]
    {
      packetCount, ccErrors := 0, 0;
      pids, pidArray := map[], [];
      history := [];
    }

    /** Room for a new PID never runs out. */
    method PidArrayAdd(pidNr: nat)
      requires TablesAgree() && pidNr < MAX_PID && pidNr !in pids
      modifies this`pidArray
      ensures pidArray == old(pidArray) + [pidNr] && NoDuplicates(pidArray)
      ensures |pidArray| <= MAX_PID
    {
      DistinctBelow(pidArray + [pidNr], MAX_PID);
      assert |pidArray| < MAX_PID;
      pidArray := pidArray + [pidNr];
    }

    /** ltntstools_pid_stats_pid_set_contains_pcr, without the bitrate calculator. */
    method SetContainsPcr(pidnr: nat)
      requires Valid()
      modifies this
      ensures Valid() && history == old(history) && ccErrors == old(ccErrors)
      ensures pids.Keys == old(pids.Keys) + {pidnr % MAX_PID} && pids[pidnr % MAX_PID].hasPCR
    {
      hide StreamErrors, Unsynced, AllRecord;
      var nr := pidnr % MAX_PID;
      if nr !in pids {
        AllRecordNew(pids, history, nr);
        PidArrayAdd(nr);
        pids := pids[nr := PidStatistics(0, 0, 0, false)];
      }
      AllRecordMarked(pids, history, nr);
      pids := pids[nr := pids[nr].(hasPCR := true)];
    }

    /** The two loops over the packets of one call. */
    method Update(pkts: seq<Packet>)
      requires Valid()
      modifies this
      ensures Valid() && history == old(history) + pkts && ccErrors == StreamErrors(history)
    {
      hide StreamErrors, Unsynced, TablesAgree, CountersRecord, SyncPresent;
      assert history + pkts[..0] == history;
      for i := 0 to |pkts|
        invariant TablesAgree() && CountersRecord(history) && history == old(history)
        invariant ccErrors == StreamErrors(history) + Unsynced(history + pkts[..i]) - Unsynced(history)
        invariant packetCount == |history| + i - Unsynced(history + pkts[..i])
      {
        assert history + pkts[..i + 1] == history + pkts[..i] + [pkts[i]];
        StreamErrorsSnoc(history + pkts[..i], pkts[i]);
        if SyncPresent(pkts[i]) {
          packetCount := packetCount + 1;
        } else {
          ccErrors := ccErrors + 1;
        }
      }
      assert pkts[..|pkts|] == pkts;
      for i := 0 to |pkts|
        invariant history == old(history) && TablesAgree() && CountersRecord(history + pkts[..i])
        invariant ccErrors == StreamErrors(history + pkts[..i]) + Unsynced(history + pkts) - Unsynced(history
            + pkts[..i])
        invariant packetCount == |history| + |pkts| - Unsynced(history + pkts)
      {
        assert history + pkts[..i + 1] == history + pkts[..i] + [pkts[i]];
        StreamErrorsSnoc(history + pkts[..i], pkts[i]);
        CountPacket(pkts[i], history + pkts[..i]);
      }
      assert history + pkts[..|pkts|] == history + pkts;
      history := history + pkts;
    }

    /** The body of the second loop. */
    method CountPacket(p: Packet, ghost h: seq<Packet>)
      requires TablesAgree() && CountersRecord(h)
      modifies this
      ensures history == old(history) && packetCount == old(packetCount)
      ensures TablesAgree() && CountersRecord(h + [p])
      ensures ccErrors == old(ccErrors) + NewError(h, p)
    {
      hide AllRecord, Pid, CCInError, ContinuityCounter, NewError, NoDuplicates;
      var pidnr := Pid(p);
      if pidnr !in pids {
        AllRecordNew(pids, h, pidnr);
        PidArrayAdd(pidnr);
        pids := pids[pidnr := PidStatistics(0, 0, 0, false)];
      }
      AllRecordSnoc(pids, h, p);
      var pid := pids[pidnr];
      pid := pid.(packetCount := pid.packetCount + 1);
      if CCInError(p, pid.lastCC) {
        if pid.packetCount > 1 && pidnr != NULL_PID {
          pid := pid.(ccErrors := pid.ccErrors + 1);
          ccErrors := ccErrors + 1;
        }
      }
      pids := pids[pidnr := pid.(lastCC := ContinuityCounter(p))];
    }

    /** In every state: the total is the sum, and the table of PIDs never outgrows its bound. */
    lemma Totals()
      requires Valid()
      ensures ccErrors == Unsynced(history) + SumErrors(history, pidArray)
      ensures |pidArray| <= MAX_PID
    {
      TotalIsSum(history, pidArray);
      DistinctBelow(pidArray, MAX_PID);
    }
  }

  lemma {:induction false} NotSeen(h: seq<Packet>, pid: nat)
    requires forall p :: p in h ==> Pid(p) != pid
    ensures OnPid(h, pid) == []
  {
    if h != [] { NotSeen(h[..|h| - 1], pid); }
  }
}
