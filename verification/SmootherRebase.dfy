/** When the smoother's intake asks for a new timebase, and what it does about a jump of the clock. */
module SmootherRebase {
  import opened Bytes
  import opened CArith
  import opened Interpolation
  import opened ScrClock
  import opened SmootherEndToEnd
  import opened SmootherIntake
  import opened SmootherIntakeSafety
  import opened SmootherProtocol
  import opened TsPacket

  const FIFTEEN_SECONDS := 405000000

  function Rebases(calls: seq<Call>): nat
  {
    if calls == [] then 0 else Rebases(calls[..|calls| - 1]) + if calls[|calls| - 1].Rebase? then 1 else 0
  }

  lemma {:induction false} RebasesJoin(a: seq<Call>, b: seq<Call>)
    ensures Rebases(a + b) == Rebases(a) + Rebases(b)
  {
    if b == [] {
      assert a + b == a;
    } else {
      var init := b[..|b| - 1];
      assert (a + b)[..|a + b| - 1] == a + init;
      RebasesJoin(a, init);
    }
  }

  lemma {:induction false} WritesNone(calls: seq<Call>)
    requires forall i :: 0 <= i < |calls| ==> calls[i].Write2?
    ensures Rebases(calls) == 0
  {
    if calls != [] { WritesNone(calls[..|calls| - 1]); }
  }

  lemma TailRebases(tail: seq<Call>, ticks: int)
    requires tail == [Call.RecordInterval(ticks)] || tail == [Call.RecordInterval(ticks), Call.Rebase]
    ensures Rebases(tail) == |tail| - 1
  {
    assert tail[..1] == [Call.RecordInterval(ticks)] && tail[..1][..0] == [];
    assert Rebases(tail[..1]) == 0;
  }

  // ---------------------------------------------------------------- one pass

  /**
   * A pass over an interval of more than fifteen seconds goes on with the ticks per packet recorded before, and asks
   * for a new timebase; over any other one the ticks are those of the interval, and it asks ten seconds after it last
   * did.
   */
  lemma PassTiming(s: Intake, pid: nat, now: int)
    requires HasInterval(s, pid)
    ensures var t, ticks, n := Pass(s, pid, now), IntervalTicks(s, pid), Second(s, pid) - First(s, pid);
      && t.intervalLast == PassPerPacket(s, pid)
      && (ticks > FIFTEEN_SECONDS ==> PassPerPacket(s, pid) == s.intervalLast)
      && (0 <= ticks <= FIFTEEN_SECONDS ==> n * PassPerPacket(s, pid) <= ticks < n * PassPerPacket(s, pid) + n)
      && t.lastReset == (if now >= s.lastReset + 10 then now else s.lastReset)
      && Rebases(t.calls) == Rebases(s.calls) + if now >= s.lastReset + 10 || ticks > FIFTEEN_SECONDS then 1 else 0
  {
    hide First, Second, HasInterval, Cut, Writes, IntervalTicks, Rebases;
    var writes, tail := Writes(PassChunks(s, pid)), PassTail(s, pid, now);
    RebasesJoin(s.calls + writes, tail);
    RebasesJoin(s.calls, writes);
    AllWrites(s, pid);
    WritesNone(writes);
    TailRebases(tail, PassPerPacket(s, pid));
    Ticks(s, pid);
  }

  lemma AllWrites(s: Intake, pid: nat)
    requires HasInterval(s, pid)
    ensures forall i :: 0 <= i < |Writes(PassChunks(s, pid))| ==> Writes(PassChunks(s, pid))[i].Write2?
  {
    hide PassChunks;
  }

  lemma Ticks(s: Intake, pid: nat)
    requires HasInterval(s, pid)
    ensures var ticks, n := IntervalTicks(s, pid), Second(s, pid) - First(s, pid);
      && (ticks > FIFTEEN_SECONDS ==> PassPerPacket(s, pid) == s.intervalLast)
      && (0 <= ticks <= FIFTEEN_SECONDS ==> n * PassPerPacket(s, pid) <= ticks < n * PassPerPacket(s, pid) + n)
  {
    hide First, Second, HasInterval, ScrDiff;
    var ticks, n := IntervalTicks(s, pid), Second(s, pid) - First(s, pid);
    if 0 <= ticks <= FIFTEEN_SECONDS {
      Euclid(ticks, n);
    }
  }

  // ---------------------------------------------------------------- a run without jumps

  predicate NoJumpFrom(buf: Bytes, pid: nat, i: nat)
    requires i < Packets(buf) && IsMark(buf, pid, i)
  {
    var j := NextMark(buf, pid, i + 1);
    j < Packets(buf) ==> ScrDiff(PcrAt(buf, i), PcrAt(buf, j)) <= FIFTEEN_SECONDS
  }

  /** From each PCR of the PID to the next the clock does not go on by more than fifteen seconds. */
  predicate NoJump(buf: Bytes, pid: nat)
  {
    forall i :: 0 <= i < Packets(buf) && IsMark(buf, pid, i) ==> NoJumpFrom(buf, pid, i)
  }

  lemma NoJumpRest(buf: Bytes, pid: nat, k: nat)
    requires |buf| % PACKET_SIZE == 0 && k <= Packets(buf) && NoJump(buf, pid)
    ensures NoJump(buf[PACKET_SIZE * k..], pid)
  {
    hide Scr, Pid, IsMark, ScrDiff, NextMark;
    var rest := buf[PACKET_SIZE * k..];
    forall i | 0 <= i < Packets(rest) && IsMark(rest, pid, i) ensures NoJumpFrom(rest, pid, i) {
      SameRest(buf, pid, k, i);
      RestNextMark(buf, pid, k, k + i + 1);
      var j := NextMark(rest, pid, i + 1);
      if j < Packets(rest) {
        SameRest(buf, pid, k, j);
        assert NoJumpFrom(buf, pid, k + i);
      }
    }
  }

  lemma FirstNoJump(s: Intake, pid: nat)
    requires HasInterval(s, pid) && NoJump(s.ba, pid)
    ensures IntervalTicks(s, pid) <= FIFTEEN_SECONDS
  {
    hide NextMark, IsMark, ScrDiff;
    assert NoJumpFrom(s.ba, pid, First(s, pid));
  }

  lemma {:induction false} DrainedRebases(s: Intake, pid: nat, now: int)
    requires |s.ba| % PACKET_SIZE == 0 && NoJump(s.ba, pid)
    ensures var t, due := Drained(s, pid, now), HasInterval(s, pid) && now >= s.lastReset + 10;
      t.lastReset == (if due then now else s.lastReset) && Rebases(t.calls) == Rebases(s.calls) + if due then 1 else 0
    decreases |s.ba|
  {
    hide HasThird, NoJump, HasInterval, First, Second, NextMark, Pass, Rebases;
    if HasInterval(s, pid) {
      FirstNoJump(s, pid);
      PassTiming(s, pid, now);
      if HasThird(s, pid) {
        PassShrinks(s, pid, now);
        PassWhole(s, pid, now);
        NoJumpRest(s.ba, pid, Second(s, pid));
        PassRest(s, pid, now);
        DrainedRebases(Pass(s, pid, now), pid, now);
      }
    }
  }

  lemma PassRest(s: Intake, pid: nat, now: int)
    requires HasInterval(s, pid)
    ensures Pass(s, pid, now).ba == s.ba[PACKET_SIZE * Second(s, pid)..]
  {
  }

  /**
   * Of input without such jumps, whatever the writes: a write that finds an interval asks for a new timebase if and
   * only if ten seconds have gone by since one last did, and then once.
   */
  lemma RebasedEveryTenSeconds(ws: seq<Input>, pid: nat, start: int)
    requires AllAligned(ws) && ws != [] && NoJump(Received(ws), pid)
    ensures var s, last := AfterWrites(ws[..|ws| - 1], pid, start), ws[|ws| - 1];
      var t, due := AfterWrites(ws, pid, start), HasInterval(s.(ba := s.ba + last.buf), pid)
          && last.now >= s.lastReset + 10;
      t.lastReset == (if due then last.now else s.lastReset)
          && Rebases(t.calls) == Rebases(s.calls) + if due then 1 else 0
  {
    hide NoJump, Kept, Drained, HasInterval, Rebases;
    var init, last := ws[..|ws| - 1], ws[|ws| - 1];
    var s := AfterWrites(init, pid, start);
    var more := s.(ba := s.ba + last.buf);
    assert Aligned(last.buf);
    NothingDropped(init, pid, start);
    WholeInput(s, pid, Received(init));
    KeptJoin(s, pid, Received(init), last.buf);
    WholeInput(more, pid, Received(ws));
    var k := KeptRest(more, pid, Received(ws));
    NoJumpRest(Received(ws), pid, k);
    DrainedRebases(more, pid, last.now);
  }
}
