/** Every chunk the smoother's intake ever queues, and the PCR on it, in terms of the packets written. */
module Stamps {
  import opened Bytes
  import opened CArith
  import opened Interpolation
  import opened ScrClock
  import opened SmootherEndToEnd
  import opened SmootherIntake
  import opened SmootherIntakeSafety
  import opened SmootherProtocol
  import opened TsPacket

  /** The packets from a PCR of the PID, packet `a`, up to the next one. */
  function Between(input: Bytes, pid: nat, a: nat): Bytes
    requires a < Packets(input)
  {
    input[PACKET_SIZE * a..PACKET_SIZE * NextMark(input, pid, a + 1)]
  }

  /** Packet `a` of the input has a PCR of the PID, and so has a later one. */
  predicate IsInterval(input: Bytes, pid: nat, a: nat)
  {
    a < Packets(input) && IsMark(input, pid, a) && NextMark(input, pid, a + 1) < Packets(input)
  }

  function FromPcr(input: Bytes, pid: nat, a: nat): nat
    requires IsInterval(input, pid, a)
  {
    PcrAt(input, a)
  }

  function ToPcr(input: Bytes, pid: nat, a: nat): nat
    requires IsInterval(input, pid, a)
  {
    PcrAt(input, NextMark(input, pid, a + 1))
  }

  /** The chunks of an interval; `last` is the interval recorded before it, used after a jump. */
  function ChunksOf(input: Bytes, pid: nat, a: nat, last: int): seq<Chunk>
    requires IsInterval(input, pid, a)
  {
    Cut(Between(input, pid, a), FromPcr(input, pid, a),
        PerPacket(FromPcr(input, pid, a), ToPcr(input, pid, a), NextMark(input, pid, a + 1) - a, last))
  }

  /** The chunk is number `k` of the interval that starts at packet `a`. */
  predicate IsChunkOf(c: Chunk, input: Bytes, pid: nat, a: nat, last: int, k: nat)
  {
    IsInterval(input, pid, a) && k < |ChunksOf(input, pid, a, last)| && c == ChunksOf(input, pid, a, last)[k]
  }

  ghost predicate Stamped(c: Chunk, input: Bytes, pid: nat)
  {
    exists a: nat, last: int, k: nat :: IsChunkOf(c, input, pid, a, last, k)
  }

  ghost predicate AllStamped(calls: seq<Call>, input: Bytes, pid: nat)
  {
    forall i :: 0 <= i < |calls| ==> calls[i].Write2? ==> Stamped(calls[i].chunk, input, pid)
  }

  /** More input leaves the intervals where they are. */
  lemma IntervalJoin(input: Bytes, more: Bytes, pid: nat, a: nat, last: int)
    requires |input| % PACKET_SIZE == 0 && IsInterval(input, pid, a)
    ensures IsInterval(input + more, pid, a) && ChunksOf(input + more, pid, a, last) == ChunksOf(input, pid, a, last)
  {
    hide Cut, Scr, Pid, PerPacket;
    var b := NextMark(input, pid, a + 1);
    MarkJoin(input, more, pid, a + 1);
    SamePacket(input, more, pid, a);
    SamePacket(input, more, pid, b);
    assert (input + more)[PACKET_SIZE * a..PACKET_SIZE * b] == input[PACKET_SIZE * a..PACKET_SIZE * b];
  }

  lemma StampedJoin(calls: seq<Call>, input: Bytes, more: Bytes, pid: nat)
    requires |input| % PACKET_SIZE == 0 && AllStamped(calls, input, pid)
    ensures AllStamped(calls, input + more, pid)
  {
    hide IsInterval, ChunksOf;
    forall i | 0 <= i < |calls| && calls[i].Write2? ensures Stamped(calls[i].chunk, input + more, pid) {
      var a: nat, last: int, k: nat :| IsChunkOf(calls[i].chunk, input, pid, a, last, k);
      IntervalJoin(input, more, pid, a, last);
      assert IsChunkOf(calls[i].chunk, input + more, pid, a, last, k);
    }
  }

  /** The interval a pass takes, in the array that is the end of the input. */
  lemma PassInterval(s: Intake, pid: nat, input: Bytes, m: nat)
    requires |input| % PACKET_SIZE == 0 && m <= Packets(input) && s.ba == input[PACKET_SIZE * m..]
        && HasInterval(s, pid)
    ensures IsInterval(input, pid, m + First(s, pid))
    ensures ChunksOf(input, pid, m + First(s, pid), s.intervalLast) == PassChunks(s, pid)
  {
    hide Cut, Scr, Pid, PacketAt, PerPacket;
    var a, b := First(s, pid), Second(s, pid);
    RestNextMark(input, pid, m, m + a + 1);
    SameRest(input, pid, m, a);
    SameRest(input, pid, m, b);
    assert input[PACKET_SIZE * m..][PACKET_SIZE * a..PACKET_SIZE * b] == input[PACKET_SIZE * (m
        + a)..PACKET_SIZE * (m + b)];
  }

  lemma StampedPass(s: Intake, pid: nat, now: int, input: Bytes, m: nat)
    requires |input| % PACKET_SIZE == 0 && m <= Packets(input) && s.ba == input[PACKET_SIZE * m..]
        && HasInterval(s, pid)
    requires AllStamped(s.calls, input, pid)
    ensures AllStamped(Pass(s, pid, now).calls, input, pid)
  {
    hide Cut, Stamped, First, PassChunks, HasInterval, ChunksOf, IsInterval, PassTail, Writes;
    var chunks, tail, t := PassChunks(s, pid), PassTail(s, pid, now), Pass(s, pid, now);
    PassInterval(s, pid, input, m);
    TailWritesNothing(s, pid, now);
    forall i | 0 <= i < |t.calls| && t.calls[i].Write2? ensures Stamped(t.calls[i].chunk, input, pid) {
      if i < |s.calls| {
        PassKeeps(s, pid, now, i);
      } else {
        CallsParts(s.calls, chunks, tail, i);
        ChunkStamped(chunks, i - |s.calls|, input, pid, m + First(s, pid), s.intervalLast);
      }
    }
  }

  lemma TailWritesNothing(s: Intake, pid: nat, now: int)
    requires HasInterval(s, pid)
    ensures forall i :: 0 <= i < |PassTail(s, pid, now)| ==> !PassTail(s, pid, now)[i].Write2?
  {
    hide PassPerPacket, IntervalTicks, HasInterval;
  }

  lemma ChunkStamped(chunks: seq<Chunk>, k: int, input: Bytes, pid: nat, a: nat, last: int)
    requires IsInterval(input, pid, a) && chunks == ChunksOf(input, pid, a, last) && 0 <= k
    ensures k < |chunks| ==> Stamped(chunks[k], input, pid)
  {
    hide IsInterval, ChunksOf;
    if k < |chunks| {
      assert IsChunkOf(chunks[k], input, pid, a, last, k);
    }
  }

  lemma {:induction false} StampedDrained(s: Intake, pid: nat, now: int, input: Bytes)
    requires Kept(s, pid, input) && AllStamped(s.calls, input, pid)
    ensures AllStamped(Drained(s, pid, now).calls, input, pid)
    decreases |s.ba|
  {
    hide Kept, Pass, HasThird, AllStamped, HasInterval;
    if HasInterval(s, pid) {
      WholeInput(s, pid, input);
      var m := KeptRest(s, pid, input);
      StampedPass(s, pid, now, input, m);
      KeptPass(s, pid, now, input);
      if HasThird(s, pid) {
        PassShrinks(s, pid, now);
        StampedDrained(Pass(s, pid, now), pid, now, input);
      }
    }
  }

  /**
   * Whatever the writes, every chunk that reaches the queue is a chunk of an interval between two PCRs of the
   * input.
   */
  lemma {:induction false} EveryChunkIsOfAnInterval(ws: seq<Input>, pid: nat, start: int)
    requires AllAligned(ws)
    ensures AllStamped(AfterWrites(ws, pid, start).calls, Received(ws), pid)
  {
    hide Stamped, Drained, Kept;
    if ws != [] {
      var init, last := ws[..|ws| - 1], ws[|ws| - 1];
      var s := AfterWrites(init, pid, start);
      assert Aligned(last.buf);
      EveryChunkIsOfAnInterval(init, pid, start);
      NothingDropped(init, pid, start);
      WholeInput(s, pid, Received(init));
      KeptJoin(s, pid, Received(init), last.buf);
      StampedJoin(s.calls, Received(init), last.buf, pid);
      StampedDrained(s.(ba := s.ba + last.buf), pid, last.now, Received(ws));
    }
  }

  /**
   * So every stamp interpolates: chunk `k` of an interval of 0 to 15 seconds starts at its packet 7k, and its stamp,
   * unwrapped, never passes the next PCR and trails exact interpolation by less than as many ticks as it has packets.
   */
  lemma EveryStampInterpolates(ws: seq<Input>, pid: nat, start: int, i: nat) returns (a: nat, last: int, k: nat)
    requires AllAligned(ws)
    requires i < |AfterWrites(ws, pid, start).calls| && AfterWrites(ws, pid, start).calls[i].Write2?
    ensures var c, input := AfterWrites(ws, pid, start).calls[i].chunk, Received(ws);
      && IsChunkOf(c, input, pid, a, last, k)
      && var from, interval, n := FromPcr(input, pid, a), ScrDiff(FromPcr(input, pid, a), ToPcr(input, pid, a)),
          NextMark(input, pid, a + 1) - a;
        0 <= interval <= LONGEST_INTERVAL ==>
          var ahead := Unwrapped(from, c.pcr) - from;
          7 * k < n && 0 <= ahead <= interval && n * ahead <= interval * (7 * k) < n * ahead + n * n
  {
    hide AfterWrites, Received, IsInterval, Cut, NextMark, Scr, Pid, PacketAt;
    EveryChunkIsOfAnInterval(ws, pid, start);
    var c, input := AfterWrites(ws, pid, start).calls[i].chunk, Received(ws);
    a, last, k :| IsChunkOf(c, input, pid, a, last, k);
    ChunkInterpolates(c, input, pid, a, last, k);
  }

  lemma PcrBelow(p: Packet)
    ensures Scr(p).Some? ==> Scr(p).value < 2 * TsPacket.MAX_SCR_VALUE - LONGEST_INTERVAL
  {
  }

  lemma ChunkInterpolates(c: Chunk, input: Bytes, pid: nat, a: nat, last: int, k: nat)
    requires IsChunkOf(c, input, pid, a, last, k)
    ensures var from, interval, n := FromPcr(input, pid, a), ScrDiff(FromPcr(input, pid, a), ToPcr(input, pid, a)),
        NextMark(input, pid, a + 1) - a;
      0 <= interval <= LONGEST_INTERVAL ==>
        var ahead := Unwrapped(from, c.pcr) - from;
        7 * k < n && 0 <= ahead <= interval && n * ahead <= interval * (7 * k) < n * ahead + n * n
  {
    hide Cut, Scr, Pid, PacketAt, ScrDiff, Unwrapped, NextMark;
    var b := NextMark(input, pid, a + 1);
    var from, to, bytes := FromPcr(input, pid, a), ToPcr(input, pid, a), Between(input, pid, a);
    PcrBelow(PacketAt(input, a));
    WholePackets(b - a);
    if 0 <= ScrDiff(from, to) <= LONGEST_INTERVAL {
      assert PerPacket(from, to, b - a, last) == PerPacket(from, to, Packets(bytes), 0);
      StampsInterpolate(bytes, from, to, k);
      StampUnwrapped(bytes, from, to, k);
    }
  }
}
