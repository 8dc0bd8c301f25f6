/** The PCRs the smoother's callback is given, one for each packet, in terms of the packets written. */
module PacketStamps {
  import opened Bytes
  import opened CArith
  import opened Interpolation
  import opened ScrClock
  import opened SmootherEndToEnd
  import opened SmootherIntake
  import opened SmootherIntakeSafety
  import opened SmootherProtocol
  import opened SmootherSafety
  import opened Stamps
  import opened TsPacket

  // ---------------------------------------------------------------- what becomes of the chunks

  function Chunks(items: seq<Item>): (chunks: seq<Chunk>)
    ensures |chunks| == |items|
  {
    seq(|items|, i requires 0 <= i < |items| => ChunkOf(items[i]))
  }

  function InHandChunk(s: Smoothing): seq<Chunk>
  {
    match s.producer
    case Idle => []
    case Taken(_, chunk) => [chunk]
    case Filled(item) => [ChunkOf(item)]
  }

  /** The chunks in a list of calls. */
  function Written(calls: seq<Call>): seq<Chunk>
  {
    if calls == [] then []
    else
      var last := calls[|calls| - 1];
      Written(calls[..|calls| - 1]) + if last.Write2? then [last.chunk] else []
  }

  lemma {:induction false} WrittenAppend(a: seq<Call>, b: seq<Call>)
    ensures Written(a + b) == Written(a) + Written(b)
  {
    if b == [] {
      assert a + b == a;
    } else {
      var init := b[..|b| - 1];
      assert (a + b)[..|a + b| - 1] == a + init;
      WrittenAppend(a, init);
    }
  }

  lemma WrittenOne(call: Call)
    ensures Written([call]) == if call.Write2? then [call.chunk] else []
    ensures Written([]) == []
  {
    assert [call][..0] == [];
  }

  lemma {:induction false} WrittenIs(calls: seq<Call>, j: nat) returns (i: nat)
    requires j < |Written(calls)|
    ensures i < |calls| && calls[i].Write2? && calls[i].chunk == Written(calls)[j]
  {
    var n := |calls| - 1;
    if j < |Written(calls[..n])| {
      i := WrittenIs(calls[..n], j);
    } else {
      i := n;
    }
  }

  lemma ChunksSnoc(items: seq<Item>, item: Item)
    ensures Chunks(items + [item]) == Chunks(items) + [ChunkOf(item)]
  {
  }

  /** Emitted, grabbed, queued and in hand are the chunks given; a step adds the one it takes in hand. */
  lemma ChunksStep(s: Smoothing, a: Action)
    requires Enabled(s, a) && Paced(s)
    ensures Chunks(Line(Do(s, a))) + InHandChunk(Do(s, a)) == Chunks(Line(s)) + InHandChunk(s) + Written(CallOf(a))
  {
    hide Line, DuePrefix, Chunks, Written, Do;
    LineStep(s, a);
    HandStep(s, a);
    if a.Queue? {
      ChunksSnoc(Line(s), Rescheduled(s, s.producer.item.(seqno := s.seqno)));
    }
  }

  /** What a step does to what is in hand: Take puts a chunk there, Queue empties it. */
  lemma HandStep(s: Smoothing, a: Action)
    requires Enabled(s, a)
    ensures Written(CallOf(a)) == if a.Take? then [a.chunk] else []
    ensures a.Take? ==> InHandChunk(s) == [] && InHandChunk(Do(s, a)) == [a.chunk]
    ensures a.Queue? ==> s.producer.Filled? && InHandChunk(s) == [ChunkOf(s.producer.item)]
    ensures a.Queue? ==> InHandChunk(Do(s, a)) == []
    ensures !a.Take? && !a.Queue? ==> InHandChunk(Do(s, a)) == InHandChunk(s)
  {
    hide DuePrefix, Rescheduled, Grown;
    match a
    case Take(chunk) => WrittenOne(Write2(chunk));
    case RecordInterval(ticks) => WrittenOne(Call.RecordInterval(ticks));
    case _ => WrittenOne(Call.Rebase);
  }

  lemma {:induction false} ChunksInOrder(s: Smoothing, run: seq<Action>)
    requires Safe(s) && CanRun(s, run)
    ensures var t := After(s, run);
      Chunks(Line(t)) + InHandChunk(t) == Chunks(Line(s)) + InHandChunk(s) + Written(ProducerCalls(run))
    decreases |run|
  {
    hide Do, Enabled, Line, Written, CallOf, InHandChunk, Conserved, Counted, Fifo, Numbered, Paced;
    if run == [] {
      WrittenOne(Call.Rebase);
    } else {
      ChunksStep(s, run[0]);
      SafeStep(s, run[0]);
      ChunksInOrder(Do(s, run[0]), run[1..]);
      WrittenAppend(CallOf(run[0]), ProducerCalls(run[1..]));
    }
  }

  /** The callback gets the intake's chunks, one after another, as they were made. */
  lemma CallbacksAreChunks(items: nat, latency: int, run: seq<Action>)
    requires CanRun(Initial(items, latency), run)
    ensures Chunks(After(Initial(items, latency), run).output) <= Written(ProducerCalls(run))
  {
    hide CanRun, After, Written, ProducerCalls, Conserved, Counted, Fifo, Numbered, Paced;
    var s := Initial(items, latency);
    InitiallySafe(items, latency);
    ChunksInOrder(s, run);
    assert Line(s) == [];
    OutputFirst(After(s, run));
  }

  lemma OutputFirst(t: Smoothing)
    ensures Chunks(t.output) <= Chunks(Line(t)) + InHandChunk(t)
  {
    assert forall i :: 0 <= i < |t.output| ==> Line(t)[i] == t.output[i];
  }

  // ---------------------------------------------------------------- every packet

  /** A PCR `stamp` ticks from the start of an interval of `n` packets suits packet `j` of it. */
  predicate Interpolates(ahead: int, interval: int, n: nat, j: nat)
  {
    j < n && 0 <= ahead <= interval && n * ahead <= interval * j < n * ahead + n * n
  }

  lemma ChunkTicks(c: Chunk, input: Bytes, pid: nat, a: nat, last: int, k: nat)
    requires IsChunkOf(c, input, pid, a, last, k)
    ensures var n := NextMark(input, pid, a + 1) - a;
      && c.intervalPerPacket == PerPacket(FromPcr(input, pid, a), ToPcr(input, pid, a), n, last)
      && 7 * k + Packets(c.buf) <= n
  {
    hide Scr, Pid, PacketAt, NextMark, PerPacket, Cut;
    var b := NextMark(input, pid, a + 1);
    WholePackets(b - a);
    var perPacket := PerPacket(FromPcr(input, pid, a), ToPcr(input, pid, a), b - a, last);
    CutAt(Between(input, pid, a), FromPcr(input, pid, a), perPacket, k);
  }

  /** Packet `m` of chunk `k` is packet 7k + m of its interval, and the PCR it is given suits it. */
  lemma PacketInterpolates(c: Chunk, input: Bytes, pid: nat, a: nat, last: int, k: nat, m: nat)
    requires IsChunkOf(c, input, pid, a, last, k) && m < Packets(c.buf)
    requires 0 <= ScrDiff(FromPcr(input, pid, a), ToPcr(input, pid, a)) <= LONGEST_INTERVAL
    ensures var from := FromPcr(input, pid, a);
      Interpolates(Unwrapped(from, c.pcr) + m * c.intervalPerPacket - from, ScrDiff(from, ToPcr(input, pid, a)),
                   NextMark(input, pid, a + 1) - a, 7 * k + m)
  {
    hide Cut, Scr, Pid, PacketAt, ScrDiff, Unwrapped, NextMark, CDiv;
    var n, bytes := NextMark(input, pid, a + 1) - a, Between(input, pid, a);
    var from, to := FromPcr(input, pid, a), ToPcr(input, pid, a);
    PcrBelow(PacketAt(input, a));
    WholePackets(n);
    ChunkTicks(c, input, pid, a, last, k);
    StampUnwrapped(bytes, from, to, k);
    var p := c.intervalPerPacket;
    assert p * (7 * k) + m * p == p * (7 * k + m);
    Truncation(ScrDiff(from, to), n, 7 * k + m);
  }

  /** The offsets are those of the packets, one after another, and the PIDs theirs. */
  lemma PcrsOfPackets(c: Chunk, m: nat)
    requires m < Packets(c.buf)
    ensures var e := PacketPcrs(c)[m];
      && e.offset == 188 * m && e.offset + 188 <= |c.buf|
      && e.pid == c.buf[e.offset + 1] as int % 32 * 256 + c.buf[e.offset + 2]
  {
    var p := PacketAt(c.buf, m);
    assert p[1] == c.buf[188 * m + 1] && p[2] == c.buf[188 * m + 2];
  }

  /**
   * The PCR given for a packet is on the 27 MHz clock if and only if counting on from the stamp has not passed its
   * wrap.
   */
  lemma PastTheWrap(c: Chunk, m: nat)
    requires m < Packets(c.buf) && c.pcr >= 0 && c.intervalPerPacket >= 0
    ensures PacketPcrs(c)[m].pcr == ScrAdd(c.pcr, m * c.intervalPerPacket)
            <==> c.pcr + m * c.intervalPerPacket <= MAX_SCR_VALUE
  {
    assert m * c.intervalPerPacket >= 0;
  }

  /**
   * The producer makes the intake's calls, the consumer takes its steps in any interleaving, and the callback gets a
   * chunk and a PCR for each of its packets. Each of these packets lies between two PCRs of the PID in the input, and
   * where those are 0 to 15 seconds apart its PCR, unwrapped, does not pass the second and trails exact interpolation
   * by less than as many ticks as there are packets.
   */
  lemma CallbackPcrsInterpolate(ws: seq<Input>, pid: nat, start: int, items: nat, latency: int, run: seq<Action>,
                                rest: seq<Call>, i: nat, m: nat) returns (a: nat, last: int, k: nat)
    requires AllAligned(ws) && CanRun(Initial(items, latency), run)
    requires ProducerCalls(run) + rest == AfterWrites(ws, pid, start).calls
    requires var out := After(Initial(items, latency), run).output; i < |out| && m < Packets(out[i].buf)
    ensures var c, input := ChunkOf(After(Initial(items, latency), run).output[i]), Received(ws);
      && IsChunkOf(c, input, pid, a, last, k)
      && var from, to := FromPcr(input, pid, a), ToPcr(input, pid, a);
         0 <= ScrDiff(from, to) <= LONGEST_INTERVAL ==>
           Interpolates(Unwrapped(from, c.pcr) + PacketPcrs(c)[m].pcr - c.pcr - from, ScrDiff(from, to),
                        NextMark(input, pid, a + 1) - a, 7 * k + m)
  {
    hide AfterWrites, Received, IsInterval, Cut, NextMark, Scr, Pid, PacketAt, After, CanRun, ProducerCalls, Written,
      Interpolates, ScrDiff;
    CallbacksAreChunks(items, latency, run);
    WrittenAppend(ProducerCalls(run), rest);
    var out, calls := After(Initial(items, latency), run).output, AfterWrites(ws, pid, start).calls;
    assert Chunks(out)[i] == Written(ProducerCalls(run))[i] == Written(calls)[i];
    var x := WrittenIs(calls, i);
    EveryChunkIsOfAnInterval(ws, pid, start);
    var c, input := ChunkOf(out[i]), Received(ws);
    a, last, k :| IsChunkOf(c, input, pid, a, last, k);
    if 0 <= ScrDiff(FromPcr(input, pid, a), ToPcr(input, pid, a)) <= LONGEST_INTERVAL {
      PacketInterpolates(c, input, pid, a, last, k, m);
    }
  }
}
