/** The smoother from the packets written to it to the packets it sends. */
module SmootherEndToEnd {
  import opened Bytes
  import opened CArith
  import opened Wrappers
  import opened TsPacket
  import opened ScrClock
  import opened SmootherProtocol
  import opened SmootherSafety
  import opened SmootherIntake
  import opened SmootherIntakeSafety
  import opened Interpolation

  /** What the producer's steps in a run amount to. */
  function CallOf(a: Action): seq<Call>
  {
    match a
    case Take(chunk) => [Write2(chunk)]
    case RecordInterval(ticks) => [Call.RecordInterval(ticks)]
    case Rebase => [Call.Rebase]
    case _ => []
  }

  function ProducerCalls(run: seq<Action>): seq<Call>
  {
    if run == [] then [] else CallOf(run[0]) + ProducerCalls(run[1..])
  }

  lemma GivenStep(s: Smoothing, a: Action)
    requires Enabled(s, a)
    ensures Do(s, a).given == s.given + Queued(CallOf(a))
  {
    if a.Take? {
      QueuedOne(Write2(a.chunk));
    } else if a.RecordInterval? {
      QueuedOne(Call.RecordInterval(a.ticks));
    } else if a.Rebase? {
      QueuedOne(Call.Rebase);
    }
  }

  /** The protocol's account of what it was given is what the intake handed over. */
  lemma {:induction false} GivenIsQueued(s: Smoothing, run: seq<Action>)
    requires CanRun(s, run)
    ensures After(s, run).given == s.given + Queued(ProducerCalls(run))
    decreases |run|
  {
    hide Do, Enabled, Queued, CallOf;
    if run == [] {
      QueuedNone();
    } else {
      GivenStep(s, run[0]);
      GivenIsQueued(Do(s, run[0]), run[1..]);
      QueuedAppend(CallOf(run[0]), ProducerCalls(run[1..]));
    }
  }

  /**
   * The producer performs the intake's calls, `rest` of them still to come, while the consumer takes its steps in any
   * interleaving: sent, grabbed, queued, in hand, still to come and waiting bytes are the input from the first PCR on.
   */
  lemma EndToEnd(ws: seq<Input>, pid: nat, start: int, items: nat, latency: int, run: seq<Action>, rest: seq<Call>)
    requires AllAligned(ws) && CanRun(Initial(items, latency), run)
    requires ProducerCalls(run) + rest == AfterWrites(ws, pid, start).calls != []
    ensures var s, input := After(Initial(items, latency), run), Received(ws);
      && NextMark(input, pid, 0) < Packets(input)
      && Data(s.output) + Data(Unsent(s)) + Data(s.busy) + InHandBytes(s) + Queued(rest) + AfterWrites(ws, pid,
          start).ba
         == input[PACKET_SIZE * NextMark(input, pid, 0)..]
  {
    hide CanRun, After, AfterWrites, ProducerCalls, Queued, Data, Received, NextMark, Unsent, IsMark;
    NothingDropped(ws, pid, start);
    BytesInOrder(items, latency, run);
    GivenIsQueued(Initial(items, latency), run);
    QueuedAppend(ProducerCalls(run), rest);
    assert Initial(items, latency).given == [];
  }

  // ---------------------------------------------------------------- PCRs that move forward

  /** From each PCR of the PID to the next the clock does not step back, wraps allowed for. */
  predicate Forward(buf: Bytes, pid: nat)
  {
    forall i :: 0 <= i < Packets(buf) && IsMark(buf, pid, i) ==> ForwardFrom(buf, pid, i)
  }

  predicate ForwardFrom(buf: Bytes, pid: nat, i: nat)
    requires i < Packets(buf) && IsMark(buf, pid, i)
  {
    var j := NextMark(buf, pid, i + 1);
    j < Packets(buf) ==> ScrDiff(PcrAt(buf, i), PcrAt(buf, j)) >= 0
  }

  predicate ForwardCalls(calls: seq<Call>)
  {
    forall i :: 0 <= i < |calls| ==> calls[i].RecordInterval? ==> calls[i].ticks >= 0
  }

  predicate ForwardIntake(s: Intake)
  {
    s.intervalLast >= 0 && ForwardCalls(s.calls)
  }

  lemma ForwardPrefix(a: Bytes, b: Bytes, pid: nat)
    requires |a| % PACKET_SIZE == 0 && Forward(a + b, pid)
    ensures Forward(a, pid)
  {
    hide Scr, Pid, IsMark, ScrDiff;
    forall i | 0 <= i < Packets(a) && IsMark(a, pid, i) ensures ForwardFrom(a, pid, i) {
      var j := NextMark(a, pid, i + 1);
      if j < Packets(a) {
        MarkJoin(a, b, pid, i + 1);
        SamePacket(a, b, pid, i);
        SamePacket(a, b, pid, j);
        assert ForwardFrom(a + b, pid, i);
      }
    }
  }

  lemma SamePacket(a: Bytes, b: Bytes, pid: nat, i: nat)
    requires |a| % PACKET_SIZE == 0 && i < Packets(a) && IsMark(a, pid, i)
    ensures i < Packets(a + b) && IsMark(a + b, pid, i) && PcrAt(a + b, i) == PcrAt(a, i)
  {
    PacketJoin(a, b, i);
  }

  lemma ForwardRest(buf: Bytes, pid: nat, k: nat)
    requires |buf| % PACKET_SIZE == 0 && k <= Packets(buf) && Forward(buf, pid)
    ensures Forward(buf[PACKET_SIZE * k..], pid)
  {
    hide Scr, Pid, IsMark, ScrDiff, NextMark;
    var rest := buf[PACKET_SIZE * k..];
    forall i | 0 <= i < Packets(rest) && IsMark(rest, pid, i) ensures ForwardFrom(rest, pid, i) {
      SameRest(buf, pid, k, i);
      RestNextMark(buf, pid, k, k + i + 1);
      var j := NextMark(rest, pid, i + 1);
      if j < Packets(rest) {
        SameRest(buf, pid, k, j);
        assert ForwardFrom(buf, pid, k + i);
      }
    }
  }

  lemma SameRest(buf: Bytes, pid: nat, k: nat, i: nat)
    requires |buf| % PACKET_SIZE == 0 && k <= Packets(buf)
    requires var rest := buf[PACKET_SIZE * k..]; i < Packets(rest) && IsMark(rest, pid, i)
    ensures k + i < Packets(buf) && IsMark(buf, pid, k + i)
    ensures PcrAt(buf, k + i) == PcrAt(buf[PACKET_SIZE * k..], i)
  {
    assert PacketAt(buf, k + i) == PacketAt(buf[PACKET_SIZE * k..], i);
  }

  lemma ForwardPass(s: Intake, pid: nat, now: int)
    requires HasInterval(s, pid) && ForwardIntake(s) && Forward(s.ba, pid)
    ensures ForwardIntake(Pass(s, pid, now))
  {
    hide NextMark, PassChunks, PassTail, Writes, IsMark, ScrDiff;
    assert ForwardFrom(s.ba, pid, First(s, pid));
    PerPacketForward(s, pid);
    var t := Pass(s, pid, now);
    forall i | 0 <= i < |t.calls| ensures t.calls[i].RecordInterval? ==> t.calls[i].ticks >= 0 {
      if i < |s.calls| {
        PassKeeps(s, pid, now, i);
      } else {
        PassCalls(s, pid, now, i);
      }
    }
  }

  lemma PerPacketForward(s: Intake, pid: nat)
    requires HasInterval(s, pid) && s.intervalLast >= 0 && IntervalTicks(s, pid) >= 0
    ensures PassPerPacket(s, pid) >= 0
  {
    hide NextMark, IsMark, ScrDiff, First, Second, HasInterval;
    Euclid(IntervalTicks(s, pid), Second(s, pid) - First(s, pid));
  }

  lemma {:induction false} ForwardDrained(s: Intake, pid: nat, now: int)
    requires |s.ba| % PACKET_SIZE == 0 && ForwardIntake(s) && Forward(s.ba, pid)
    ensures ForwardIntake(Drained(s, pid, now))
    decreases |s.ba|
  {
    hide HasThird, ForwardIntake, Forward, HasInterval, First, Second, NextMark;
    if HasInterval(s, pid) {
      ForwardPass(s, pid, now);
      if HasThird(s, pid) {
        PassShrinks(s, pid, now);
        PassWhole(s, pid, now);
        ForwardRest(s.ba, pid, Second(s, pid));
        ForwardDrained(Pass(s, pid, now), pid, now);
      }
    }
  }

  /** What waits in the array is the end of the input. */
  lemma KeptRest(s: Intake, pid: nat, input: Bytes) returns (k: nat)
    requires Kept(s, pid, input)
    ensures k <= Packets(input) && s.ba == input[PACKET_SIZE * k..]
  {
    hide Scr, Pid, IsMark, NextMark, Queued;
    k := Packets(input) - Packets(s.ba);
    if s.calls != [] {
      var first := PACKET_SIZE * NextMark(input, pid, 0);
      assert s.ba == input[first..][|Queued(s.calls)|..];
    }
  }

  lemma {:induction false} IntervalsRecordedForward(ws: seq<Input>, pid: nat, start: int)
    requires AllAligned(ws) && Forward(Received(ws), pid)
    ensures ForwardIntake(AfterWrites(ws, pid, start))
  {
    hide Forward, Kept, Drained;
    if ws != [] {
      var init, last := ws[..|ws| - 1], ws[|ws| - 1];
      var s := AfterWrites(init, pid, start);
      var more := s.(ba := s.ba + last.buf);
      assert Aligned(last.buf);
      NothingDropped(init, pid, start);
      WholeInput(s, pid, Received(init));
      ForwardPrefix(Received(init), last.buf, pid);
      IntervalsRecordedForward(init, pid, start);
      KeptJoin(s, pid, Received(init), last.buf);
      WholeInput(more, pid, Received(ws));
      var k := KeptRest(more, pid, Received(ws));
      ForwardRest(Received(ws), pid, k);
      ForwardDrained(more, pid, last.now);
    }
  }

  lemma WholeInput(s: Intake, pid: nat, input: Bytes)
    requires Kept(s, pid, input)
    ensures |input| % PACKET_SIZE == 0 && |s.ba| % PACKET_SIZE == 0
  {
  }

  lemma {:induction false} ForwardRun(run: seq<Action>)
    requires ForwardCalls(ProducerCalls(run))
    ensures IntervalsForward(run)
  {
    if run != [] {
      var head, tail := CallOf(run[0]), ProducerCalls(run[1..]);
      assert forall i :: 0 <= i < |tail| ==> tail[i] == ProducerCalls(run)[|head| + i];
      ForwardRun(run[1..]);
      if run[0].RecordInterval? {
        assert ProducerCalls(run)[0] == Call.RecordInterval(run[0].ticks);
      }
      forall i | 0 <= i < |run| && run[i].RecordInterval? ensures run[i].ticks >= 0 {
        if i > 0 {
          assert run[i] == run[1..][i - 1];
        }
      }
    }
  }

  /** Fed PCRs that do not step back, the busy list is in order of scheduled time whatever the interleaving. */
  lemma QueueInOrder(ws: seq<Input>, pid: nat, start: int, items: nat, latency: int, run: seq<Action>, rest: seq<Call>)
    requires AllAligned(ws) && Forward(Received(ws), pid) && CanRun(Initial(items, latency), run)
    requires ProducerCalls(run) + rest == AfterWrites(ws, pid, start).calls
    ensures Sorted(After(Initial(items, latency), run).busy)
  {
    hide CanRun, After, AfterWrites, ProducerCalls, Received, Forward, IntervalsForward;
    IntervalsRecordedForward(ws, pid, start);
    var calls := ProducerCalls(run);
    assert forall i :: 0 <= i < |calls| ==> calls[i] == (calls + rest)[i];
    ForwardRun(run);
    InitiallyScheduled(items, latency);
    AlwaysScheduled(Initial(items, latency), run);
  }

  // ---------------------------------------------------------------- PCRs that step back

  /** A packet of PID 32 with a PCR and nothing else; and one of PID 33 without. */
  function PcrPacket(pcr: nat): Packet
  {
    [0x47, 0x00, 0x20, 0x30, 0x07, 0x10] + PcrField(pcr / 300, pcr % 300) + seq(176, _ => 0x55)
  }

  function PlainPacket(): Packet
  {
    [0x47, 0x00, 0x21, 0x10] + seq(184, _ => 0x55)
  }

  lemma PcrPacketFacts(pcr: nat)
    requires pcr < TsPacket.MAX_SCR_VALUE
    ensures var p := PcrPacket(pcr); Scr(p) == Some(pcr) && Pid(p) == 32 && p[0] == SYNC_BYTE
  {
    hide PcrToScr;
    PcrRoundTrip(pcr);
    assert PcrPacket(pcr)[6..12] == PcrField(pcr / 300, pcr % 300);
  }

  lemma PlainPacketFacts()
    ensures var p := PlainPacket(); Scr(p) == None && p[0] == SYNC_BYTE
  {
  }

  lemma PacketsOfThree(a: Packet, b: Packet, c: Packet, rest: Bytes)
    requires |rest| % PACKET_SIZE == 0
    ensures var buf := a + b + c + rest;
      && Packets(buf) == 3 + Packets(rest) && |buf| == 3 * PACKET_SIZE + |rest|
      && PacketAt(buf, 0) == a && PacketAt(buf, 1) == b && PacketAt(buf, 2) == c
      && buf[..PACKET_SIZE] == a && buf[PACKET_SIZE..] == b + c + rest
  {
    var buf := a + b + c + rest;
    assert buf[PACKET_SIZE..PACKET_SIZE + PACKET_SIZE] == b;
    assert buf[2 * PACKET_SIZE..2 * PACKET_SIZE + PACKET_SIZE] == c;
  }

  /** One pass over an array that begins with two PCRs a packet apart, which step back. */
  lemma PassOnePacket(s: Intake, now: int, a: Packet, b: Packet, c: Packet, rest: Bytes, from: nat, to: nat)
    requires |rest| % PACKET_SIZE == 0 && s.ba == a + b + c + rest && now < s.lastReset + REBASE_SECONDS
    requires Scr(a) == Some(from) && Scr(b) == Some(to) && Pid(a) == Pid(b) == 32 && 5 * PCR_CLOCK_HZ <= to < from
    ensures HasInterval(s, 32)
    ensures Pass(s, 32, now) == Intake(b + c + rest, to - from, s.lastReset,
              s.calls + [Write2(Chunk(a, from, to - from)), Call.RecordInterval(to - from)])
    ensures HasThird(s, 32) <==> NextMark(s.ba, 32, 2) < Packets(s.ba)
  {
    hide Scr, Pid, PacketAt, Packets, Cut, Writes, PassChunks;
    PacketsOfThree(a, b, c, rest);
    assert NextMark(s.ba, 32, 0) == 0 && NextMark(s.ba, 32, 1) == 1;
    assert Piece(s, 32) == a;
    OneChunk(a, from, to - from);
    OneByOne(to - from);
    assert PassPerPacket(s, 32) == to - from;
    ChunksOf(s, a, from, to - from);
    assert s.ba[PACKET_SIZE * 1..] == b + c + rest;
    assert [Write2(Chunk(a, from, to - from))] + [Call.RecordInterval(to - from)]
           == [Write2(Chunk(a, from, to - from)), Call.RecordInterval(to - from)];
  }

  lemma ChunksOf(s: Intake, a: Packet, from: nat, perPacket: int)
    requires HasInterval(s, 32) && Piece(s, 32) == a && PcrAt(s.ba, First(s, 32)) == from
        && PassPerPacket(s, 32) == perPacket
    ensures PassChunks(s, 32) == Cut(a, from, perPacket)
  {
    hide Cut, Scr, PacketAt;
  }

  lemma OneChunk(a: Packet, pcr: int, perPacket: int)
    ensures Writes(Cut(a, pcr, perPacket)) == [Write2(Chunk(a, pcr, perPacket))]
  {
    CutStep(a, PACKET_SIZE, pcr, perPacket);
    CutNothing(ScrAdd(pcr, perPacket * 1), perPacket);
    assert a[..PACKET_SIZE] == a && a[PACKET_SIZE..] == [];
  }

  lemma OneByOne(d: int)
    ensures CDiv(d, 1) == d
  {
  }

  /** Three PCRs a packet apart, each 2700 ticks before the last, and one more packet, in one write. */
  function SteppingBack(): seq<Input>
  {
    [Input(PcrPacket(200002700) + PcrPacket(200000000) + PcrPacket(199997300) + PlainPacket(), 0)]
  }

  /** What the intake does with them: a chunk, an interval of -2700 ticks, and both again. */
  lemma SteppingBackCalls()
    ensures AllAligned(SteppingBack())
    ensures AfterWrites(SteppingBack(), 32, 0).calls
            == [Write2(Chunk(PcrPacket(200002700), 200002700, -2700)), Call.RecordInterval(-2700),
                Write2(Chunk(PcrPacket(200000000), 200000000, -2700)), Call.RecordInterval(-2700)]
  {
    hide PcrPacket, PlainPacket, Scr, Pid, Pass, HasInterval, HasThird, PacketAt, Packets, NextMark;
    var a: Bytes, b: Bytes, c: Bytes, d: Bytes := PcrPacket(200002700), PcrPacket(200000000), PcrPacket(199997300),
        PlainPacket();
    PcrPacketFacts(200002700);
    PcrPacketFacts(200000000);
    PcrPacketFacts(199997300);
    PlainPacketFacts();
    var buf: Bytes := a + b + c + d;
    PacketsOfThree(a, b, c, d);
    PacketsOfThree(b, c, d, []);
    FourAligned(a, b, c, d);
    var ws := SteppingBack();
    var s := Intake(buf, 0, 0, []);
    NothingWritten(ws, s);
    PassOnePacket(s, 0, a, b, c, d, 200002700, 200000000);
    ThirdMark(a, b, c, d);
    var t := Pass(s, 32, 0);
    assert b + c + d + [] == b + c + d;
    PassOnePacket(t, 0, b, c, d, [], 200000000, 199997300);
    NoThirdMark(b, c, d);
  }

  lemma NothingWritten(ws: seq<Input>, s: Intake)
    requires |ws| == 1 && s == Intake(ws[0].buf, 0, 0, [])
    ensures AfterWrites(ws, 32, 0) == Drained(s, 32, ws[0].now)
  {
    hide Drained;
    assert ws[..0] == [] && [] + ws[0].buf == ws[0].buf;
    assert AfterWrites([], 32, 0) == Intake([], 0, 0, []);
  }

  lemma FourAligned(a: Packet, b: Packet, c: Packet, d: Packet)
    requires a[0] == b[0] == c[0] == d[0] == SYNC_BYTE
    ensures Aligned(a + b + c + d)
  {
    PacketsOfThree(a, b, c, d);
    PacketJoin(a + b + c, d, 3);
    assert PacketAt(d, 0) == d;
  }

  lemma ThirdMark(a: Packet, b: Packet, c: Packet, d: Packet)
    requires Scr(c).Some? && Pid(c) == 32
    ensures var buf := a + b + c + d; Packets(buf) == 4 && NextMark(buf, 32, 2) == 2
  {
    hide Scr, Pid, PacketAt;
    PacketsOfThree(a, b, c, d);
  }

  lemma NoThirdMark(a: Packet, b: Packet, c: Packet)
    requires Scr(c).None?
    ensures var buf := a + b + c; Packets(buf) == 3 && NextMark(buf, 32, 2) == 3
  {
    hide Scr, Pid, PacketAt;
    PacketsOfThree(a, b, c, []);
    assert a + b + c + [] == a + b + c;
  }

  /**
   * A PCR that steps back without a wrap can put the busy list out of order: the producer is among the calls the intake
   * makes of three such PCRs, and the second chunk is queued before the first.
   */
  lemma SteppingBackDisorders()
    ensures exists run, rest ::
      && CanRun(Initial(2, 0), run) && AllAligned(SteppingBack())
      && ProducerCalls(run) + rest == AfterWrites(SteppingBack(), 32, 0).calls
      && !Sorted(After(Initial(2, 0), run).busy)
  {
    hide PcrPacket, AfterWrites, AllAligned, CanRun, After, Do, Enqueue, Fill, TakeFree, ProducerCalls, Sorted;
    SteppingBackCalls();
    var one := Chunk(PcrPacket(200002700), 200002700, -2700);
    var two := Chunk(PcrPacket(200000000), 200000000, -2700);
    var s := Initial(2, 0);
    NoSteps(s);
    var first := ChunkQueued(s, [], one);
    FirstQueued(s, one);
    RecordEnabled(After(s, first));
    OneMore(s, first, Action.RecordInterval(-2700));
    var recorded := first + [Action.RecordInterval(-2700)];
    var t := After(s, recorded);
    RecordedFacts(After(s, first), -2700);
    var second := ChunkQueued(s, recorded, two);
    SecondLate(t, two);
    ChunkCalls([], one);
    ProducerSnoc(first, Action.RecordInterval(-2700));
    ChunkCalls(recorded, two);
    assert [] + [Write2(one)] + [Call.RecordInterval(-2700)] + [Write2(two)] + [Call.RecordInterval(-2700)]
           == AfterWrites(SteppingBack(), 32, 0).calls;
    assert ProducerCalls(second) + [Call.RecordInterval(-2700)] == AfterWrites(SteppingBack(), 32, 0).calls;
  }

  lemma NoSteps(s: Smoothing)
    ensures CanRun(s, []) && After(s, []) == s && ProducerCalls([]) == []
  {
  }

  lemma RecordEnabled(s: Smoothing)
    requires s.producer.Idle?
    ensures Enabled(s, Action.RecordInterval(-2700))
  {
  }

  lemma RecordedFacts(s: Smoothing, ticks: int)
    requires s.producer.Idle?
    ensures Do(s, Action.RecordInterval(ticks)) == s.(intervalLast := ticks)
  {
  }

  /** The first chunk sets the timebase and is due at once. */
  lemma FirstQueued(s: Smoothing, c: Chunk)
    requires s == Initial(2, 0)
    ensures var t := Enqueue(Fill(TakeFree(s, c), 0));
      && t.producer.Idle? && |t.busy| == 1 && t.busy[0].scheduled == 0
      && t.pcrFirst == c.pcr == t.pcrTail && t.walltimeFirst == 0 && t.latency == 0
  {
  }

  /** The second, 2700 ticks earlier, is put a hundred microseconds before the first. */
  lemma SecondLate(t: Smoothing, c: Chunk)
    requires t.producer.Idle? && |t.busy| == 1 && t.busy[0].scheduled == 0
    requires t.pcrFirst == 200002700 && t.walltimeFirst == 0 && t.latency == 0 && t.intervalLast == -2700
    requires c.pcr == 200000000 && |c.buf| == PACKET_SIZE
    ensures !Sorted(Enqueue(Fill(TakeFree(t, c), 0)).busy)
  {
    QueueKeepsOrder(Fill(TakeFree(t, c), 0));
  }

  lemma {:induction false} ProducerSnoc(run: seq<Action>, a: Action)
    ensures ProducerCalls(run + [a]) == ProducerCalls(run) + CallOf(a)
  {
    hide CallOf;
    if run == [] {
      assert [a][1..] == [] && [] + [a] == [a];
    } else {
      ProducerSnoc(run[1..], a);
      assert (run + [a])[1..] == run[1..] + [a];
    }
  }

  lemma ChunkCalls(run: seq<Action>, c: Chunk)
    ensures ProducerCalls(run + [Take(c), FillIn(0), Queue]) == ProducerCalls(run) + [Write2(c)]
  {
    ProducerSnoc(run, Take(c));
    ProducerSnoc(run + [Take(c)], FillIn(0));
    ProducerSnoc(run + [Take(c), FillIn(0)], Queue);
    assert run + [Take(c)] + [FillIn(0)] == run + [Take(c), FillIn(0)];
    assert run + [Take(c), FillIn(0)] + [Queue] == run + [Take(c), FillIn(0), Queue];
  }
}
