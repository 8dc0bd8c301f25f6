/** The PCR smoother in terms of true times: PCRs that sample a clock which wraps at 2^33 * 300. */
module ScrTimes {
  import opened Bytes
  import opened CArith
  import opened Interpolation
  import opened PacketStamps
  import opened ScrClock
  import opened SmootherEndToEnd
  import opened SmootherIntake
  import opened SmootherIntakeSafety
  import opened SmootherProtocol
  import opened SmootherSafety
  import opened Stamps
  import opened TsPacket

  /** 2^33 * 300, and five seconds of it. */
  const WRAP := 2576980377600
  const FIVE_SECONDS := 135000000
  const FIFTEEN_SECONDS := 405000000

  /**
   * The clock from one value to another `d` ticks on: the wrap, if it lies in between, is less than five seconds
   * back.
   */
  predicate Readable(t: nat, d: int)
  {
    t % WRAP + d < WRAP || t % WRAP + d - WRAP < FIVE_SECONDS
  }

  /** The difference of two clock values is the time between them, if and only if that is so. */
  lemma ScrDiffExactly(p: nat, d: nat)
    requires p < WRAP && d < WRAP
    ensures ScrDiff(p, (p + d) % WRAP) == d <==> p + d < WRAP || p + d - WRAP < FIVE_SECONDS
  {
    Around(p + d);
  }

  lemma Around(n: nat)
    requires n < 2 * WRAP
    ensures n % WRAP == if n < WRAP then n else n - WRAP
  {
  }

  lemma Residue(t: nat, d: nat)
    ensures (t + d) % WRAP == (t % WRAP + d) % WRAP
  {
    var q := t / WRAP;
    assert t + d == WRAP * q + (t % WRAP + d);
  }

  lemma DiffOfTimes(t: nat, u: nat)
    requires t <= u < t + WRAP
    ensures ScrDiff(t % WRAP, u % WRAP) == u - t <==> Readable(t, u - t)
  {
    Residue(t, u - t);
    ScrDiffExactly(t % WRAP, u - t);
  }

  // ---------------------------------------------------------------- the input

  /** Each packet with a PCR of the PID carries the time in `times` at its number, as far as the clock goes. */
  ghost predicate Samples(input: Bytes, pid: nat, times: seq<nat>)
  {
    |times| == Packets(input)
    && forall i :: 0 <= i < Packets(input) && IsMark(input, pid, i) ==> PcrAt(input, i) == times[i] % WRAP
  }

  /**
   * From packet `a`, one with a PCR, to the next such: so much time goes by, less than fifteen seconds, and
   * readably.
   */
  ghost predicate Timed(input: Bytes, pid: nat, times: seq<nat>, a: nat)
    requires IsInterval(input, pid, a) && |times| == Packets(input)
  {
    var t, u := times[a], times[NextMark(input, pid, a + 1)];
    t <= u <= t + FIFTEEN_SECONDS && Readable(t, u - t)
  }

  lemma IntervalIsTime(input: Bytes, pid: nat, times: seq<nat>, a: nat)
    requires IsInterval(input, pid, a) && Samples(input, pid, times) && Timed(input, pid, times, a)
    ensures ScrDiff(FromPcr(input, pid, a), ToPcr(input, pid, a)) == times[NextMark(input, pid, a + 1)] - times[a]
    ensures FromPcr(input, pid, a) == times[a] % WRAP
  {
    hide ScrDiff, Scr, Pid;
    DiffOfTimes(times[a], times[NextMark(input, pid, a + 1)]);
  }

  // ---------------------------------------------------------------- stamps are times

  /** A stamp stands for time `u`: it differs from it by whole wraps of the clock. */
  predicate StandsFor(stamp: int, u: int)
  {
    (u - stamp) % WRAP == 0
  }

  /** Time `u` suits packet `j` of the `n` from time `t` up to `end`: not past the end, and less than n ticks late. */
  predicate Suits(u: int, t: int, end: int, n: nat, j: nat)
  {
    j < n && t <= u <= end && n * (u - t) <= (end - t) * j < n * (u - t) + n * n
  }

  lemma UnwrappedIsTime(t: nat, stamp: int)
    ensures StandsFor(stamp, t + Unwrapped(t % WRAP, stamp) - t % WRAP)
  {
    var q := t / WRAP;
    assert t - t % WRAP == WRAP * q;
    var s := Unwrapped(t % WRAP, stamp);
    assert s - stamp == 0 || s - stamp == WRAP;
    Divided(t + s - t % WRAP - stamp, WRAP, if s == stamp then q else q + 1, 0);
  }

  /**
   * Whatever the writes, every chunk queued between two PCRs that are up to fifteen seconds apart, across the wrap too:
   * its stamp stands for a time that suits its first packet.
   */
  lemma EveryStampIsATime(ws: seq<Input>, pid: nat, start: int, times: seq<nat>, i: nat)
    returns (a: nat, last: int, k: nat, u: int)
    requires AllAligned(ws) && Samples(Received(ws), pid, times)
    requires i < |AfterWrites(ws, pid, start).calls| && AfterWrites(ws, pid, start).calls[i].Write2?
    ensures var c, input := AfterWrites(ws, pid, start).calls[i].chunk, Received(ws);
      && IsChunkOf(c, input, pid, a, last, k)
      && (Timed(input, pid, times, a) ==>
        var b := NextMark(input, pid, a + 1);
        StandsFor(c.pcr, u) && Suits(u, times[a], times[b], b - a, 7 * k))
  {
    hide AfterWrites, Received, IsInterval, Cut, NextMark, Scr, Pid, PacketAt, ScrDiff, Unwrapped, Samples, Timed;
    a, last, k := EveryStampInterpolates(ws, pid, start, i);
    var c, input := AfterWrites(ws, pid, start).calls[i].chunk, Received(ws);
    SamplesEach(input, pid, times);
    u := times[a] + Unwrapped(times[a] % WRAP, c.pcr) - times[a] % WRAP;
    UnwrappedIsTime(times[a], c.pcr);
    if Timed(input, pid, times, a) {
      IntervalIsTime(input, pid, times, a);
      ShortInterval(input, pid, times, a);
    }
  }

  lemma SamplesEach(input: Bytes, pid: nat, times: seq<nat>)
    requires Samples(input, pid, times)
    ensures |times| == Packets(input)
    ensures forall a: nat :: IsInterval(input, pid, a) ==>
      a < Packets(input) && NextMark(input, pid, a + 1) < Packets(input)
  {
  }

  lemma ShortInterval(input: Bytes, pid: nat, times: seq<nat>, a: nat)
    requires IsInterval(input, pid, a) && |times| == Packets(input) && Timed(input, pid, times, a)
    ensures 0 <= times[NextMark(input, pid, a + 1)] - times[a] <= LONGEST_INTERVAL
  {
  }

  /** The same of the PCR that the callback is given for each packet, in any interleaving. */
  lemma CallbackPcrsAreTimes(ws: seq<Input>, pid: nat, start: int, times: seq<nat>, items: nat, latency: int,
                             run: seq<Action>, rest: seq<Call>, i: nat, m: nat)
    returns (a: nat, last: int, k: nat, u: int)
    requires AllAligned(ws) && Samples(Received(ws), pid, times) && CanRun(Initial(items, latency), run)
    requires ProducerCalls(run) + rest == AfterWrites(ws, pid, start).calls
    requires var out := After(Initial(items, latency), run).output; i < |out| && m < Packets(out[i].buf)
    ensures var c, input := ChunkOf(After(Initial(items, latency), run).output[i]), Received(ws);
      && IsChunkOf(c, input, pid, a, last, k)
      && (Timed(input, pid, times, a) ==>
        var b := NextMark(input, pid, a + 1);
        StandsFor(PacketPcrs(c)[m].pcr, u) && Suits(u, times[a], times[b], b - a, 7 * k + m))
  {
    hide AfterWrites, Received, IsInterval, Cut, NextMark, Scr, Pid, PacketAt, ScrDiff, Unwrapped, Samples, Timed,
        After,
      CanRun, ProducerCalls;
    a, last, k := CallbackPcrsInterpolate(ws, pid, start, items, latency, run, rest, i, m);
    var c, input := ChunkOf(After(Initial(items, latency), run).output[i]), Received(ws);
    SamplesEach(input, pid, times);
    var more := PacketPcrs(c)[m].pcr - c.pcr;
    var v := times[a] + Unwrapped(times[a] % WRAP, c.pcr) - times[a] % WRAP;
    u := v + more;
    UnwrappedIsTime(times[a], c.pcr);
    assert u - PacketPcrs(c)[m].pcr == v - c.pcr;
    if Timed(input, pid, times, a) {
      IntervalIsTime(input, pid, times, a);
      ShortInterval(input, pid, times, a);
    }
  }

  // ---------------------------------------------------------------- what is recorded

  /** Every interval of the input is one that is timed. */
  ghost predicate AllTimed(input: Bytes, pid: nat, times: seq<nat>)
    requires |times| == Packets(input)
  {
    forall a: nat :: IsInterval(input, pid, a) ==> Timed(input, pid, times, a)
  }

  lemma TimesGoForward(input: Bytes, pid: nat, times: seq<nat>)
    requires Samples(input, pid, times) && AllTimed(input, pid, times)
    ensures Forward(input, pid)
  {
    hide ScrDiff, Scr, Pid, PacketAt, NextMark, Samples, Timed;
    SamplesEach(input, pid, times);
    forall i | 0 <= i < Packets(input) && IsMark(input, pid, i) ensures ForwardFrom(input, pid, i) {
      if NextMark(input, pid, i + 1) < Packets(input) {
        assert IsInterval(input, pid, i);
        IntervalIsTime(input, pid, times, i);
        ShortInterval(input, pid, times, i);
      }
    }
  }

  /** PCRs that sample such times never make the intake record a negative interval, whatever wraps lie between them. */
  lemma TimesRecordedForward(ws: seq<Input>, pid: nat, start: int, times: seq<nat>)
    requires AllAligned(ws) && Samples(Received(ws), pid, times) && AllTimed(Received(ws), pid, times)
    ensures ForwardCalls(AfterWrites(ws, pid, start).calls)
  {
    hide AfterWrites, Received, Forward, Samples, AllTimed;
    TimesGoForward(Received(ws), pid, times);
    IntervalsRecordedForward(ws, pid, start);
  }

  /** So they keep the busy list in order of scheduled time, whatever the interleaving. */
  lemma TimesQueueInOrder(ws: seq<Input>, pid: nat, start: int, times: seq<nat>, items: nat, latency: int,
                          run: seq<Action>, rest: seq<Call>)
    requires AllAligned(ws) && Samples(Received(ws), pid, times) && AllTimed(Received(ws), pid, times)
    requires CanRun(Initial(items, latency), run) && ProducerCalls(run) + rest == AfterWrites(ws, pid, start).calls
    ensures Sorted(After(Initial(items, latency), run).busy)
  {
    hide AfterWrites, Received, Forward, Samples, AllTimed, CanRun, After, ProducerCalls, Sorted;
    TimesGoForward(Received(ws), pid, times);
    QueueInOrder(ws, pid, start, items, latency, run, rest);
  }
}
