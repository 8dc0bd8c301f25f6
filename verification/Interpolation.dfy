/** The PCR stamps the smoother's intake puts on its chunks, and the intervals it records. */
module Interpolation {
  import opened Bytes
  import opened CArith
  import opened TsPacket
  import opened ScrClock
  import opened SmootherProtocol
  import opened SmootherIntake
  import opened SmootherIntakeSafety

  // ---------------------------------------------------------------- shape

  predicate GoodChunk(c: Chunk)
  {
    0 < |c.buf| <= CHUNK_SIZE && |c.buf| % PACKET_SIZE == 0
  }

  predicate GoodCalls(calls: seq<Call>)
  {
    forall i :: 0 <= i < |calls| ==> calls[i].Write2? ==> GoodChunk(calls[i].chunk)
  }

  lemma SliceOfRest(bytes: Bytes, n: nat, i: nat, j: nat)
    requires n <= |bytes| && i <= j <= |bytes| - n
    ensures bytes[n..][i..j] == bytes[n + i..n + j]
  {
  }

  /** Chunk `k` holds packets 7k up to 7k + 7, or up to the end. */
  lemma {:induction false} CutAt(bytes: Bytes, pcr: int, perPacket: int, k: nat)
    requires k < |Cut(bytes, pcr, perPacket)|
    ensures CHUNK_SIZE * k < |bytes|
    ensures var c, end := Cut(bytes, pcr, perPacket)[k], CHUNK_SIZE * (k + 1);
      c.buf == bytes[CHUNK_SIZE * k..if end < |bytes| then end else |bytes|] && c.intervalPerPacket == perPacket
    decreases |bytes|
  {
    hide ScrAdd, Cut;
    if bytes == [] {
      CutNothing(pcr, perPacket);
    } else {
      var n := if CHUNK_SIZE > |bytes| then |bytes| else CHUNK_SIZE;
      CutStep(bytes, n, pcr, perPacket);
      if k > 0 {
        var next := ScrAdd(pcr, perPacket * (n / PACKET_SIZE));
        var end := CHUNK_SIZE * k;
        CutAt(bytes[n..], next, perPacket, k - 1);
        SliceOfRest(bytes, n, CHUNK_SIZE * (k - 1), if end < |bytes| - n then end else |bytes| - n);
      }
    }
  }

  lemma ChunkLength(n: nat, k: nat)
    requires n % PACKET_SIZE == 0 && CHUNK_SIZE * k < n
    ensures var length := if CHUNK_SIZE * (k + 1) < n then CHUNK_SIZE else n - CHUNK_SIZE * k;
      0 < length <= CHUNK_SIZE && length % PACKET_SIZE == 0
  {
    WholeRest(n, 7 * k);
  }

  lemma GoodCut(bytes: Bytes, pcr: int, perPacket: int, k: nat)
    requires |bytes| % PACKET_SIZE == 0 && k < |Cut(bytes, pcr, perPacket)|
    ensures GoodChunk(Cut(bytes, pcr, perPacket)[k])
  {
    hide Cut;
    CutAt(bytes, pcr, perPacket, k);
    ChunkLength(|bytes|, k);
    var n := |Cut(bytes, pcr, perPacket)[k].buf|;
    assert n == if CHUNK_SIZE * (k + 1) < |bytes| then CHUNK_SIZE else |bytes| - CHUNK_SIZE * k;
  }

  lemma CallsParts(calls: seq<Call>, chunks: seq<Chunk>, tail: seq<Call>, k: nat)
    requires |calls| <= k < |calls| + |chunks| + |tail|
    ensures var all := calls + Writes(chunks) + tail;
      |all| == |calls| + |chunks| + |tail|
      && all[k] == if k < |calls| + |chunks| then Write2(chunks[k - |calls|]) else tail[k - |calls| - |chunks|]
  {
  }

  lemma GoodPassChunk(s: Intake, pid: nat, k: nat)
    requires HasInterval(s, pid) && k < |PassChunks(s, pid)|
    ensures GoodChunk(PassChunks(s, pid)[k])
  {
    hide Cut, First, Second, Piece, PassPerPacket, GoodChunk, HasInterval, Packets, PacketAt, Scr;
    WholePackets(Second(s, pid) - First(s, pid));
    GoodCut(Piece(s, pid), PcrAt(s.ba, First(s, pid)), PassPerPacket(s, pid), k);
  }

  lemma PassCalls(s: Intake, pid: nat, now: int, k: nat)
    requires HasInterval(s, pid) && |s.calls| <= k < |Pass(s, pid, now).calls|
    ensures var call := Pass(s, pid, now).calls[k];
      && (call.Write2? ==> GoodChunk(call.chunk))
      && (call.RecordInterval? ==> call.ticks == PassPerPacket(s, pid))
  {
    hide PassChunks, First, Second, Writes, GoodChunk, HasInterval, PassPerPacket, IntervalTicks;
    var chunks := PassChunks(s, pid);
    CallsParts(s.calls, chunks, PassTail(s, pid, now), k);
    if k < |s.calls| + |chunks| {
      GoodPassChunk(s, pid, k - |s.calls|);
    }
  }

  /** Nothing but whole packets, at most seven at a time, ever reaches the queue. */
  lemma {:induction false} DrainedGood(s: Intake, pid: nat, now: int)
    requires |s.ba| % PACKET_SIZE == 0 && GoodCalls(s.calls)
    ensures GoodCalls(Drained(s, pid, now).calls)
    decreases |s.ba|
  {
    hide HasThird;
    if HasInterval(s, pid) {
      PassGood(s, pid, now);
      if HasThird(s, pid) {
        PassShrinks(s, pid, now);
        PassWhole(s, pid, now);
        DrainedGood(Pass(s, pid, now), pid, now);
      }
    }
  }

  lemma PassGood(s: Intake, pid: nat, now: int)
    requires |s.ba| % PACKET_SIZE == 0 && HasInterval(s, pid) && GoodCalls(s.calls)
    ensures GoodCalls(Pass(s, pid, now).calls)
  {
    hide GoodChunk, Cut, NextMark;
    var t := Pass(s, pid, now);
    forall i | 0 <= i < |t.calls| ensures t.calls[i].Write2? ==> GoodChunk(t.calls[i].chunk) {
      if i >= |s.calls| {
        PassCalls(s, pid, now, i);
      } else {
        PassKeeps(s, pid, now, i);
      }
    }
  }

  lemma PassKeeps(s: Intake, pid: nat, now: int, i: nat)
    requires HasInterval(s, pid) && i < |s.calls|
    ensures i < |Pass(s, pid, now).calls| && Pass(s, pid, now).calls[i] == s.calls[i]
  {
    hide NextMark, Cut;
  }

  lemma {:induction false} ChunksAreWholePackets(ws: seq<Input>, pid: nat, start: int)
    requires AllAligned(ws)
    ensures GoodCalls(AfterWrites(ws, pid, start).calls)
  {
    hide Drained, Kept, GoodChunk;
    if ws != [] {
      var init, last := ws[..|ws| - 1], ws[|ws| - 1];
      var s := AfterWrites(init, pid, start);
      ChunksAreWholePackets(init, pid, start);
      NothingDropped(init, pid, start);
      WholeArray(s, pid, Received(init));
      assert Aligned(last.buf);
      DrainedGood(s.(ba := s.ba + last.buf), pid, last.now);
    }
  }

  // ---------------------------------------------------------------- stamps

  /** The stamp of chunk `k` runs on from the first one, wrapping at most once. */
  lemma {:induction false} StampAt(bytes: Bytes, pcr: int, perPacket: int, k: nat)
    requires k < |Cut(bytes, pcr, perPacket)|
    requires pcr >= 0 && perPacket >= 0 && pcr + perPacket * (7 * k) <= 2 * MAX_SCR_VALUE
    ensures var c, u := Cut(bytes, pcr, perPacket)[k], pcr + perPacket * (7 * k);
      c.pcr == if k > 0 && u > MAX_SCR_VALUE then u - MAX_SCR_VALUE else u
    decreases k
  {
    if k > 0 {
      Split7(perPacket, k);
      var next := ScrAdd(pcr, perPacket * 7);
      CutAt(bytes, pcr, perPacket, k);
      assert Cut(bytes, pcr, perPacket)[k] == Cut(bytes[CHUNK_SIZE..], next, perPacket)[k - 1];
      StampAt(bytes[CHUNK_SIZE..], next, perPacket, k - 1);
    }
  }

  lemma Split7(perPacket: int, k: nat)
    requires k > 0
    ensures perPacket * (7 * k) == perPacket * 7 + perPacket * (7 * (k - 1))
    ensures perPacket >= 0 ==> perPacket * (7 * (k - 1)) >= 0
  {
  }

  /** Truncating the ticks per packet loses less than a tick a packet. */
  lemma Truncation(interval: int, n: nat, j: nat)
    requires interval >= 0 && j < n
    ensures var perPacket := CDiv(interval, n);
      && perPacket >= 0 && perPacket * j <= perPacket * n <= interval
      && n * (perPacket * j) <= interval * j < n * (perPacket * j) + n * n
  {
    var p, r := interval / n, interval % n;
    Euclid(interval, n);
    TimesPacket(interval, n, p, r, j);
    Monotone(p, j, n);
    Commute(p, n);
    if j == 0 {
      PositiveSquare(n);
    } else {
      Monotone(j, r + 1, n);
      Monotone(n, j + 1, n);
      Commute(r, j);
    }
  }

  lemma Euclid(a: int, n: nat)
    requires a >= 0 && n > 0
    ensures a == n * (a / n) + a % n && 0 <= a % n < n && a / n >= 0
  {
  }

  lemma TimesPacket(interval: int, n: nat, p: int, r: int, j: nat)
    requires interval == n * p + r
    ensures interval * j == n * (p * j) + r * j
  {
    assert interval * j == (n * p) * j + r * j;
    assert (n * p) * j == n * (p * j);
  }

  lemma Monotone(p: int, a: int, b: int)
    requires p >= 0 && 0 <= a <= b
    ensures 0 <= p * a <= p * b
  {
  }

  lemma Commute(a: int, b: int)
    ensures a * b == b * a
  {
  }

  lemma PositiveSquare(n: nat)
    requires n > 0
    ensures n * n > 0
  {
  }

  lemma IntervalEnds(from: nat, to: nat)
    ensures to == from + ScrDiff(from, to) || to == from + ScrDiff(from, to) - MAX_SCR_VALUE
  {
  }

  /**
   * An interval of 0 to 15 seconds between two PCRs: chunk `k` starts at packet j = 7k of n, and its stamp is, up to
   * the clock's wrap, a value that never passes the second PCR and trails exact interpolation, interval * j / n, by
   * less than n ticks.
   */
  lemma StampsInterpolate(bytes: Bytes, from: nat, to: nat, k: nat)
    requires from < 2 * MAX_SCR_VALUE - LONGEST_INTERVAL
    requires |bytes| % PACKET_SIZE == 0 && bytes != []
    requires 0 <= ScrDiff(from, to) <= LONGEST_INTERVAL
    requires k < |Cut(bytes, from, PerPacket(from, to, Packets(bytes), 0))|
    ensures var n, interval, j := Packets(bytes), ScrDiff(from, to), 7 * k;
      var perPacket := PerPacket(from, to, n, 0);
      var ahead := perPacket * j;
      var stamp := Cut(bytes, from, perPacket)[k].pcr;
      && j < n
      && (stamp == from + ahead || (from + ahead > MAX_SCR_VALUE && stamp == from + ahead - MAX_SCR_VALUE))
      && (to == from + interval || to == from + interval - MAX_SCR_VALUE)
      && 0 <= ahead <= interval
      && n * ahead <= interval * j < n * ahead + n * n
  {
    hide Cut, ScrDiff, CDiv;
    var n, interval := Packets(bytes), ScrDiff(from, to);
    var perPacket := PerPacket(from, to, n, 0);
    IntervalEnds(from, to);
    CutAt(bytes, from, perPacket, k);
    Truncation(interval, n, 7 * k);
    StampAt(bytes, from, perPacket, k);
  }

  /** A stamp on the clock of the interval that begins at `from`: one below it has wrapped. */
  function Unwrapped(from: nat, stamp: int): int
  {
    if stamp < from then stamp + MAX_SCR_VALUE else stamp
  }

  /** Unwrapped, chunk `k` is stamped as far ahead of the first PCR as its first packet is, in whole ticks a packet. */
  lemma StampUnwrapped(bytes: Bytes, from: nat, to: nat, k: nat)
    requires from < 2 * MAX_SCR_VALUE - LONGEST_INTERVAL
    requires |bytes| % PACKET_SIZE == 0 && bytes != []
    requires 0 <= ScrDiff(from, to) <= LONGEST_INTERVAL
    requires k < |Cut(bytes, from, PerPacket(from, to, Packets(bytes), 0))|
    ensures var perPacket := PerPacket(from, to, Packets(bytes), 0);
      Unwrapped(from, Cut(bytes, from, perPacket)[k].pcr) == from + perPacket * (7 * k)
  {
    hide Cut;
    StampsInterpolate(bytes, from, to, k);
  }

  /** Later chunks are never stamped earlier. */
  lemma StampsRise(bytes: Bytes, from: nat, to: nat, k: nat, l: nat)
    requires from < 2 * MAX_SCR_VALUE - LONGEST_INTERVAL
    requires |bytes| % PACKET_SIZE == 0 && bytes != []
    requires 0 <= ScrDiff(from, to) <= LONGEST_INTERVAL
    requires k <= l < |Cut(bytes, from, PerPacket(from, to, Packets(bytes), 0))|
    ensures var chunks := Cut(bytes, from, PerPacket(from, to, Packets(bytes), 0));
      Unwrapped(from, chunks[k].pcr) <= Unwrapped(from, chunks[l].pcr)
  {
    hide Cut, ScrDiff;
    StampUnwrapped(bytes, from, to, k);
    StampUnwrapped(bytes, from, to, l);
    CutAt(bytes, from, PerPacket(from, to, Packets(bytes), 0), k);
    Euclid(ScrDiff(from, to), Packets(bytes));
    Monotone(PerPacket(from, to, Packets(bytes), 0), 7 * k, 7 * l);
  }
}
