/**
 * What the PCR smoother does with the packets it is given, src/smoother-pcr.c
 * with the searches of src/ts.c: packets gather in a byte array, and whatever
 * lies between two PCRs of the chosen PID is cut into chunks, each stamped
 * with an interpolated PCR, and handed to smoother_pcr_write2.
 */
module SmootherIntake {
  import opened Bytes
  import opened CArith
  import opened Wrappers
  import opened TsPacket
  import opened ScrClock
  import opened SmootherProtocol

  const CHUNK_SIZE := 7 * 188
  const LONGEST_INTERVAL := 15 * PCR_CLOCK_HZ
  const REBASE_SECONDS := 10

  /** What the intake does to the rest of the smoother. */
  datatype Call = Write2(chunk: Chunk) | RecordInterval(ticks: int) | Rebase

  // ---------------------------------------------------------------- packets in a buffer

  /** Whole packets, in sync from the first byte. */
  predicate Aligned(buf: Bytes)
  {
    |buf| % PACKET_SIZE == 0 && forall i :: 0 <= i < Packets(buf) ==> PacketAt(buf, i)[0] == SYNC_BYTE
  }

  predicate IsMark(buf: Bytes, pid: nat, i: nat)
    requires i < Packets(buf)
  {
    Scr(PacketAt(buf, i)).Some? && Pid(PacketAt(buf, i)) == pid
  }

  function PositionOf(buf: Bytes, i: nat): PcrPosition
    requires i < Packets(buf) && Scr(PacketAt(buf, i)).Some?
  {
    PcrPosition(Pid(PacketAt(buf, i)), PACKET_SIZE * i, Scr(PacketAt(buf, i)).value)
  }

  /** The first packet from `i` on that carries a PCR of the PID; past the last packet if there is none. */
  function NextMark(buf: Bytes, pid: nat, i: nat): (j: nat)
    requires i <= Packets(buf)
    ensures i <= j <= Packets(buf)
    ensures j < Packets(buf) ==> IsMark(buf, pid, j)
    ensures forall k :: i <= k < j ==> !IsMark(buf, pid, k)
    decreases Packets(buf) - i
  {
    if i == Packets(buf) || IsMark(buf, pid, i) then i else NextMark(buf, pid, i + 1)
  }

  // ---------------------------------------------------------------- the searches

  predicate SyncAt(buf: Bytes, i: nat)
    requires |buf| >= 3 * PACKET_SIZE && i < PACKET_SIZE
  {
    buf[i] == SYNC_BYTE && buf[i + PACKET_SIZE] == SYNC_BYTE && buf[i + 2 * PACKET_SIZE] == SYNC_BYTE
  }

  /** ltntstools_findSyncPosition, for any buffer. */
  method FindSyncPosition(buf: Bytes) returns (r: int)
    ensures |buf| < 3 * PACKET_SIZE ==> r == -1
    ensures |buf| >= 3 * PACKET_SIZE ==>
      && -1 <= r < PACKET_SIZE
      && (r >= 0 ==> SyncAt(buf, r))
      && forall i :: 0 <= i < (if r < 0 then PACKET_SIZE else r) ==> !SyncAt(buf, i)
  {
    if |buf| < 3 * PACKET_SIZE {
      return -1;
    }
    for i := 0 to PACKET_SIZE
      invariant forall k :: 0 <= k < i ==> !SyncAt(buf, k)
    {
      if buf[i] == SYNC_BYTE && buf[i + PACKET_SIZE] == SYNC_BYTE && buf[i + 2 * PACKET_SIZE] == SYNC_BYTE {
        return i;
      }
    }
    r := -1;
  }

  /** Every PCR from packet `i` on. */
  function Pcrs(buf: Bytes, i: nat): seq<PcrPosition>
    requires i <= Packets(buf)
    decreases Packets(buf) - i
  {
    if i == Packets(buf) then []
    else if Scr(PacketAt(buf, i)).Some? then [PositionOf(buf, i)] + Pcrs(buf, i + 1)
    else Pcrs(buf, i + 1)
  }

  lemma AlignedSync(buf: Bytes)
    requires Aligned(buf) && |buf| >= 3 * PACKET_SIZE
    ensures SyncAt(buf, 0)
  {
    assert PacketAt(buf, 0)[0] == SYNC_BYTE && PacketAt(buf, 1)[0] == SYNC_BYTE && PacketAt(buf, 2)[0] == SYNC_BYTE;
  }

  /** ltntstools_queryPCRs on whole packets in sync. */
  method QueryPcrs(buf: Bytes) returns (r: Option<seq<PcrPosition>>)
    requires Aligned(buf)
    ensures r == if |buf| < 3 * PACKET_SIZE then None else Some(Pcrs(buf, 0))
  {
    var offset := FindSyncPosition(buf);
    if offset < 0 {
      if |buf| >= 3 * PACKET_SIZE {
        AlignedSync(buf);
      }
      return None;
    }
    AlignedSync(buf);
    assert offset == 0;
    var arr: seq<PcrPosition> := [];
    var i := offset;
    ghost var k := 0;
    while i < |buf| - offset
      invariant i == PACKET_SIZE * k && k <= Packets(buf)
      invariant Pcrs(buf, 0) == arr + Pcrs(buf, k)
      decreases |buf| - i
    {
      var pkt: Packet := buf[i..i + PACKET_SIZE];
      assert pkt == PacketAt(buf, k);
      var scr := Scr(pkt);
      if scr.Some? {
        arr := arr + [PcrPosition(Pid(pkt), i, scr.value)];
      }
      i := i + PACKET_SIZE;
      k := k + 1;
    }
    assert Pcrs(buf, k) == [];
    assert arr + [] == arr;
    r := Some(arr);
  }

  function OnPid(arr: seq<PcrPosition>, pid: nat): seq<PcrPosition>
  {
    if arr == [] then []
    else if arr[0].pid == pid then [arr[0]] + OnPid(arr[1..], pid)
    else OnPid(arr[1..], pid)
  }

  /** The PCRs of one PID are its marks, one after another. */
  lemma {:induction false} OnPidMarks(buf: Bytes, pid: nat, i: nat)
    requires i <= Packets(buf)
    ensures var j, ps := NextMark(buf, pid, i), OnPid(Pcrs(buf, i), pid);
      ps == if j == Packets(buf) then [] else [PositionOf(buf, j)] + OnPid(Pcrs(buf, j + 1), pid)
    decreases Packets(buf) - i
  {
    hide Scr, Pid, PacketAt, Packets;
    if i < Packets(buf) {
      if Scr(PacketAt(buf, i)).Some? {
        assert Pcrs(buf, i)[1..] == Pcrs(buf, i + 1);
      }
      if !IsMark(buf, pid, i) {
        OnPidMarks(buf, pid, i + 1);
      }
    }
  }

  /** The selection loop: the first two of the PID, and whether there is a third. */
  method FirstTwo(arr: seq<PcrPosition>, pid: nat) returns (count: nat, first: PcrPosition, second: PcrPosition)
    ensures var ps := OnPid(arr, pid);
      && count == (if |ps| < 3 then |ps| else 3)
      && (count >= 1 ==> first == ps[0])
      && (count >= 2 ==> second == ps[1])
  {
    count, first, second := 0, PcrPosition(0, 0, 0), PcrPosition(0, 0, 0);
    var i := 0;
    while i < |arr|
      invariant i <= |arr| && count < 3
      invariant |OnPid(arr, pid)| == count + |OnPid(arr[i..], pid)|
      invariant count == 0 ==> OnPid(arr, pid) == OnPid(arr[i..], pid)
      invariant count == 1 ==> OnPid(arr, pid) == [first] + OnPid(arr[i..], pid)
      invariant count == 2 ==> OnPid(arr, pid) == [first, second] + OnPid(arr[i..], pid)
    {
      assert arr[i..][1..] == arr[i + 1..];
      if arr[i].pid == pid {
        count := count + 1;
        if count == 1 {
          first := arr[i];
        } else if count == 2 {
          second := arr[i];
        } else {
          break;
        }
      }
      i := i + 1;
    }
  }

  // ---------------------------------------------------------------- one interval

  /** An interval in chunks of at most seven packets, each with the PCR of its first packet. */
  function Cut(bytes: Bytes, pcr: int, perPacket: int): seq<Chunk>
    decreases |bytes|
  {
    if bytes == [] then []
    else
      var n := if CHUNK_SIZE > |bytes| then |bytes| else CHUNK_SIZE;
      [Chunk(bytes[..n], pcr, perPacket)] + Cut(bytes[n..], ScrAdd(pcr, perPacket * (n / PACKET_SIZE)), perPacket)
  }

  function Writes(chunks: seq<Chunk>): (w: seq<Call>)
    ensures |w| == |chunks|
  {
    seq(|chunks|, i requires 0 <= i < |chunks| => Write2(chunks[i]))
  }

  lemma CutStep(bytes: Bytes, n: nat, pcr: int, perPacket: int)
    requires bytes != [] && n == if CHUNK_SIZE > |bytes| then |bytes| else CHUNK_SIZE
    ensures Cut(bytes, pcr, perPacket)
            == [Chunk(bytes[..n], pcr, perPacket)] + Cut(bytes[n..], ScrAdd(pcr, perPacket * (n / PACKET_SIZE)),
                perPacket)
  {
  }

  lemma CutNothing(pcr: int, perPacket: int)
    ensures Cut([], pcr, perPacket) == [] && Writes([]) == []
  {
  }

  lemma WritesSnoc(chunks: seq<Chunk>, chunk: Chunk)
    ensures Writes(chunks + [chunk]) == Writes(chunks) + [Write2(chunk)]
  {
  }

  datatype Intake = Intake(ba: Bytes, intervalLast: int, lastReset: int, calls: seq<Call>)

  predicate HasInterval(s: Intake, pid: nat)
  {
    && |s.ba| >= 3 * PACKET_SIZE
    && var a := NextMark(s.ba, pid, 0);
      a < Packets(s.ba) && NextMark(s.ba, pid, a + 1) < Packets(s.ba)
  }

  predicate HasThird(s: Intake, pid: nat)
    requires HasInterval(s, pid)
  {
    var b := NextMark(s.ba, pid, NextMark(s.ba, pid, 0) + 1);
    NextMark(s.ba, pid, b + 1) < Packets(s.ba)
  }

  function PcrAt(buf: Bytes, i: nat): nat
    requires i < Packets(buf) && Scr(PacketAt(buf, i)).Some?
  {
    Scr(PacketAt(buf, i)).value
  }

  /** Ticks a packet of the interval is worth; an interval past fifteen seconds is taken for a jump. */
  function PerPacket(from: int, to: int, packets: nat, last: int): int
    requires packets > 0
  {
    var interval := ScrDiff(from, to);
    if interval > LONGEST_INTERVAL then last else CDiv(interval, packets)
  }

  /** The first two PCRs of the PID, as packet numbers. */
  function First(s: Intake, pid: nat): (a: nat)
    requires HasInterval(s, pid)
    ensures a < Packets(s.ba) && IsMark(s.ba, pid, a)
  {
    NextMark(s.ba, pid, 0)
  }

  function Second(s: Intake, pid: nat): (b: nat)
    requires HasInterval(s, pid)
    ensures First(s, pid) < b < Packets(s.ba) && IsMark(s.ba, pid, b)
  {
    NextMark(s.ba, pid, First(s, pid) + 1)
  }

  function IntervalTicks(s: Intake, pid: nat): int
    requires HasInterval(s, pid)
  {
    ScrDiff(PcrAt(s.ba, First(s, pid)), PcrAt(s.ba, Second(s, pid)))
  }

  function PassPerPacket(s: Intake, pid: nat): int
    requires HasInterval(s, pid)
  {
    PerPacket(PcrAt(s.ba, First(s, pid)), PcrAt(s.ba, Second(s, pid)), Second(s, pid) - First(s, pid), s.intervalLast)
  }

  /** The packets from the first PCR up to the second. */
  function Piece(s: Intake, pid: nat): (piece: Bytes)
    requires HasInterval(s, pid)
    ensures |piece| == PACKET_SIZE * (Second(s, pid) - First(s, pid))
  {
    var a, b := First(s, pid), Second(s, pid);
    s.ba[PACKET_SIZE * a..PACKET_SIZE * b]
  }

  lemma WholePackets(n: nat)
    ensures PACKET_SIZE * n % PACKET_SIZE == 0
  {
  }

  function PassChunks(s: Intake, pid: nat): seq<Chunk>
    requires HasInterval(s, pid)
  {
    Cut(Piece(s, pid), PcrAt(s.ba, First(s, pid)), PassPerPacket(s, pid))
  }

  /** What follows the chunks: the interval is recorded, and after a jump or ten seconds a new timebase is asked for. */
  function PassTail(s: Intake, pid: nat, now: int): seq<Call>
    requires HasInterval(s, pid)
  {
    [RecordInterval(PassPerPacket(s, pid))]
    + if now >= s.lastReset + REBASE_SECONDS || IntervalTicks(s, pid) > LONGEST_INTERVAL then [Rebase] else []
  }

  /** One pass of the do/while: the packets up to the second PCR leave the array. */
  function Pass(s: Intake, pid: nat, now: int): Intake
    requires HasInterval(s, pid)
  {
    Intake(s.ba[PACKET_SIZE * Second(s, pid)..], PassPerPacket(s, pid),
      if now >= s.lastReset + REBASE_SECONDS then now else s.lastReset,
      s.calls + Writes(PassChunks(s, pid)) + PassTail(s, pid, now))
  }

  /** The do/while: a pass as long as there is an interval, and another while a third PCR was seen. */
  function Drained(s: Intake, pid: nat, now: int): Intake
    decreases |s.ba|
  {
    if !HasInterval(s, pid) then s
    else if !HasThird(s, pid) then Pass(s, pid, now)
    else Drained(Pass(s, pid, now), pid, now)
  }

  // ---------------------------------------------------------------- the code

  class SmootherInput {
    const pcrPid: nat
    var ba: Bytes
    var pcrIntervalPerPacketTicksLast: int
    var lastPcrResetTime: int
    var didPcrReset: bool
    /** What has been asked of the queue and the timebase so far. */
    ghost var calls: seq<Call>

    ghost function State(): Intake
      reads this
    {
      Intake(ba, pcrIntervalPerPacketTicksLast, lastPcrResetTime, calls)
    }

    constructor (pid: nat, now: int)
      ensures pcrPid == pid && !didPcrReset && State() == Intake([], 0, now, [])
    {
      pcrPid, ba, pcrIntervalPerPacketTicksLast, lastPcrResetTime, didPcrReset, calls := pid, [], 0, now, false, [];
    }

    /** The inner loop: everything between the two PCRs, in chunks. */
    method WriteInterval(from: nat, byteCount: nat, pcr: int, perPacket: int)
      requires from + byteCount <= |ba|
      modifies `calls
      ensures calls == old(calls) + Writes(Cut(ba[from..from + byteCount], pcr, perPacket))
    {
      hide Cut, Writes, ScrAdd;
      var pcrValue, idx, rem := pcr, 0, byteCount;
      CutNothing(pcr, perPacket);
      ghost var done: seq<Chunk> := [];
      assert calls == old(calls) + Writes(done);
      while rem > 0
        invariant rem >= 0 && idx + rem == byteCount
        invariant calls == old(calls) + Writes(done)
        invariant Cut(ba[from..from + byteCount], pcr, perPacket)
                  == done + Cut(ba[from + idx..from + byteCount], pcrValue, perPacket)
      {
        var cplen := CHUNK_SIZE;
        if cplen > rem {
          cplen := rem;
        }
        ghost var rest := ba[from + idx..from + byteCount];
        var chunk := Chunk(ba[from + idx..from + idx + cplen], pcrValue, perPacket);
        CutStep(rest, cplen, pcrValue, perPacket);
        assert rest[..cplen] == chunk.buf && rest[cplen..] == ba[from + idx + cplen..from + byteCount];
        calls := calls + [Write2(chunk)];
        WritesSnoc(done, chunk);
        done := done + [chunk];
        pcrValue := ScrAdd(pcrValue, perPacket * (cplen / PACKET_SIZE));
        rem := rem - cplen;
        idx := idx + cplen;
      }
      CutNothing(pcrValue, perPacket);
      assert ba[from + idx..from + byteCount] == [];
      assert done + [] == done;
    }

    /** byte_array_trim. */
    method Trim(n: nat)
      modifies `ba
      ensures ba == if n > |old(ba)| then old(ba) else old(ba)[n..]
    {
      if n > |ba| {
        return;
      }
      ba := ba[n..];
    }

    /** What a packet of the interval is worth, and the interval written out. */
    method WriteFrom(first: PcrPosition, second: PcrPosition) returns (perPacket: int)
      requires HasInterval(State(), pcrPid)
      requires first == PositionOf(ba, First(State(), pcrPid)) && second == PositionOf(ba, Second(State(), pcrPid))
      modifies `calls, `didPcrReset
      ensures perPacket == PassPerPacket(old(State()), pcrPid)
      ensures calls == old(calls) + Writes(PassChunks(old(State()), pcrPid))
      ensures didPcrReset == (old(didPcrReset) || IntervalTicks(old(State()), pcrPid) > LONGEST_INTERVAL)
    {
      hide Cut, Writes, First, Second, Scr, Pid, PacketAt, ScrDiff, CDiv, HasInterval, IsMark;
      var byteCount := second.offset - first.offset;
      var pktCount := byteCount / PACKET_SIZE;
      var pcrIntervalTicks := ScrDiff(first.pcr, second.pcr);
      perPacket := CDiv(pcrIntervalTicks, pktCount);
      if pcrIntervalTicks > LONGEST_INTERVAL {
        didPcrReset := true;
        perPacket := pcrIntervalPerPacketTicksLast;
      }
      WriteInterval(first.offset, byteCount, first.pcr, perPacket);
    }

    /** The body of the do/while once two PCRs are known. */
    method WriteOut(first: PcrPosition, second: PcrPosition, now: int)
      requires !didPcrReset && Aligned(ba) && HasInterval(State(), pcrPid)
      requires first == PositionOf(ba, First(State(), pcrPid)) && second == PositionOf(ba, Second(State(), pcrPid))
      modifies this
      ensures State() == Pass(old(State()), pcrPid, now)
      ensures !didPcrReset && Aligned(ba) && |ba| < |old(ba)|
    {
      hide PassChunks, PassPerPacket, Writes, Aligned, First, Second, IntervalTicks, HasInterval, IsMark;
      AlignedRest(ba, Second(State(), pcrPid));
      var perPacket := WriteFrom(first, second);
      Trim(second.offset);
      if now >= lastPcrResetTime + REBASE_SECONDS {
        lastPcrResetTime := now;
        didPcrReset := true;
      }
      pcrIntervalPerPacketTicksLast := perPacket;
      calls := calls + [RecordInterval(perPacket)];
      if didPcrReset {
        calls := calls + [Rebase];
        didPcrReset := false;
      }
    }

    /** smoother_pcr_write, at time `now`. */
    method Write(buf: Bytes, now: int)
      requires !didPcrReset && Aligned(ba) && Aligned(buf)
      modifies this
      ensures State() == Drained(old(State()).(ba := old(ba) + buf), pcrPid, now)
      ensures !didPcrReset && Aligned(ba)
    {
      hide Aligned, Pcrs, OnPid, HasInterval, HasThird, Pass;
      AlignedJoin(ba, buf);
      ba := ba + buf;
      ghost var goal := Drained(State(), pcrPid, now);
      while true
        invariant !didPcrReset && Aligned(ba)
        invariant Drained(State(), pcrPid, now) == goal
        decreases |ba|
      {
        Selected(State(), pcrPid);
        var r := QueryPcrs(ba);
        if r.None? {
          return;
        }
        var pcrCount, first, second := FirstTwo(r.value, pcrPid);
        if pcrCount < 2 {
          return;
        }
        WriteOut(first, second, now);
        if pcrCount <= 2 {
          return;
        }
      }
    }
  }

  // ---------------------------------------------------------------- slices

  lemma PacketJoin(a: Bytes, b: Bytes, i: nat)
    requires |a| % PACKET_SIZE == 0 && i < Packets(a + b)
    ensures Packets(a + b) == Packets(a) + Packets(b)
    ensures PacketAt(a + b, i) == if i < Packets(a) then PacketAt(a, i) else PacketAt(b, i - Packets(a))
  {
  }

  lemma AlignedJoin(a: Bytes, b: Bytes)
    requires Aligned(a) && Aligned(b)
    ensures Aligned(a + b)
  {
    forall i | 0 <= i < Packets(a + b) ensures PacketAt(a + b, i)[0] == SYNC_BYTE {
      PacketJoin(a, b, i);
    }
  }

  lemma AlignedRest(buf: Bytes, k: nat)
    requires Aligned(buf) && k <= Packets(buf)
    ensures Aligned(buf[PACKET_SIZE * k..])
  {
    var rest := buf[PACKET_SIZE * k..];
    forall i | 0 <= i < Packets(rest) ensures PacketAt(rest, i)[0] == SYNC_BYTE {
      assert PacketAt(rest, i) == PacketAt(buf, k + i);
    }
  }

  /** What the two searches select, in terms of the buffer. */
  lemma Selected(s: Intake, pid: nat)
    ensures |s.ba| < 3 * PACKET_SIZE ==> !HasInterval(s, pid)
    ensures |s.ba| >= 3 * PACKET_SIZE ==>
      && var ps := OnPid(Pcrs(s.ba, 0), pid);
      && (HasInterval(s, pid) <==> |ps| >= 2)
      && (HasInterval(s, pid) ==>
        var a := NextMark(s.ba, pid, 0);
        var b := NextMark(s.ba, pid, a + 1);
        ps[0] == PositionOf(s.ba, a) && ps[1] == PositionOf(s.ba, b) && (HasThird(s, pid) <==> |ps| >= 3))
  {
    hide Pcrs, OnPid, NextMark, PacketAt, Packets, Scr, Pid, PositionOf;
    var n := Packets(s.ba);
    OnPidMarks(s.ba, pid, 0);
    var a := NextMark(s.ba, pid, 0);
    if a < n {
      OnPidMarks(s.ba, pid, a + 1);
      var b := NextMark(s.ba, pid, a + 1);
      if b < n {
        OnPidMarks(s.ba, pid, b + 1);
      }
    }
  }
}
