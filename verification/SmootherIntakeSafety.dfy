/** The smoother's intake over any sequence of writes of whole packets: nothing is lost, and the stamps interpolate. */
module SmootherIntakeSafety {
  import opened Bytes
  import opened CArith
  import opened TsPacket
  import opened ScrClock
  import opened SmootherProtocol
  import opened SmootherIntake

  /** One call of smoother_pcr_write and the time it is made. */
  datatype Input = Input(buf: Bytes, now: int)

  predicate AllAligned(ws: seq<Input>)
  {
    forall i :: 0 <= i < |ws| ==> Aligned(ws[i].buf)
  }

  function AfterWrites(ws: seq<Input>, pid: nat, start: int): Intake
  {
    if ws == [] then Intake([], 0, start, [])
    else
      var s := AfterWrites(ws[..|ws| - 1], pid, start);
      Drained(s.(ba := s.ba + ws[|ws| - 1].buf), pid, ws[|ws| - 1].now)
  }

  function Received(ws: seq<Input>): Bytes
  {
    if ws == [] then [] else Received(ws[..|ws| - 1]) + ws[|ws| - 1].buf
  }

  /** The bytes handed to smoother_pcr_write2, in order. */
  function Queued(calls: seq<Call>): Bytes
  {
    if calls == [] then []
    else
      var last := calls[|calls| - 1];
      Queued(calls[..|calls| - 1]) + if last.Write2? then last.chunk.buf else []
  }

  lemma {:induction false} QueuedAppend(a: seq<Call>, b: seq<Call>)
    ensures Queued(a + b) == Queued(a) + Queued(b)
  {
    if b == [] {
      assert a + b == a;
    } else {
      var init, last := b[..|b| - 1], b[|b| - 1];
      assert (a + b)[..|a + b| - 1] == a + init;
      QueuedAppend(a, init);
    }
  }

  lemma QueuedOne(call: Call)
    ensures Queued([call]) == if call.Write2? then call.chunk.buf else []
  {
    assert [call][..0] == [];
    assert Queued([]) == [];
  }

  lemma {:induction false} CutWhole(bytes: Bytes, pcr: int, perPacket: int)
    ensures Queued(Writes(Cut(bytes, pcr, perPacket))) == bytes
    decreases |bytes|
  {
    hide Queued, ScrAdd;
    if bytes == [] {
      CutNothing(pcr, perPacket);
      QueuedNone();
    } else {
      var n := if CHUNK_SIZE > |bytes| then |bytes| else CHUNK_SIZE;
      var head, rest := Chunk(bytes[..n], pcr, perPacket), Cut(bytes[n..], ScrAdd(pcr,
          perPacket * (n / PACKET_SIZE)), perPacket);
      assert Writes([head] + rest) == [Write2(head)] + Writes(rest);
      QueuedAppend([Write2(head)], Writes(rest));
      QueuedOne(Write2(head));
      CutWhole(bytes[n..], ScrAdd(pcr, perPacket * (n / PACKET_SIZE)), perPacket);
    }
  }

  lemma QueuedNone()
    ensures Queued([]) == []
  {
  }

  lemma WholeRest(a: nat, k: nat)
    requires a % PACKET_SIZE == 0 && PACKET_SIZE * k <= a
    ensures (a - PACKET_SIZE * k) % PACKET_SIZE == 0
  {
  }

  // ---------------------------------------------------------------- nothing lost

  /** From the first PCR of the PID on, what is queued and what is in the array are the input. */
  predicate Kept(s: Intake, pid: nat, input: Bytes)
  {
    && |input| % PACKET_SIZE == 0 && |s.ba| % PACKET_SIZE == 0
    && (s.calls == [] ==> s.ba == input)
    && (s.calls != [] ==>
      && NextMark(input, pid, 0) < Packets(input)
      && Queued(s.calls) + s.ba == input[PACKET_SIZE * NextMark(input, pid, 0)..]
      && Packets(s.ba) > 0 && IsMark(s.ba, pid, 0))
  }

  lemma {:induction false} MarkJoin(a: Bytes, b: Bytes, pid: nat, i: nat)
    requires |a| % PACKET_SIZE == 0 && i <= Packets(a) && NextMark(a, pid, i) < Packets(a)
    ensures i <= Packets(a + b) && NextMark(a + b, pid, i) == NextMark(a, pid, i)
    decreases Packets(a) - i
  {
    PacketJoin(a, b, i);
    if !IsMark(a, pid, i) {
      MarkJoin(a, b, pid, i + 1);
    }
  }

  lemma KeptJoin(s: Intake, pid: nat, input: Bytes, buf: Bytes)
    requires Kept(s, pid, input) && |buf| % PACKET_SIZE == 0
    ensures Kept(s.(ba := s.ba + buf), pid, input + buf)
  {
    SizesJoin(input, buf);
    SizesJoin(s.ba, buf);
    if s.calls != [] {
      hide Queued, IsMark, NextMark;
      MarkJoin(input, buf, pid, 0);
      FirstStays(s.ba, buf, pid);
      RestJoin(input, buf, PACKET_SIZE * NextMark(input, pid, 0));
      assert Queued(s.calls) + (s.ba + buf) == (Queued(s.calls) + s.ba) + buf;
    }
  }

  lemma SizesJoin(a: Bytes, b: Bytes)
    requires |a| % PACKET_SIZE == 0 && |b| % PACKET_SIZE == 0
    ensures |a + b| % PACKET_SIZE == 0 && Packets(a) <= Packets(a + b)
  {
  }

  lemma FirstStays(a: Bytes, b: Bytes, pid: nat)
    requires |a| % PACKET_SIZE == 0 && Packets(a) > 0 && IsMark(a, pid, 0) && Packets(a) <= Packets(a + b)
    ensures IsMark(a + b, pid, 0)
  {
    hide Scr, Pid, PacketAt;
    PacketJoin(a, b, 0);
  }

  lemma RestJoin(a: Bytes, b: Bytes, n: nat)
    requires n <= |a|
    ensures (a + b)[n..] == a[n..] + b
  {
  }

  lemma PassQueues(s: Intake, pid: nat, now: int)
    requires HasInterval(s, pid)
    ensures Pass(s, pid, now).calls != []
    ensures Queued(Pass(s, pid, now).calls) == Queued(s.calls) + Piece(s, pid)
  {
    hide Queued, Writes, Cut, First, Second, PerPacket, IntervalTicks;
    var writes, tail := Writes(PassChunks(s, pid)), PassTail(s, pid, now);
    CutWhole(Piece(s, pid), PcrAt(s.ba, First(s, pid)), PassPerPacket(s, pid));
    QueuedAppend(s.calls, writes);
    QueuedAppend(s.calls + writes, tail);
    QueuedNone();
    QueuedOne(Rebase);
    QueuedOne(tail[0]);
    QueuedAppend([tail[0]], tail[1..]);
    assert tail == [tail[0]] + tail[1..];
  }

  lemma RestMark(buf: Bytes, pid: nat, b: nat)
    requires |buf| % PACKET_SIZE == 0 && b < Packets(buf) && IsMark(buf, pid, b)
    ensures var rest := buf[PACKET_SIZE * b..];
      Packets(rest) == Packets(buf) - b && |rest| % PACKET_SIZE == 0 && IsMark(rest, pid, 0)
  {
    assert PacketAt(buf[PACKET_SIZE * b..], 0) == PacketAt(buf, b);
  }

  lemma Rejoined(q: Bytes, ba: Bytes, i: nat, j: nat)
    requires i <= j <= |ba|
    ensures q + ba[i..j] + ba[j..] == q + ba[i..]
  {
  }

  lemma KeptPass(s: Intake, pid: nat, now: int, input: Bytes)
    requires Kept(s, pid, input) && HasInterval(s, pid)
    ensures Kept(Pass(s, pid, now), pid, input)
  {
    hide Queued, Scr, PacketAt, Writes, PassTail, Cut, PerPacket;
    PassQueues(s, pid, now);
    RestMark(s.ba, pid, Second(s, pid));
    Rejoined(Queued(s.calls), s.ba, PACKET_SIZE * First(s, pid), PACKET_SIZE * Second(s, pid));
    if s.calls == [] {
      QueuedNone();
    }
  }

  lemma {:induction false} KeptDrained(s: Intake, pid: nat, now: int, input: Bytes)
    requires Kept(s, pid, input)
    ensures Kept(Drained(s, pid, now), pid, input)
    decreases |s.ba|
  {
    hide Kept, Pass, HasThird;
    if HasInterval(s, pid) {
      KeptPass(s, pid, now, input);
      if HasThird(s, pid) {
        PassShrinks(s, pid, now);
        KeptDrained(Pass(s, pid, now), pid, now, input);
      }
    }
  }

  lemma PassShrinks(s: Intake, pid: nat, now: int)
    requires HasInterval(s, pid)
    ensures |Pass(s, pid, now).ba| < |s.ba|
  {
    hide NextMark;
  }

  /** Nothing is lost, whatever the writes: from the first PCR of the PID on, queued and waiting bytes are the input. */
  lemma {:induction false} NothingDropped(ws: seq<Input>, pid: nat, start: int)
    requires AllAligned(ws)
    ensures Kept(AfterWrites(ws, pid, start), pid, Received(ws))
  {
    hide Kept, Drained;
    if ws == [] {
      NothingYet(pid, start);
    } else {
      var init, last := ws[..|ws| - 1], ws[|ws| - 1];
      NothingDropped(init, pid, start);
      assert Aligned(last.buf);
      var s := AfterWrites(init, pid, start);
      KeptJoin(s, pid, Received(init), last.buf);
      KeptDrained(s.(ba := s.ba + last.buf), pid, last.now, Received(ws));
    }
  }

  lemma NothingYet(pid: nat, start: int)
    ensures Kept(Intake([], 0, start, []), pid, [])
  {
  }

  // ---------------------------------------------------------------- what is left in the array

  lemma {:induction false} RestNextMark(buf: Bytes, pid: nat, b: nat, i: nat)
    requires |buf| % PACKET_SIZE == 0 && b <= i <= Packets(buf)
    ensures var rest := buf[PACKET_SIZE * b..];
      Packets(rest) == Packets(buf) - b && NextMark(rest, pid, i - b) == NextMark(buf, pid, i) - b
    decreases Packets(buf) - i
  {
    hide Scr, Pid;
    var rest := buf[PACKET_SIZE * b..];
    if i < Packets(buf) {
      assert PacketAt(rest, i - b) == PacketAt(buf, i);
      if !IsMark(buf, pid, i) {
        RestNextMark(buf, pid, b, i + 1);
      }
    }
  }

  lemma NoThird(s: Intake, pid: nat, now: int)
    requires |s.ba| % PACKET_SIZE == 0 && HasInterval(s, pid) && !HasThird(s, pid)
    ensures !HasInterval(Pass(s, pid, now), pid)
  {
    hide Scr, Pid, PacketAt, Cut, Writes, PerPacket;
    var b := NextMark(s.ba, pid, NextMark(s.ba, pid, 0) + 1);
    RestNextMark(s.ba, pid, b, b);
    RestNextMark(s.ba, pid, b, b + 1);
  }

  lemma {:induction false} DrainedDry(s: Intake, pid: nat, now: int)
    requires |s.ba| % PACKET_SIZE == 0
    ensures !HasInterval(Drained(s, pid, now), pid)
    decreases |s.ba|
  {
    hide Pass, NextMark;
    if HasInterval(s, pid) {
      if HasThird(s, pid) {
        PassShrinks(s, pid, now);
        PassWhole(s, pid, now);
        DrainedDry(Pass(s, pid, now), pid, now);
      } else {
        NoThird(s, pid, now);
      }
    }
  }

  lemma PassWhole(s: Intake, pid: nat, now: int)
    requires |s.ba| % PACKET_SIZE == 0 && HasInterval(s, pid)
    ensures |Pass(s, pid, now).ba| % PACKET_SIZE == 0
  {
    hide First, Writes, PassChunks, PassPerPacket, PassTail, HasInterval, NextMark, IsMark;
    WholeRest(|s.ba|, Second(s, pid));
  }

  lemma OneMark(s: Intake, pid: nat, i: nat, j: nat)
    requires |s.ba| >= 3 * PACKET_SIZE && !HasInterval(s, pid) && i < j < Packets(s.ba)
    ensures !(IsMark(s.ba, pid, i) && IsMark(s.ba, pid, j))
  {
    hide IsMark, Packets;
    var a := NextMark(s.ba, pid, 0);
    if a < Packets(s.ba) {
      var b := NextMark(s.ba, pid, a + 1);
      assert b == Packets(s.ba);
    }
  }

  /** After every write the array holds at most one PCR of the PID, or fewer than three packets. */
  lemma AtMostOnePcrWaits(ws: seq<Input>, pid: nat, start: int)
    requires AllAligned(ws) && ws != []
    ensures var ba := AfterWrites(ws, pid, start).ba;
      || Packets(ba) < 3
      || forall i, j :: 0 <= i < j < Packets(ba) ==> !(IsMark(ba, pid, i) && IsMark(ba, pid, j))
  {
    hide Kept, NextMark, IsMark, Drained, HasInterval;
    var init, last := ws[..|ws| - 1], ws[|ws| - 1];
    NothingDropped(init, pid, start);
    assert Aligned(last.buf);
    var s := AfterWrites(init, pid, start);
    KeptJoin(s, pid, Received(init), last.buf);
    WholeArray(s.(ba := s.ba + last.buf), pid, Received(init) + last.buf);
    DrainedDry(s.(ba := s.ba + last.buf), pid, last.now);
    var t := AfterWrites(ws, pid, start);
    if Packets(t.ba) >= 3 {
      forall i, j | 0 <= i < j < Packets(t.ba) ensures !(IsMark(t.ba, pid, i) && IsMark(t.ba, pid, j)) {
        OneMark(t, pid, i, j);
      }
    }
  }

  lemma WholeArray(s: Intake, pid: nat, input: Bytes)
    requires Kept(s, pid, input)
    ensures |s.ba| % PACKET_SIZE == 0
  {
  }
}
