/** The PES extractor, src/pes-extractor.c, over its ring buffer, statistics, clock and ordered list. */
module PesExtractor {
  import opened Bitstream
  import opened Bytes
  import opened OrderedOutput
  import opened Pes
  import opened PesParse
  import opened Reassembly
  import opened TsPacket
  import opened Wrappers
  import Clock = CorrectedClock
  import Ring = KLRingBuffer
  import Stats

  /** The packets of `h` on `pid`, each with the stream's error count once it had arrived. */
  function Watch(pid: nat, h: seq<Packet>): seq<Seen>
  {
    if h == [] then []
    else
      var p := h[|h| - 1];
      Watch(pid, h[..|h| - 1]) + if Pid(p) == pid then [Seen(p, Stats.StreamErrors(h))] else []
  }

  lemma WatchSnoc(pid: nat, h: seq<Packet>, p: Packet)
    ensures Watch(pid, h + [p]) == Watch(pid, h) + if Pid(p) == pid then [Seen(p, Stats.StreamErrors(h + [p]))] else []
  {
    assert (h + [p])[..|h|] == h;
  }

  lemma RunSnoc(lim: Limits, o: seq<Seen>, x: Seen)
    ensures Run(lim, o + [x]) == Step(Run(lim, o), lim, x)
  {
    assert (o + [x])[..|o|] == o;
  }

  /**
   * A unit whose parse this model follows to its end: no other stream id, no other header parts, all inside the
   * buffer.
   */
  predicate Followed(unit: Bytes, skipData: bool)
  {
    var r := ParsePes(unit, skipData);
    r.TooShort? || r.Parsed?
  }

  /** The PES that such a unit gives, if any. */
  function Delivered(unit: Bytes, skipData: bool): Option<PesPacket>
  {
    match ParsePes(unit, skipData)
    case Parsed(p, bits, overrun, _) => if !overrun && bits != 0 then Some(p) else None
    case _ => None
  }

  /** Where PES go: what the callback has had, what is held back, and the clock that orders it. */
  datatype Outlet = Outlet(emitted: seq<PesPacket>, held: seq<Entry<PesPacket>>, clock: Clock.ClockState)

  /** A PES goes to the callback at once, or into the ordered list under its unwrapped PTS. */
  ghost function Through(o: Outlet, ordered: bool, p: PesPacket): Outlet
  {
    if !ordered then o.(emitted := o.emitted + [p])
    else
      var clock := Clock.AfterUpdate(o.clock, p.pts).0;
      Outlet(o.emitted + (if Emits(o.held) then [o.held[0].pes] else []), After(o.held, Entry(clock.unwrapped, p)),
          clock)
  }

  ghost function UnitThrough(o: Outlet, ordered: bool, skipData: bool, unit: Bytes): Outlet
  {
    match Delivered(unit, skipData) case Some(p) => Through(o, ordered, p) case None => o
  }

  /** All of `units`, in order. */
  ghost function UnitsThrough(o: Outlet, ordered: bool, skipData: bool, units: seq<Bytes>): Outlet
  {
    if units == [] then o
    else UnitThrough(UnitsThrough(o, ordered, skipData, units[..|units| - 1]), ordered, skipData, units[|units| - 1])
  }

  /** What becomes of the outlet as `units` go through it, when the parses of all of them are followed. */
  ghost predicate GoesThrough(o: Outlet, ordered: bool, skipData: bool, units: seq<Bytes>, after: Outlet)
  {
    (forall k :: 0 <= k < |units| ==> Followed(units[k], skipData))
        ==> after == UnitsThrough(o, ordered, skipData, units)
  }

  lemma GoesThroughAppend(o: Outlet, ordered: bool, skipData: bool, a: seq<Bytes>, middle: Outlet, b: seq<Bytes>,
      after: Outlet)
    requires GoesThrough(o, ordered, skipData, a, middle) && GoesThrough(middle, ordered, skipData, b, after)
    ensures GoesThrough(o, ordered, skipData, a + b, after)
  {
    hide Followed, UnitsThrough;
    if forall k :: 0 <= k < |a + b| ==> Followed((a + b)[k], skipData) {
      assert forall k :: 0 <= k < |a| ==> a[k] == (a + b)[k];
      assert forall k :: 0 <= k < |b| ==> b[k] == (a + b)[|a| + k];
      UnitsThroughAppend(o, ordered, skipData, a, b);
    }
  }

  /** The units handed over since `before`. */
  function Newly(before: seq<Bytes>, after: seq<Bytes>): seq<Bytes>
  {
    if |before| <= |after| then after[|before|..] else []
  }

  lemma {:induction false} UnitsThroughAppend(o: Outlet, ordered: bool, skipData: bool, a: seq<Bytes>, b: seq<Bytes>)
    ensures UnitsThrough(o, ordered, skipData, a + b)
            == UnitsThrough(UnitsThrough(o, ordered, skipData, a), ordered, skipData, b)
  {
    if b == [] {
      assert a + b == a;
    } else {
      var n := |b| - 1;
      assert (a + b)[..|a + b| - 1] == a + b[..n];
      UnitsThroughAppend(o, ordered, skipData, a, b[..n]);
    }
  }

  class PesExtractor {
    const pid: nat
    const rb: Ring.RingBuffer
    const libstats: Stats.StreamStatistics
    const listOrdered: OrderedList<PesPacket>
    const correctedClock: Clock.CorrectedClock
    var appending: bool
    var computedRingSize: nat
    var lastCCCounter: nat
    var skipDataExtraction: bool
    var orderedOutput: bool
    /** The process has called abort(). */
    var aborted: bool
    /** What the callback has been given, in order. */
    var emitted: seq<PesPacket>
    /** What has been appended since the ring was last emptied, and what has reached the parser. */
    ghost var acc: Bytes
    ghost var handed: seq<Bytes>

    ghost function Limit(): Limits
    {
      Limits(rb.sizeInitial, rb.sizeMax)
    }

    ghost function State(): State
      reads this`appending, this`acc, this`lastCCCounter, this`handed, this`aborted, rb
    {
      Reassembly.State(appending, acc, rb.fill, rb.size, lastCCCounter, handed, aborted)
    }

    /** The ring holds what was appended, unless it has overflowed since it was last emptied. */
    ghost predicate RingAgrees()
      reads this`acc, this`computedRingSize, rb, rb.data
    {
      && rb.Valid() && UsableLimits(Limit())
      && RingSane(Start(Limit()).(acc := acc, fill := rb.fill, size := rb.size), Limit())
      && computedRingSize == |acc|
      && (rb.fill == |acc| ==> rb.head == 0 && rb.Contents() == acc)
    }

    ghost predicate ClockSane()
      reads correctedClock
    {
      var c := correctedClock.State();
      c.initialized && c.unwrapped >= 0 && c.unwrapped % Clock.CLK_MOD == c.lastTick
    }

    ghost predicate Valid()
      reads this, rb, rb.data, libstats, listOrdered, correctedClock
    {
      && RingAgrees()
      && libstats.Valid() && listOrdered.Valid() && ClockSane()
      && State() == Run(Limit(), Watch(pid, libstats.history))
    }

    constructor (pid: nat, bufferMin: nat, bufferMax: nat)
      requires 2 * 184 <= bufferMin <= bufferMax
      ensures Valid() && this.pid == pid && libstats.history == [] && listOrdered.held == []
      ensures Limit() == Limits(bufferMin, bufferMax)
      ensures !aborted && handed == [] && emitted == [] && !orderedOutput && !skipDataExtraction
      ensures fresh(rb) && fresh(rb.data) && fresh(libstats) && fresh(listOrdered) && fresh(correctedClock)
    {
      this.pid := pid;
      this.rb := new Ring.RingBuffer(bufferMin, bufferMax);
      this.libstats := new Stats.StreamStatistics();
      this.listOrdered := new OrderedList();
      var clock := new Clock.CorrectedClock();
      this.correctedClock := clock;
      appending, computedRingSize, lastCCCounter := false, 0, 0;
      skipDataExtraction, orderedOutput, aborted := false, false, false;
      emitted, acc, handed := [], [], [];
      new;
      var ret := clock.Init(90000);
    }

    method EmptyRing()
      requires RingAgrees()
      modifies this`computedRingSize, this`acc, rb`head, rb`fill
      ensures RingAgrees() && State() == Emptied(old(State()))
    {
      rb.Empty();
      computedRingSize := 0;
      acc := [];
    }

    /** Appends a payload to the ring and to the count. */
    method AppendToRing(payload: Bytes) returns (didOverflow: bool)
      requires RingAgrees() && |payload| <= 184
      modifies this`computedRingSize, this`acc, rb, rb.data
      ensures RingAgrees() && (rb.data == old(rb.data) || fresh(rb.data))
      ensures State() == Append(old(State()), Limit(), payload)
      ensures didOverflow == Overflows(old(State()), Limit(), |payload|)
    {
      computedRingSize := computedRingSize + |payload|;
      didOverflow := rb.WriteWithState(payload);
      acc := acc + payload;
    }

    ghost function Out(): Outlet
      reads this`emitted, listOrdered, correctedClock
    {
      Outlet(emitted, listOrdered.held, correctedClock.State())
    }

    /**
     * A parsed PES goes to the callback at once, or into the ordered list under its unwrapped PTS,
     * which may push the smallest one held out to the callback.
     */
    method Deliver(pes: PesPacket)
      requires listOrdered.Valid() && ClockSane()
      modifies this`emitted, listOrdered, correctedClock
      ensures listOrdered.Valid() && ClockSane()
      ensures Out() == Through(old(Out()), orderedOutput, pes)
    {
      if orderedOutput {
        Clock.UpdateKeeps(correctedClock.State(), pes.pts);
        var ret := correctedClock.Update(pes.pts);
        var oldest := listOrdered.Arrive(correctedClock.unwrapped, pes);
        if oldest.Some? {
          emitted := emitted + [oldest.value];
        }
      } else {
        emitted := emitted + [pes];
      }
    }

    /** Parses what the ring holds and passes it on; gives up when the ring and the count disagree. */
    method ProcessRing() returns (ret: int)
      requires RingAgrees() && listOrdered.Valid() && ClockSane() && !aborted
      modifies this`aborted, this`handed, this`emitted, rb, listOrdered, correctedClock
      ensures RingAgrees() && listOrdered.Valid() && ClockSane()
      ensures State() == Reassembly.ProcessRing(old(State())) && rb.data == old(rb.data)
      ensures GoesThrough(old(Out()), orderedOutput, skipDataExtraction, Newly(old(handed), handed), Out())
    {
      hide UnitThrough, Followed, GoesThrough;
      NothingNew(Out(), orderedOutput, skipDataExtraction, handed);
      var rlen := rb.fill;
      if rlen == 0 {
        return -1;
      }
      if computedRingSize != rlen {
        aborted := true;
        return -1;
      }
      if rlen < 16 {
        aborted := true;
        return -1;
      }
      var peeked := rb.Reader(rlen, false);
      assert peeked == acc;
      handed := handed + [acc];
      ghost var before := Out();
      var overrun := ParseAndDeliver(peeked);
      OneNew(before, orderedOutput, skipDataExtraction, old(handed), peeked, Out());
      ret := if overrun then -2 else 0;
    }

    /** Parses one unit, and delivers what comes of it. */
    method ParseAndDeliver(unit: Bytes) returns (overrun: bool)
      requires listOrdered.Valid() && ClockSane()
      modifies this`emitted, listOrdered, correctedClock
      ensures listOrdered.Valid() && ClockSane()
      ensures Followed(unit, skipDataExtraction) ==>
        Out() == UnitThrough(old(Out()), orderedOutput, skipDataExtraction, unit)
    {
      hide Through, ParsePes;
      var buf := new byte[|unit|](i requires 0 <= i < |unit| => unit[i]);
      assert buf[..] == unit;
      var bs := new BitStream(buf);
      var r := Parse(bs, skipDataExtraction);
      if r.Parsed? && !r.overrun && r.bits != 0 {
        Deliver(r.pes);
      }
      overrun := r.Parsed? && r.overrun;
    }

    /** One turn of the loop, for a packet on this PID, once the statistics have seen it. */
    method Accept(pkt: Packet, c: nat)
      requires RingAgrees() && listOrdered.Valid() && ClockSane() && !aborted
      requires AdaptionFits(pkt)
      modifies this`appending, this`computedRingSize, this`lastCCCounter, this`acc, this`aborted, this`handed,
               this`emitted, rb, rb.data, listOrdered, correctedClock
      ensures RingAgrees() && listOrdered.Valid() && ClockSane()
      ensures rb.data == old(rb.data) || fresh(rb.data)
      ensures State() == Step(old(State()), Limit(), Seen(pkt, c))
      ensures GoesThrough(old(Out()), orderedOutput, skipDataExtraction, Newly(old(handed), handed), Out())
    {
      hide GoesThrough, Payload, Pusi, AdaptionOnly, NewUnit, Append, Overflows, RingAgrees;
      NothingNew(Out(), orderedOutput, skipDataExtraction, handed);
      if lastCCCounter != c {
        appending := false;
        EmptyRing();
      }
      lastCCCounter := c;
      if AdaptionOnly(pkt) {
        return;
      }
      if !Pusi(pkt) && !appending {
        return;
      }
      if Pusi(pkt) && !appending {
        appending := true;
        EmptyRing();
      }
      if !Pusi(pkt) {
        var didOverflow := AppendToRing(Payload(pkt));
      } else {
        StartUnit(Payload(pkt));
      }
    }

    /** The unit in the ring, if any, is over; a new one begins. */
    method StartUnit(payload: Bytes)
      requires RingAgrees() && listOrdered.Valid() && ClockSane() && !aborted && |payload| <= 184
      modifies this`computedRingSize, this`acc, this`aborted, this`handed, this`emitted,
               rb, rb.data, listOrdered, correctedClock
      ensures RingAgrees() && listOrdered.Valid() && ClockSane()
      ensures rb.data == old(rb.data) || fresh(rb.data)
      ensures State() == NewUnit(old(State()), Limit(), payload)
      ensures GoesThrough(old(Out()), orderedOutput, skipDataExtraction, Newly(old(handed), handed), Out())
    {
      hide GoesThrough, RingAgrees, Append, Overflows;
      var ret := ProcessRing();
      if aborted {
        return;
      }
      EmptyRing();
      var didOverflow := AppendToRing(payload);
      if didOverflow {
        aborted := true;
      }
    }

    /** ltntstools_pes_extractor_write, one packet: the statistics see every packet, the rest only this PID's. */
    method WritePacket(pkt: Packet)
      requires Valid() && !aborted
      requires Pid(pkt) == pid ==> AdaptionFits(pkt)
      modifies this`appending, this`computedRingSize, this`lastCCCounter, this`acc, this`aborted, this`handed,
               this`emitted, rb, rb.data, libstats, listOrdered, correctedClock
      ensures Valid() && (rb.data == old(rb.data) || fresh(rb.data))
      ensures libstats.history == old(libstats.history) + [pkt]
      ensures old(handed) <= handed
      ensures GoesThrough(old(Out()), orderedOutput, skipDataExtraction, Newly(old(handed), handed), Out())
    {
      hide GoesThrough, RingAgrees, Run, Step, Watch, Pid, AdaptionFits, Stats.StreamStatistics.Valid,
          OrderedList.Valid, ClockSane;
      ghost var h := libstats.history;
      libstats.Update([pkt]);
      WatchSnoc(pid, h, pkt);
      if Pid(pkt) != pid {
        assert Watch(pid, h) + [] == Watch(pid, h);
        NothingNew(Out(), orderedOutput, skipDataExtraction, handed);
        return;
      }
      RunSnoc(Limit(), Watch(pid, h), Seen(pkt, libstats.ccErrors));
      StepHands(State(), Limit(), Seen(pkt, libstats.ccErrors));
      Accept(pkt, libstats.ccErrors);
    }

    /** ltntstools_pes_extractor_write. Once the process has given up, no more packets are looked at. */
    method Write(pkts: seq<Packet>) returns (ghost n: nat)
      requires Valid() && !aborted
      requires forall p :: p in pkts && Pid(p) == pid ==> AdaptionFits(p)
      modifies this`appending, this`computedRingSize, this`lastCCCounter, this`acc, this`aborted, this`handed,
               this`emitted, rb, rb.data, libstats, listOrdered, correctedClock
      ensures Valid() && (rb.data == old(rb.data) || fresh(rb.data))
      ensures n <= |pkts| && (!aborted ==> n == |pkts|) && libstats.history == old(libstats.history) + pkts[..n]
      ensures old(handed) <= handed
      ensures GoesThrough(old(Out()), orderedOutput, skipDataExtraction, Newly(old(handed), handed), Out())
    {
      hide GoesThrough, Valid, Pid, AdaptionFits;
      NothingNew(Out(), orderedOutput, skipDataExtraction, handed);
      n := 0;
      var i := 0;
      ghost var out0, handed0 := Out(), handed;
      while i < |pkts| && !aborted
        invariant i <= |pkts| && n == i && Valid() && (rb.data == old(rb.data) || fresh(rb.data))
        invariant libstats.history == old(libstats.history) + pkts[..i]
        invariant handed0 <= handed
        invariant GoesThrough(out0, orderedOutput, skipDataExtraction, Newly(handed0, handed), Out())
      {
        ghost var out1, handed1 := Out(), handed;
        assert pkts[i] in pkts;
        WritePacket(pkts[i]);
        GoesThroughAppend(out0, orderedOutput, skipDataExtraction, Newly(handed0, handed1), out1,
                          Newly(handed1, handed), Out());
        assert Newly(handed0, handed1) + Newly(handed1, handed) == Newly(handed0, handed);
        assert pkts[..i + 1] == pkts[..i] + [pkts[i]];
        i := i + 1;
        n := i;
      }
    }
  }

  lemma NothingNew(o: Outlet, ordered: bool, skipData: bool, handed: seq<Bytes>)
    ensures GoesThrough(o, ordered, skipData, Newly(handed, handed), o)
  {
  }

  lemma OneNew(o: Outlet, ordered: bool, skipData: bool, handed: seq<Bytes>, unit: Bytes, after: Outlet)
    requires Followed(unit, skipData) ==> after == UnitThrough(o, ordered, skipData, unit)
    ensures GoesThrough(o, ordered, skipData, Newly(handed, handed + [unit]), after)
  {
    hide Followed, UnitThrough;
    var one := [unit];
    assert Newly(handed, handed + [unit]) == one;
    assert one[..|one| - 1] == [] && one[0] == unit;
    assert UnitsThrough(o, ordered, skipData, []) == o;
  }

  lemma StepHands(s: State, lim: Limits, x: Seen)
    ensures s.handed <= Step(s, lim, x).handed
  {
  }
}
