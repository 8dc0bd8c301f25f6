/**
 * When the smoother sends: for every item, in every interleaving, the time it is scheduled for in terms of the
 * chunks given, the times they were filled in at, and the timebases asked for. Nothing here uses the smoother's own
 * arithmetic.
 */
module SmootherSchedule {
  import opened Bytes
  import opened CArith
  import opened ScrClock
  import opened SmootherProtocol
  import opened SmootherSafety
  import opened Wrappers

  // ---------------------------------------------------------------- what the actions amount to

  /** A timebase: the first stamp filled in since it was asked for, and the time at which it was. */
  datatype Base = Base(stamp: int, wall: int)

  /** A chunk as it is filled in, the timebase that holds, and the interval recorded last. */
  datatype Planned = Planned(chunk: Chunk, base: Base, interval: int)

  datatype Plan = Plan(base: Option<Base>, hand: Option<Chunk>, interval: int, planned: seq<Planned>)

  function Planning(p: Plan, a: Action): Plan
  {
    match a
    case Take(chunk) => p.(hand := Some(chunk))
    case FillIn(now) =>
      if p.hand.None? then p
      else
        var base := if p.base.Some? then p.base.value else Base(p.hand.value.pcr, now);
        p.(base := Some(base), planned := p.planned + [Planned(p.hand.value, base, p.interval)])
    case RecordInterval(ticks) => p.(interval := ticks)
    case Rebase => p.(base := None)
    case _ => p
  }

  function PlanFrom(p: Plan, run: seq<Action>): Plan
    decreases |run|
  {
    if run == [] then p else PlanFrom(Planning(p, run[0]), run[1..])
  }

  /** What a whole run from the start plans. */
  function PlanOf(run: seq<Action>): Plan
  {
    PlanFrom(Plan(None, None, 0, []), run)
  }

  /** The stamp lies `d` ticks on from the first one: not past the clock's wrap, or less than five seconds past it. */
  predicate AheadBy(first: int, stamp: int, d: int)
  {
    d >= 0 && (stamp == first + d || (stamp == first + d - 2576980377600 && 0 <= stamp < 135000000 && stamp < first))
  }

  /** Or it lies before the first one by as many, where that is not taken for a wrap. */
  predicate LiesAt(first: int, stamp: int, d: int)
  {
    AheadBy(first, stamp, d) || (d < 0 && stamp == first + d && stamp >= 135000000)
  }

  /** As many microseconds as `ticks` of the clock are, rounded towards none. */
  predicate Micros(us: int, ticks: int)
  {
    if ticks >= 0 then 27 * us <= ticks < 27 * us + 27 else 27 * us - 27 < ticks <= 27 * us
  }

  /** So long after the time of the first stamp, and the latency. */
  predicate OnTime(scheduled: int, base: Base, d: int, latency: int)
  {
    Micros(scheduled - base.wall - latency, d)
  }

  /** Behind an item that is later than it: after that one by what its packets take at the interval recorded. */
  predicate Behind(scheduled: int, before: int, pl: Planned)
  {
    Micros(scheduled - before, pl.interval * (|pl.chunk.buf| / 188))
  }

  /** The time of an item, given the one before it in the line, if there is one. */
  ghost predicate WellTimed(e: Item, before: Option<Item>, pl: Planned, latency: int)
  {
    && ChunkOf(e) == pl.chunk
    && forall d :: LiesAt(pl.base.stamp, pl.chunk.pcr, d) ==>
      || OnTime(e.scheduled, pl.base, d, latency)
      || (before.Some? && Behind(e.scheduled, before.value.scheduled, pl)
          && exists t :: OnTime(t, pl.base, d, latency) && before.value.scheduled > t)
  }

  // ---------------------------------------------------------------- the invariant

  function BeforeIn(line: seq<Item>, i: nat): Option<Item>
    requires i < |line|
  {
    if i == 0 then None else Some(line[i - 1])
  }

  ghost predicate LineTimed(line: seq<Item>, planned: seq<Planned>, latency: int)
  {
    |line| <= |planned| && forall i :: 0 <= i < |line| ==> WellTimed(line[i], BeforeIn(line, i), planned[i], latency)
  }

  ghost predicate HandTimed(s: Smoothing, p: Plan, n: nat)
  {
    match s.producer
    case Idle => |p.planned| == n
    case Taken(_, chunk) => |p.planned| == n && p.hand == Some(chunk)
    case Filled(e) =>
      && |p.planned| == n + 1 && ChunkOf(e) == p.planned[n].chunk && p.planned[n].interval == p.interval
      && forall d :: LiesAt(p.planned[n].base.stamp, e.pcr, d) ==>
           OnTime(e.scheduled, p.planned[n].base, d, s.latency)
  }

  ghost predicate BaseAgrees(s: Smoothing, p: Plan)
  {
    && s.intervalLast == p.interval
    && (match p.base case None => s.pcrFirst == -1
        case Some(b) => b.stamp >= 0 && s.pcrFirst == b.stamp && s.walltimeFirst == b.wall)
    && (p.hand.Some? ==> p.hand.value.pcr >= 0)
  }

  ghost predicate Agrees(s: Smoothing, p: Plan)
  {
    BaseAgrees(s, p) && HandTimed(s, p, |Line(s)|) && LineTimed(Line(s), p.planned, s.latency)
  }

  /** Chunks are stamped with values of the clock. */
  predicate StampedAction(a: Action)
  {
    a.Take? ==> a.chunk.pcr >= 0
  }

  // ---------------------------------------------------------------- one step

  lemma TicksToMicros(d: int)
    ensures Micros(CDiv(d, 27), d)
  {
  }

  lemma AheadIsDifference(first: int, stamp: int, d: int)
    requires LiesAt(first, stamp, d)
    ensures ScrDiff(first, stamp) == d
  {
  }

  lemma ScheduleOnTime(base: Base, latency: int, stamp: int, d: int)
    requires LiesAt(base.stamp, stamp, d)
    ensures OnTime(ScheduledOutputUs(base.stamp, base.wall, latency, stamp), base, d, latency)
  {
    hide ScrDiff, CDiv;
    AheadIsDifference(base.stamp, stamp, d);
    TicksToMicros(d);
  }

  lemma FillAgrees(s: Smoothing, p: Plan, now: int)
    requires s.producer.Taken? && Agrees(s, p)
    ensures Agrees(Fill(s, now), Planning(p, FillIn(now)))
  {
    hide LineTimed, LiesAt, OnTime, ScheduledOutputUs;
    var t, q, n := Fill(s, now), Planning(p, FillIn(now)), |Line(s)|;
    assert Line(t) == Line(s);
    var base, e := q.planned[n].base, t.producer.item;
    forall d | LiesAt(base.stamp, e.pcr, d) ensures OnTime(e.scheduled, base, d, s.latency) {
      ScheduleOnTime(base, s.latency, e.pcr, d);
    }
    LineTimedMore(Line(s), p.planned, q.planned[n], s.latency);
  }

  lemma LineTimedMore(line: seq<Item>, planned: seq<Planned>, pl: Planned, latency: int)
    requires LineTimed(line, planned, latency)
    ensures LineTimed(line, planned + [pl], latency)
  {
    hide WellTimed;
  }

  lemma QueueAgrees(s: Smoothing, p: Plan)
    requires s.producer.Filled? && Agrees(s, p)
    ensures Agrees(Enqueue(s), p)
  {
    hide WellTimed, CDiv, LiesAt, OnTime;
    QueueLine(s);
    var line, n := Line(s), |Line(s)|;
    var e := Rescheduled(s, s.producer.item.(seqno := s.seqno));
    LastOfLine(s);
    QueuedWellTimed(s, p, e);
    forall i | 0 <= i < n + 1
      ensures WellTimed((line + [e])[i], BeforeIn(line + [e], i), p.planned[i], s.latency)
    {
      if i < n { assert BeforeIn(line + [e], i) == BeforeIn(line, i); }
    }
  }

  lemma LastOfLine(s: Smoothing)
    ensures s.busy != [] ==> Line(s) != [] && Line(s)[|Line(s)| - 1] == s.busy[|s.busy| - 1]
  {
  }

  lemma QueuedWellTimed(s: Smoothing, p: Plan, e: Item)
    requires s.producer.Filled? && BaseAgrees(s, p) && HandTimed(s, p, |Line(s)|)
    requires e == Rescheduled(s, s.producer.item.(seqno := s.seqno))
    ensures var line := Line(s);
      WellTimed(e, if line == [] then None else Some(line[|line| - 1]), p.planned[|line|], s.latency)
  {
    hide CDiv, LiesAt, OnTime, Line;
    LastOfLine(s);
    var item, pl := s.producer.item, p.planned[|Line(s)|];
    if s.busy != [] && s.busy[|s.busy| - 1].scheduled > item.scheduled {
      TicksToMicros(s.intervalLast * (|item.buf| / 188));
      assert Behind(e.scheduled, s.busy[|s.busy| - 1].scheduled, pl);
    } else {
      assert e.scheduled == item.scheduled;
    }
    var line := Line(s);
    var before := if line == [] then None else Some(line[|line| - 1]);
    assert ChunkOf(e) == pl.chunk;
    forall d | LiesAt(pl.base.stamp, pl.chunk.pcr, d)
      ensures OnTime(e.scheduled, pl.base, d, s.latency) ||
        (before.Some? && Behind(e.scheduled, before.value.scheduled, pl)
         && exists t :: OnTime(t, pl.base, d, s.latency) && before.value.scheduled > t)
    {
      assert OnTime(item.scheduled, pl.base, d, s.latency);
    }
  }

  lemma OtherAgrees(s: Smoothing, p: Plan, a: Action)
    requires Enabled(s, a) && Paced(s) && StampedAction(a) && Agrees(s, p) && !a.FillIn? && !a.Queue?
    ensures Agrees(Do(s, a), Planning(p, a))
  {
    hide LineTimed, LiesAt, OnTime, Line, DuePrefix, Paced;
    LineStep(s, a);
    assert Do(s, a).latency == s.latency by { SameLatency(s, a); }
  }

  lemma SameLatency(s: Smoothing, a: Action)
    requires Enabled(s, a)
    ensures Do(s, a).latency == s.latency
  {
    hide DuePrefix;
  }

  lemma StepAgrees(s: Smoothing, p: Plan, a: Action)
    requires Enabled(s, a) && Paced(s) && StampedAction(a) && Agrees(s, p)
    ensures Agrees(Do(s, a), Planning(p, a))
  {
    hide Agrees, Paced, Planning;
    match a
    case FillIn(now) => FillAgrees(s, p, now);
    case Queue => QueueAgrees(s, p); PlanUntouched(p);
    case _ => OtherAgrees(s, p, a);
  }

  lemma PlanUntouched(p: Plan)
    ensures Planning(p, Queue) == p
  {
  }

  lemma {:induction false} RunAgrees(s: Smoothing, p: Plan, run: seq<Action>)
    requires Safe(s) && CanRun(s, run) && Agrees(s, p) && forall i :: 0 <= i < |run| ==> StampedAction(run[i])
    ensures Agrees(After(s, run), PlanFrom(p, run)) && After(s, run).latency == s.latency
    decreases |run|
  {
    hide Do, Enabled, Agrees, Planning, Conserved, Counted, Fifo, Numbered, Paced;
    if run != [] {
      StepAgrees(s, p, run[0]);
      SafeStep(s, run[0]);
      SameLatency(s, run[0]);
      assert forall i :: 0 <= i < |run[1..]| ==> run[1..][i] == run[i + 1];
      RunAgrees(Do(s, run[0]), Planning(p, run[0]), run[1..]);
    }
  }

  // ---------------------------------------------------------------- the theorems

  /**
   * In every run, every item sent, grabbed or queued, in the order of the chunks. From the first stamp of its timebase
   * its own lies `d` ticks on; then the item is scheduled that much later than the time of that first one, with the
   * latency, to the microsecond; or else that would be before the item in front of it, and it is scheduled behind that
   * one by the time its packets take.
   */
  lemma ItemsWellTimed(items: nat, latency: int, run: seq<Action>)
    requires CanRun(Initial(items, latency), run) && forall i :: 0 <= i < |run| ==> StampedAction(run[i])
    ensures LineTimed(Line(After(Initial(items, latency), run)), PlanOf(run).planned, latency)
  {
    hide CanRun, After, Conserved, Counted, Fifo, Numbered, Paced, LineTimed, HandTimed, BaseAgrees;
    InitiallySafe(items, latency);
    InitiallyAgrees(items, latency);
    RunAgrees(Initial(items, latency), Plan(None, None, 0, []), run);
  }

  lemma InitiallyAgrees(items: nat, latency: int)
    ensures Agrees(Initial(items, latency), Plan(None, None, 0, [])) && Initial(items, latency).latency == latency
  {
    assert Line(Initial(items, latency)) == [];
  }

  /** Two items of one timebase that are on time are as far apart as their stamps, to the microsecond. */
  lemma SpacedAsStamped(x: int, y: int, base: Base, c: int, d: int, latency: int)
    requires OnTime(x, base, c, latency) && OnTime(y, base, d, latency) && c >= 0 && d >= 0
    ensures -27 < 27 * (y - x) - (d - c) < 27
  {
  }

  // ---------------------------------------------------------------- never early

  ghost predicate Served(e: Item, run: seq<Action>)
  {
    exists i :: 0 <= i < |run| && run[i].Serve? && run[i].us >= e.scheduled
  }

  ghost predicate AllServed(es: seq<Item>, run: seq<Action>)
  {
    forall k :: 0 <= k < |es| ==> Served(es[k], run)
  }

  lemma ServedMore(e: Item, run: seq<Action>, a: Action)
    requires Served(e, run)
    ensures Served(e, run + [a])
  {
    var i :| 0 <= i < |run| && run[i].Serve? && run[i].us >= e.scheduled;
    assert (run + [a])[i] == run[i];
  }

  lemma ServedStep(s: Smoothing, a: Action, before: seq<Action>)
    requires Enabled(s, a) && AllServed(s.output, before) && AllServed(Local(s), before)
    ensures AllServed(Do(s, a).output, before + [a]) && AllServed(Local(Do(s, a)), before + [a])
  {
    hide Served, DuePrefix, Rescheduled;
    var t := Do(s, a);
    forall k | 0 <= k < |t.output| ensures Served(t.output[k], before + [a]) {
      if k < |s.output| {
        assert t.output[k] == s.output[k];
        ServedMore(s.output[k], before, a);
      } else {
        assert t.output[k] == Local(s)[s.consumer.sent];
        ServedMore(Local(s)[s.consumer.sent], before, a);
      }
    }
    forall k | 0 <= k < |Local(t)| ensures Served(Local(t)[k], before + [a]) {
      if a.Serve? {
        assert Local(t)[k] == s.busy[k];
        JustServed(s.busy[k], before, a);
      } else {
        assert Local(t)[k] == Local(s)[k];
        ServedMore(Local(s)[k], before, a);
      }
    }
  }

  lemma JustServed(e: Item, before: seq<Action>, a: Action)
    requires a.Serve? && a.us >= e.scheduled
    ensures Served(e, before + [a])
  {
    assert (before + [a])[|before|] == a;
  }

  lemma {:induction false} ServedRun(s: Smoothing, before: seq<Action>, run: seq<Action>)
    requires CanRun(s, run) && AllServed(s.output, before) && AllServed(Local(s), before)
    ensures AllServed(After(s, run).output, before + run)
    decreases |run|
  {
    hide Do, Enabled, AllServed;
    if run == [] {
      assert before + run == before;
    } else {
      ServedStep(s, run[0], before);
      assert before + [run[0]] + run[1..] == before + run;
      ServedRun(Do(s, run[0]), before + [run[0]], run[1..]);
    }
  }

  /** Nothing is sent before a pass of the consumer at its time or later. */
  lemma NeverEarly(items: nat, latency: int, run: seq<Action>)
    requires CanRun(Initial(items, latency), run)
    ensures AllServed(After(Initial(items, latency), run).output, run)
  {
    hide CanRun, After;
    assert [] + run == run;
    ServedRun(Initial(items, latency), [], run);
  }
}
