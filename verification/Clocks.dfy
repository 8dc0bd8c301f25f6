/** The monotonic clock of src/clocks.c: a wrapping tick counter unwrapped by set_ticks and add_ticks. */
module Clocks {
  import opened CArith

  const MAX_SCR_VALUE := 2576980377600
  const MAX_PTS_VALUE := 8589934591

  /** A PTS has 33 bits. */
  const PTS_MODULUS := 0x2_0000_0000

  datatype ClockState = ClockState(
    ticksPerSecond: int, currentTime: int, monotonicTime: int, monotonicReference: int,
    wraps: int, backwardJumps: nat, forwardJumps: nat, discontinuities: nat,
    pendingDiscontinuity: bool, establishedTime: int, wrapValue: int)

  // ---------------------------------------------------------------- specification

  function WrapValueFor(ticksPerSecond: int): int
  {
    if ticksPerSecond == 90000 then MAX_PTS_VALUE
    else if ticksPerSecond == 27000000 then MAX_SCR_VALUE
    else 0x1_0000_0000
  }

  function ComputeDelta(wrapValue: int, ticksNow: int, ticksThen: int): int
  {
    if ticksNow >= ticksThen then ticksNow - ticksThen else wrapValue - ticksThen + ticksNow
  }

  function AfterWallclock(c: ClockState, ticks: int): ClockState
  {
    c.(establishedTime := ticks, currentTime := ticks, monotonicTime := ticks, monotonicReference := ticks,
       wraps := 0, backwardJumps := 0, forwardJumps := 0, pendingDiscontinuity := false)
  }

  function AfterSetTicks(c: ClockState, ticks: int): ClockState
  {
    if c.pendingDiscontinuity then
      c.(pendingDiscontinuity := false, wraps := 0, currentTime := ticks, monotonicTime := ticks,
         monotonicReference := ticks, establishedTime := ticks)
    else
      var wrapped := ticks < CDiv(c.currentTime, 50);
      var c1 := if wrapped then c.(wraps := c.wraps + 1) else c;
      var c2 :=
        if wrapped && c1.wrapValue > 0 then
          c1.(monotonicTime := c1.monotonicTime + ComputeDelta(c1.wrapValue, ticks, c1.monotonicReference),
              monotonicReference := ticks)
        else if ticks > c1.monotonicReference then
          var jump := c1.ticksPerSecond > 0 && ticks - c1.monotonicReference > CDiv(c1.ticksPerSecond, 5);
          c1.(forwardJumps := c1.forwardJumps + if jump then 1 else 0,
              monotonicTime := c1.monotonicTime + (ticks - c1.monotonicReference),
              monotonicReference := ticks)
        else if ticks < c1.currentTime && c1.ticksPerSecond > 0
                && c1.currentTime - ticks < CDiv(c1.ticksPerSecond, 2) then
          c1.(backwardJumps := c1.backwardJumps + 1)
        else c1;
      c2.(currentTime := ticks)
  }

  function AfterDiscontinuity(c: ClockState): ClockState
  {
    c.(discontinuities := c.discontinuities + 1, pendingDiscontinuity := true)
  }

  function WrapDown(c: ClockState): ClockState
    decreases if c.wrapValue > 0 && c.currentTime >= c.wrapValue then c.currentTime else 0
  {
    if c.wrapValue > 0 && c.currentTime >= c.wrapValue then
      WrapDown(c.(currentTime := c.currentTime - c.wrapValue,
                  monotonicReference := c.monotonicReference - c.wrapValue, wraps := c.wraps + 1))
    else c
  }

  function WrapUp(c: ClockState): ClockState
    decreases if c.wrapValue > 0 && c.currentTime < 0 then -c.currentTime else 0
  {
    if c.wrapValue > 0 && c.currentTime < 0 then
      WrapUp(c.(currentTime := c.currentTime + c.wrapValue,
                monotonicReference := c.monotonicReference + c.wrapValue,
                wraps := if c.wraps > 0 then c.wraps - 1 else c.wraps))
    else c
  }

  function AfterAddTicks(c: ClockState, ticks: int): ClockState
  {
    WrapUp(WrapDown(c.(monotonicTime := c.monotonicTime + if ticks > 0 then ticks else 0,
                       currentTime := c.currentTime + ticks,
                       monotonicReference := c.monotonicReference + ticks)))
  }

  // ---------------------------------------------------------------- the code

  class Clock {
    var ticksPerSecond: int
    var currentTime: int
    var monotonicTime: int
    var monotonicReference: int
    var wraps: int
    var backwardJumps: nat
    var forwardJumps: nat
    var discontinuities: nat
    var pendingDiscontinuity: bool
    var establishedTime: int
    var wrapValue: int

    ghost function State(): ClockState
      reads this
    {
      ClockState(ticksPerSecond, currentTime, monotonicTime, monotonicReference, wraps, backwardJumps,
                 forwardJumps, discontinuities, pendingDiscontinuity, establishedTime, wrapValue)
    }

    constructor ()
      ensures State() == ClockState(0, 0, 0, 0, 0, 0, 0, 0, false, 0, 0)
    {
      ticksPerSecond, currentTime, monotonicTime, monotonicReference := 0, 0, 0, 0;
      wraps, backwardJumps, forwardJumps, discontinuities := 0, 0, 0, 0;
      pendingDiscontinuity, establishedTime, wrapValue := false, 0, 0;
    }

    method EstablishTimebase(hz: int)
      modifies this
      ensures State() == ClockState(hz, 0, 0, 0, 0, 0, 0, 0, false, 0, WrapValueFor(hz))
    {
      ticksPerSecond := hz;
      establishedTime, currentTime, monotonicTime, monotonicReference := 0, 0, 0, 0;
      wraps, backwardJumps, forwardJumps, discontinuities := 0, 0, 0, 0;
      pendingDiscontinuity := false;
      if ticksPerSecond == 90000 {
        wrapValue := MAX_PTS_VALUE;
      } else if ticksPerSecond == 27000000 {
        wrapValue := MAX_SCR_VALUE;
      } else {
        wrapValue := 0x1_0000_0000;
      }
    }

    method EstablishWallclock(ticks: int)
      modifies this
      ensures State() == AfterWallclock(old(State()), ticks)
    {
      establishedTime, currentTime, monotonicTime, monotonicReference := ticks, ticks, ticks, ticks;
      wraps, backwardJumps, forwardJumps := 0, 0, 0;
      pendingDiscontinuity := false;
    }

    method SetTicks(ticks: int)
      modifies this
      ensures State() == AfterSetTicks(old(State()), ticks)
    {
      if pendingDiscontinuity {
        pendingDiscontinuity := false;
        wraps := 0;
        currentTime, monotonicTime, monotonicReference, establishedTime := ticks, ticks, ticks, ticks;
        return;
      }
      var wrapped := false;
      if ticks < CDiv(currentTime, 50) {
        wraps := wraps + 1;
        wrapped := true;
      }
      if wrapped && wrapValue > 0 {
        monotonicTime := monotonicTime + ComputeDelta(wrapValue, ticks, monotonicReference);
        monotonicReference := ticks;
      } else if ticks > monotonicReference {
        if ticksPerSecond > 0 && ticks - monotonicReference > CDiv(ticksPerSecond, 5) {
          forwardJumps := forwardJumps + 1;
        }
        monotonicTime := monotonicTime + (ticks - monotonicReference);
        monotonicReference := ticks;
      } else if ticks < currentTime && ticksPerSecond > 0 && currentTime - ticks < CDiv(ticksPerSecond, 2) {
        backwardJumps := backwardJumps + 1;
      }
      currentTime := ticks;
    }

    method MarkDiscontinuity()
      modifies this
      ensures State() == AfterDiscontinuity(old(State()))
    {
      discontinuities := discontinuities + 1;
      pendingDiscontinuity := true;
    }

    method AddTicks(ticks: int)
      modifies this
      ensures State() == AfterAddTicks(old(State()), ticks)
    {
      if ticks > 0 {
        monotonicTime := monotonicTime + ticks;
      }
      currentTime := currentTime + ticks;
      monotonicReference := monotonicReference + ticks;
      if wrapValue > 0 {
        ghost var target := WrapDown(State());
        while currentTime >= wrapValue
          invariant wrapValue > 0 && WrapDown(State()) == target
          decreases currentTime
        {
          currentTime := currentTime - wrapValue;
          monotonicReference := monotonicReference - wrapValue;
          wraps := wraps + 1;
        }
        ghost var final := WrapUp(State());
        while currentTime < 0
          invariant wrapValue > 0 && WrapUp(State()) == final
          decreases -currentTime
        {
          currentTime := currentTime + wrapValue;
          monotonicReference := monotonicReference + wrapValue;
          if wraps > 0 {
            wraps := wraps - 1;
          }
        }
      }
    }
  }

  /**
   * Where no wrap is read and none is pending: a forward jump is counted if and only if the ticks pass the high-water
   * mark by more than a fifth of a second, a backward one if and only if they do not pass it and go back by less than
   * half a second, rounded down; never both.
   */
  lemma JumpsExactly(c: ClockState, t: nat)
    requires !c.pendingDiscontinuity && c.currentTime >= 0 && 50 * t + 49 >= c.currentTime && c.ticksPerSecond > 0
    ensures var s := AfterSetTicks(c, t);
      && s.forwardJumps == c.forwardJumps + (if 5 * (t - c.monotonicReference) > c.ticksPerSecond then 1 else 0)
      && s.backwardJumps == c.backwardJumps
         + (if t <= c.monotonicReference && t < c.currentTime && 2 * (c.currentTime - t) + 2 <= c.ticksPerSecond
            then 1 else 0)
      && s.wraps == c.wraps && s.currentTime == t
  {
    assert 50 * CDiv(c.currentTime, 50) <= c.currentTime;
    Fraction(t - c.monotonicReference, c.ticksPerSecond, 5);
    Fraction(c.currentTime - t, c.ticksPerSecond, 2);
  }

  lemma Fraction(d: int, rate: nat, parts: nat)
    requires parts in {2, 5}
    ensures d > CDiv(rate, parts) <==> parts * d > rate
    ensures d < CDiv(rate, parts) <==> parts * d + parts <= rate
  {
  }

  // ---------------------------------------------------------------- every run keeps the account

  datatype Event = Ticks(ticks: nat) | Advance(amount: nat) | Discontinuity

  function Apply(c: ClockState, e: Event): ClockState
  {
    match e
    case Ticks(t) => AfterSetTicks(c, t)
    case Advance(n) => AfterAddTicks(c, n)
    case Discontinuity => AfterDiscontinuity(c)
  }

  function Run(c: ClockState, events: seq<Event>): ClockState
  {
    if events == [] then c else Apply(Run(c, events[..|events| - 1]), events[|events| - 1])
  }

  /** The monotonic time is the high-water mark plus the wraps that were counted. */
  predicate Accounted(c: ClockState)
  {
    && 0 <= c.wrapValue && 0 <= c.wraps
    && 0 <= c.currentTime <= c.monotonicReference
    && c.monotonicTime == c.monotonicReference + c.wraps * c.wrapValue
  }

  lemma {:induction false} WrapDownAccounted(c: ClockState)
    requires Accounted(c)
    ensures Accounted(WrapDown(c)) && WrapDown(c).monotonicTime == c.monotonicTime
    ensures c.wrapValue > 0 ==> WrapDown(c).currentTime < c.wrapValue
    decreases c.currentTime
  {
    if c.wrapValue > 0 && c.currentTime >= c.wrapValue {
      var d := c.(currentTime := c.currentTime - c.wrapValue,
                  monotonicReference := c.monotonicReference - c.wrapValue, wraps := c.wraps + 1);
      assert (c.wraps + 1) * c.wrapValue == c.wraps * c.wrapValue + c.wrapValue;
      WrapDownAccounted(d);
    }
  }

  lemma QuotientBelow(a: nat)
    ensures 0 <= CDiv(a, 50) <= a
  {
  }

  lemma SetTicksAccounted(c: ClockState, t: nat)
    requires Accounted(c)
    ensures Accounted(AfterSetTicks(c, t))
  {
    QuotientBelow(c.currentTime);
    hide CDiv;
    var s := AfterSetTicks(c, t);
    assert (c.wraps + 1) * c.wrapValue == c.wraps * c.wrapValue + c.wrapValue;
    if c.pendingDiscontinuity {
      assert s.wraps * s.wrapValue == 0;
    } else if t < CDiv(c.currentTime, 50) {
      assert s.wraps == c.wraps + 1;
      if c.wrapValue > 0 {
        assert s.monotonicTime == c.monotonicTime + (c.wrapValue - c.monotonicReference + t);
      }
    } else {
      assert s.wraps == c.wraps;
      assert s.monotonicTime - s.monotonicReference == c.monotonicTime - c.monotonicReference;
    }
  }

  lemma ApplyAccounted(c: ClockState, e: Event)
    requires Accounted(c)
    ensures Accounted(Apply(c, e))
  {
    match e
    case Ticks(t) =>
      SetTicksAccounted(c, t);
    case Advance(n) =>
      WrapDownAccounted(c.(monotonicTime := c.monotonicTime + n, currentTime := c.currentTime + n,
                           monotonicReference := c.monotonicReference + n));
    case Discontinuity =>
  }

  /** From a clock just established, any run of calls keeps the account. */
  lemma {:induction false} RunAccounted(c: ClockState, start: nat, events: seq<Event>)
    requires 0 <= c.wrapValue
    ensures Accounted(Run(AfterWallclock(c, start), events))
  {
    if events != [] {
      RunAccounted(c, start, events[..|events| - 1]);
      ApplyAccounted(Run(AfterWallclock(c, start), events[..|events| - 1]), events[|events| - 1]);
    }
  }

  /** The ticks of the last start, whether another is pending, and how many were marked. */
  function Starts(start: int, events: seq<Event>): (r: (int, bool, nat))
  {
    if events == [] then (start, false, 0)
    else
      var (at, pending, marked) := Starts(start, events[..|events| - 1]);
      match events[|events| - 1]
      case Ticks(t) => (if pending then t else at, false, marked)
      case Discontinuity => (at, true, marked + 1)
      case Advance(_) => (at, pending, marked)
  }

  lemma {:induction false} StartsKept(c: ClockState)
    ensures var d := WrapUp(WrapDown(c));
      d.establishedTime == c.establishedTime && d.pendingDiscontinuity == c.pendingDiscontinuity
      && d.discontinuities == c.discontinuities
  {
    DownKept(c);
    UpKept(WrapDown(c));
  }

  lemma {:induction false} DownKept(c: ClockState)
    ensures var d := WrapDown(c);
      d.establishedTime == c.establishedTime && d.pendingDiscontinuity == c.pendingDiscontinuity
      && d.discontinuities == c.discontinuities
    decreases if c.wrapValue > 0 && c.currentTime >= c.wrapValue then c.currentTime else 0
  {
    if c.wrapValue > 0 && c.currentTime >= c.wrapValue {
      DownKept(c.(currentTime := c.currentTime - c.wrapValue,
                  monotonicReference := c.monotonicReference - c.wrapValue, wraps := c.wraps + 1));
    }
  }

  lemma {:induction false} UpKept(c: ClockState)
    ensures var d := WrapUp(c);
      d.establishedTime == c.establishedTime && d.pendingDiscontinuity == c.pendingDiscontinuity
      && d.discontinuities == c.discontinuities
    decreases if c.wrapValue > 0 && c.currentTime < 0 then -c.currentTime else 0
  {
    if c.wrapValue > 0 && c.currentTime < 0 {
      UpKept(c.(currentTime := c.currentTime + c.wrapValue, monotonicReference := c.monotonicReference + c.wrapValue,
                wraps := if c.wraps > 0 then c.wraps - 1 else c.wraps));
    }
  }

  /** Over any run: the time established is that of the last start, and every mark is counted. */
  lemma {:induction false} RunStarts(c: ClockState, start: nat, events: seq<Event>)
    ensures var s, (at, pending, marked) := Run(AfterWallclock(c, start), events), Starts(start, events);
      s.establishedTime == at && s.pendingDiscontinuity == pending && s.discontinuities == c.discontinuities + marked
  {
    hide WrapDown, WrapUp;
    if events != [] {
      var init := events[..|events| - 1];
      RunStarts(c, start, init);
      var s := Run(AfterWallclock(c, start), init);
      if events[|events| - 1].Advance? {
        var n := events[|events| - 1].amount;
        StartsKept(s.(monotonicTime := s.monotonicTime + if n > 0 then n else 0, currentTime := s.currentTime + n,
                      monotonicReference := s.monotonicReference + n));
      }
    }
  }

  lemma {:induction false} WrapDownKeeps(c: ClockState)
    ensures WrapDown(c).monotonicTime == c.monotonicTime
    decreases if c.wrapValue > 0 && c.currentTime >= c.wrapValue then c.currentTime else 0
  {
    if c.wrapValue > 0 && c.currentTime >= c.wrapValue {
      WrapDownKeeps(c.(currentTime := c.currentTime - c.wrapValue,
                       monotonicReference := c.monotonicReference - c.wrapValue, wraps := c.wraps + 1));
    }
  }

  lemma {:induction false} WrapUpKeeps(c: ClockState)
    ensures WrapUp(c).monotonicTime == c.monotonicTime
    decreases if c.wrapValue > 0 && c.currentTime < 0 then -c.currentTime else 0
  {
    if c.wrapValue > 0 && c.currentTime < 0 {
      WrapUpKeeps(c.(currentTime := c.currentTime + c.wrapValue,
                     monotonicReference := c.monotonicReference + c.wrapValue,
                     wraps := if c.wraps > 0 then c.wraps - 1 else c.wraps));
    }
  }

  /** Adding ticks, through any wraps, moves monotonic time by them if they are positive, and not at all otherwise. */
  lemma AdvanceMoves(c: ClockState, ticks: int)
    ensures AfterAddTicks(c, ticks).monotonicTime == c.monotonicTime + if ticks > 0 then ticks else 0
  {
    var moved := c.(monotonicTime := c.monotonicTime + if ticks > 0 then ticks else 0,
                    currentTime := c.currentTime + ticks, monotonicReference := c.monotonicReference + ticks);
    WrapDownKeeps(moved);
    WrapUpKeeps(WrapDown(moved));
  }

  /**
   * The calls that take monotonic time back, in any state a run can reach: a tick value below it after a marked
   * discontinuity, or one that is read as a wrap while the high-water mark stands more than a whole wrap above it.
   */
  lemma GoesBackExactlyWhen(c: ClockState, e: Event)
    requires Accounted(c)
    ensures Apply(c, e).monotonicTime < c.monotonicTime <==>
            && e.Ticks?
            && if c.pendingDiscontinuity then e.ticks < c.monotonicTime
               else e.ticks < CDiv(c.currentTime, 50) && c.wrapValue > 0 && c.wrapValue + e.ticks < c.monotonicReference
  {
    QuotientBelow(c.currentTime);
    if e.Advance? { AdvanceMoves(c, e.amount); }
  }

  /** And that happens: a jump back, an advance past the wrap, then a small value. */
  lemma MonotonicTimeCanGoBack(c: ClockState)
    requires c.wrapValue == MAX_SCR_VALUE
    ensures var half := MAX_SCR_VALUE / 2;
      var s := AfterWallclock(c, MAX_SCR_VALUE - 1);
      var before := Run(s, [Ticks(half), Advance(half - 1)]);
      Run(s, [Ticks(half), Advance(half - 1), Ticks(0)]).monotonicTime < before.monotonicTime
  {
    var half := MAX_SCR_VALUE / 2;
    var s := AfterWallclock(c, MAX_SCR_VALUE - 1);
    var e1, e2, e3 := [Ticks(half)], [Ticks(half), Advance(half - 1)], [Ticks(half), Advance(half - 1), Ticks(0)];
    assert e1[..0] == [] && e2[..1] == e1 && e3[..2] == e2;
    assert Run(s, e1) == AfterSetTicks(s, half);
    var d := Run(s, e2);
    assert d.currentTime == MAX_SCR_VALUE - 1 && d.monotonicReference == MAX_SCR_VALUE - 1 + half - 1;
  }

  /** What a run of raw ticks, all below the wrap, keeps. */
  lemma {:induction false} RawRunStaysBelow(c: ClockState, start: nat, events: seq<Event>)
    requires 0 < c.wrapValue && start < c.wrapValue
    requires forall e :: e in events ==> e.Ticks? && e.ticks < c.wrapValue
    ensures var s := Run(AfterWallclock(c, start), events);
            !s.pendingDiscontinuity && s.wrapValue == c.wrapValue && s.monotonicReference < c.wrapValue
  {
    if events != [] {
      assert events[|events| - 1] in events;
      RawRunStaysBelow(c, start, events[..|events| - 1]);
    }
  }

  /** Fed raw ticks only, all below the wrap, monotonic time never goes back. */
  lemma {:induction false} NeverBack(c: ClockState, start: nat, events: seq<Event>, k: nat)
    requires 0 < c.wrapValue && start < c.wrapValue && k <= |events|
    requires forall e :: e in events ==> e.Ticks? && e.ticks < c.wrapValue
    ensures var s := AfterWallclock(c, start);
            Run(s, events[..k]).monotonicTime <= Run(s, events).monotonicTime
    decreases |events|
  {
    if k < |events| {
      var init, last := events[..|events| - 1], events[|events| - 1];
      assert last in events;
      NeverBack(c, start, init, k);
      assert init[..k] == events[..k];
      RunAccounted(c, start, init);
      RawRunStaysBelow(c, start, init);
      GoesBackExactlyWhen(Run(AfterWallclock(c, start), init), last);
    } else {
      assert events[..k] == events;
    }
  }

  // ---------------------------------------------------------------- following the true timeline

  /** True times, starting before the first wrap, that never go back and never move by more than `step`. */
  ghost predicate Timeline(times: seq<nat>, modulus: nat, step: nat)
  {
    && times != [] && times[0] < modulus
    && forall i :: 1 <= i < |times| ==> times[i - 1] <= times[i] <= times[i - 1] + step
  }

  /** The clock, established on the first sample and set to each of the others, all modulo `modulus`. */
  function Sampled(c: ClockState, times: seq<nat>, modulus: nat): ClockState
    requires times != [] && modulus > 0
  {
    var n := |times| - 1;
    if n == 0 then AfterWallclock(c, times[0] % modulus)
    else AfterSetTicks(Sampled(c, times[..n], modulus), times[n] % modulus)
  }

  lemma NextSample(t: nat, d: nat, m: nat)
    requires d < m
    ensures (t + d) % m == if t % m + d < m then t % m + d else t % m + d - m
    ensures (t + d) / m == t / m + if t % m + d < m then 0 else 1
  {
    var q, r := t / m, t % m;
    assert t + d == m * q + (r + d);
    if r + d < m {
      Divided(t + d, m, q, r + d);
    } else {
      assert m * (q + 1) == m * q + m;
      Divided(t + d, m, q + 1, r + d - m);
    }
  }

  /** From one sample to the next, a wrap is read if and only if the second is below a fiftieth of the first. */
  predicate WrapRead(t: nat, u: nat, modulus: nat)
    requires modulus > 0
  {
    u % modulus < CDiv(t % modulus, 50)
  }

  /** True times, starting before the first wrap, that never go back. */
  ghost predicate Rising(times: seq<nat>, modulus: nat)
  {
    times != [] && times[0] < modulus && forall i :: 1 <= i < |times| ==> times[i - 1] <= times[i]
  }

  /** From one sample to the next there is no wrap, or one and it is read. */
  predicate StepRead(t: nat, u: nat, modulus: nat)
    requires modulus > 0
  {
    u / modulus > t / modulus ==> u / modulus == t / modulus + 1 && WrapRead(t, u, modulus)
  }

  ghost predicate EveryWrapRead(times: seq<nat>, modulus: nat)
    requires modulus > 0
  {
    forall i :: 1 <= i < |times| ==> StepRead(times[i - 1], times[i], modulus)
  }

  /** A clock at time `t`: it has counted no more wraps than there were, and if it has counted all it stands at `t`. */
  predicate Counting(s: ClockState, t: nat, modulus: nat)
    requires modulus > 0
  {
    && Accounted(s) && !s.pendingDiscontinuity && s.wrapValue > 0
    && s.currentTime == t % modulus && s.monotonicReference < modulus && s.wraps <= t / modulus
    && (s.wraps == t / modulus ==> s.monotonicReference == s.currentTime)
  }

  lemma Apart(m: nat, j: nat, k: nat)
    requires j < k
    ensures m * k >= m * j + m
  {
    var e: nat := k - j - 1;
    assert m * (j + 1 + e) == m * j + m + m * e;
  }

  lemma QuotientsUp(t: nat, u: nat, m: nat)
    requires 0 < m && t <= u
    ensures t / m <= u / m && (t / m == u / m ==> t % m <= u % m) && 0 <= t % m < m && 0 <= u % m < m
  {
    var q, q' := t / m, u / m;
    assert t == m * q + t % m && u == m * q' + u % m;
    if q > q' {
      Apart(m, q', q);
    }
  }

  /**
   * One more sample: all wraps are still counted if and only if they were and this step had none or one that is
   * read.
   */
  lemma CountingStep(s: ClockState, t: nat, u: nat, modulus: nat)
    requires modulus > 0 && t <= u && Counting(s, t, modulus)
    ensures var n := AfterSetTicks(s, u % modulus);
      && Counting(n, u, modulus) && n.wrapValue == s.wrapValue
      && (n.wraps == u / modulus <==> s.wraps == t / modulus && StepRead(t, u, modulus))
  {
    QuotientsUp(t, u, modulus);
    QuotientBelow(t % modulus);
    SetTicksAccounted(s, u % modulus);
    hide CDiv, Accounted;
  }

  /** At the end of any rising timeline: all wraps are counted if and only if each of them was read. */
  lemma {:induction false} CountedExactlyWhen(c: ClockState, times: seq<nat>, modulus: nat)
    requires modulus > 0 && c.wrapValue > 0 && Rising(times, modulus)
    ensures var s, t := Sampled(c, times, modulus), times[|times| - 1];
      Counting(s, t, modulus) && s.wrapValue == c.wrapValue
      && (s.wraps == t / modulus <==> EveryWrapRead(times, modulus))
  {
    hide Counting, AfterSetTicks, StepRead, EveryWrapRead;
    var n := |times| - 1;
    if n == 0 {
      CountingFirst(c, times, modulus);
    } else {
      var init := times[..n];
      assert forall i :: 0 <= i < n ==> init[i] == times[i];
      CountedExactlyWhen(c, init, modulus);
      CountingStep(Sampled(c, init, modulus), times[n - 1], times[n], modulus);
      EveryWrapReadSnoc(init, times[n], modulus);
      assert times == init + [times[n]];
    }
  }

  lemma CountingFirst(c: ClockState, times: seq<nat>, modulus: nat)
    requires modulus > 0 && c.wrapValue > 0 && |times| == 1 && times[0] < modulus
    ensures Counting(Sampled(c, times, modulus), times[0], modulus)
        && Sampled(c, times, modulus).wrapValue == c.wrapValue
    ensures Sampled(c, times, modulus).wraps == times[0] / modulus && EveryWrapRead(times, modulus)
  {
    Divided(times[0], modulus, 0, times[0]);
  }

  lemma EveryWrapReadSnoc(times: seq<nat>, u: nat, modulus: nat)
    requires modulus > 0 && times != []
    ensures EveryWrapRead(times + [u], modulus) <==>
            EveryWrapRead(times, modulus) && StepRead(times[|times| - 1], u, modulus)
  {
    hide StepRead;
    var all := times + [u];
    assert all[|times|] == u && all[|times| - 1] == times[|times| - 1];
    if EveryWrapRead(all, modulus) {
      forall i | 1 <= i < |times| ensures StepRead(times[i - 1], times[i], modulus) {
        assert StepRead(all[i - 1], all[i], modulus);
      }
      assert StepRead(all[|times| - 1], all[|times|], modulus);
    }
    if EveryWrapRead(times, modulus) && StepRead(times[|times| - 1], u, modulus) {
      forall i | 1 <= i < |all| ensures StepRead(all[i - 1], all[i], modulus) {
        if i < |times| { assert StepRead(times[i - 1], times[i], modulus); }
      }
    }
  }

  /**
   * For each rising timeline, in steps of any size: the monotonic time is the true time in the end if and only if there
   * was never more than one wrap between two samples, and each was read, the sample behind it being below a fiftieth of
   * the one before.
   */
  lemma FollowsExactlyWhen(c: ClockState, times: seq<nat>)
    requires c.wrapValue > 0 && Rising(times, c.wrapValue)
    ensures Sampled(c, times, c.wrapValue).monotonicTime == times[|times| - 1] <==> EveryWrapRead(times, c.wrapValue)
  {
    hide EveryWrapRead, Sampled;
    CountedExactlyWhen(c, times, c.wrapValue);
    CountingIs(Sampled(c, times, c.wrapValue), times[|times| - 1]);
  }

  lemma CountingIs(s: ClockState, t: nat)
    requires s.wrapValue > 0 && Counting(s, t, s.wrapValue)
    ensures s.monotonicTime == t <==> s.wraps == t / s.wrapValue
  {
    var w, q := s.wrapValue, t / s.wrapValue;
    var missed: nat := q - s.wraps;
    assert t == w * q + t % w;
    assert q * w == s.wraps * w + missed * w;
    if missed > 0 {
      assert missed * w == w + (missed - 1) * w && (missed - 1) * w >= 0;
    }
  }

  /** And it keeps up at every sample on the way, or falls behind for good. */
  lemma LostForGood(c: ClockState, times: seq<nat>, k: nat)
    requires c.wrapValue > 0 && Rising(times, c.wrapValue) && 0 < k <= |times|
    requires Sampled(c, times, c.wrapValue).monotonicTime == times[|times| - 1]
    ensures Sampled(c, times[..k], c.wrapValue).monotonicTime == times[k - 1]
  {
    hide StepRead, Sampled;
    var init := times[..k];
    assert forall i :: 0 <= i < k ==> init[i] == times[i];
    FollowsExactlyWhen(c, times);
    FollowsExactlyWhen(c, init);
  }

  /** The state of a clock that is following: at time `t`, having counted every wrap so far. */
  predicate Following(s: ClockState, t: nat, modulus: nat)
    requires modulus > 0
  {
    && s.currentTime == s.monotonicReference == t % modulus
    && s.wraps == t / modulus && !s.pendingDiscontinuity && s.wrapValue > 0
    && s.monotonicTime == t - (modulus - s.wrapValue) * (t / modulus)
  }

  /** One step of at most a fiftieth of the wrap is recognised for what it is. */
  lemma SmallStepSeen(current: nat, d: nat, m: nat)
    requires current < m && 50 * d < m
    ensures current + d >= m ==> current + d - m < CDiv(current, 50)
  {
  }

  lemma SmallStepsRead(times: seq<nat>, modulus: nat, step: nat)
    requires modulus > 0 && 50 * step < modulus && Timeline(times, modulus, step)
    ensures EveryWrapRead(times, modulus)
  {
    forall i | 1 <= i < |times| ensures StepRead(times[i - 1], times[i], modulus) {
      NextSample(times[i - 1], times[i] - times[i - 1], modulus);
      SmallStepSeen(times[i - 1] % modulus, times[i] - times[i - 1], modulus);
    }
  }

  /**
   * Samples that wrap at `modulus`, on a clock that believes they wrap at its own wrap value: if every wrap is read, as
   * it is with steps below a fiftieth of the modulus, each one costs the difference and nothing else is lost.
   */
  lemma FollowsTimeline(c: ClockState, times: seq<nat>, modulus: nat)
    requires modulus > 0 && c.wrapValue > 0 && Rising(times, modulus) && EveryWrapRead(times, modulus)
    ensures Following(Sampled(c, times, modulus), times[|times| - 1], modulus)
    ensures Sampled(c, times, modulus).wrapValue == c.wrapValue
  {
    hide EveryWrapRead, Sampled;
    CountedExactlyWhen(c, times, modulus);
    var q, w := times[|times| - 1] / modulus, c.wrapValue;
    assert (modulus - w) * q == modulus * q - w * q;
  }

  /** Every timeline with such steps is followed exactly. */
  ghost predicate FollowsAll(c: ClockState, step: nat)
    requires c.wrapValue > 0
  {
    forall times: seq<nat> | Timeline(times, c.wrapValue, step) ::
      Sampled(c, times, c.wrapValue).monotonicTime == times[|times| - 1]
  }

  /**
   * A bound on the steps that makes sure of it: every timeline within it is followed exactly when it is below a
   * fiftieth.
   */
  lemma FollowsAllExactlyWhen(c: ClockState, step: nat)
    requires c.wrapValue > 0
    ensures FollowsAll(c, step) <==> 50 * step < c.wrapValue
  {
    var w := c.wrapValue;
    if 50 * step < w {
      forall times: seq<nat> | Timeline(times, w, step)
        ensures Sampled(c, times, w).monotonicTime == times[|times| - 1]
      {
        SmallStepsRead(times, w, step);
        FollowsExactlyWhen(c, times);
      }
    } else {
      BigStepMissed(c, step);
    }
  }

  /** From just below the wrap, a step of a fiftieth is taken for a jump back and lost. */
  lemma BigStepMissed(c: ClockState, step: nat)
    requires c.wrapValue > 0 && 50 * step >= c.wrapValue
    ensures !FollowsAll(c, step)
  {
    var w := c.wrapValue;
    var d: nat := (w - 1) / 50 + 1;
    var times: seq<nat> := [w - 1, w - 1 + d];
    Divided(w - 1, w, 0, w - 1);
    Divided(w - 1 + d, w, 1, d - 1);
    assert Timeline(times, w, step);
    assert !StepRead(times[0], times[1], w);
    FollowsExactlyWhen(c, times);
  }

  /** A 90 kHz clock wraps its count at 2^33 - 1, but a PTS wraps at 2^33: each wrap that is read loses one tick. */
  lemma PtsLosesATickPerWrap(c: ClockState, times: seq<nat>)
    requires c.ticksPerSecond == 90000 && c.wrapValue == WrapValueFor(90000)
    requires Rising(times, PTS_MODULUS) && EveryWrapRead(times, PTS_MODULUS)
    ensures var t := times[|times| - 1]; Sampled(c, times, PTS_MODULUS).monotonicTime == t - t / PTS_MODULUS
  {
    hide Sampled, EveryWrapRead;
    FollowsTimeline(c, times, PTS_MODULUS);
    OneTickEach(c, times[|times| - 1] / PTS_MODULUS);
  }

  lemma OneTickEach(c: ClockState, wraps: nat)
    requires c.wrapValue == WrapValueFor(90000)
    ensures (PTS_MODULUS - c.wrapValue) * wraps == wraps
  {
  }

  /**
   * A 27 MHz clock wraps where a PCR does, and one of any other rate at 2^32: followed exactly if each wrap is
   * read.
   */
  lemma PcrFollowed(c: ClockState, hz: int, times: seq<nat>)
    requires hz != 90000 && c.wrapValue == WrapValueFor(hz)
    requires var m: nat := if hz == 27000000 then 0x2_0000_0000 * 300 else 0x1_0000_0000;
      Rising(times, m) && EveryWrapRead(times, m)
    ensures var m: nat := if hz == 27000000 then 0x2_0000_0000 * 300 else 0x1_0000_0000;
      Sampled(c, times, m).monotonicTime == times[|times| - 1]
  {
    hide Sampled, EveryWrapRead;
    FollowsExactlyWhen(c, times);
  }

  // ---------------------------------------------------------------- what adding ticks does

  /** `k` wraps taken off the current time. */
  function Lowered(c: ClockState, k: nat): ClockState
  {
    c.(currentTime := c.currentTime - c.wrapValue * k, monotonicReference := c.monotonicReference - c.wrapValue * k,
       wraps := c.wraps + k)
  }

  lemma {:induction false} WrapDownIs(c: ClockState)
    requires c.wrapValue > 0 && c.currentTime >= 0
    ensures WrapDown(c) == Lowered(c, c.currentTime / c.wrapValue)
    decreases c.currentTime
  {
    var w, q := c.wrapValue, c.currentTime / c.wrapValue;
    if c.currentTime >= w {
      var d := c.(currentTime := c.currentTime - w, monotonicReference := c.monotonicReference - w,
          wraps := c.wraps + 1);
      OneLess(c.currentTime, w);
      WrapDownIs(d);
      assert w * q == w * (q - 1) + w;
    } else {
      Divided(c.currentTime, w, 0, c.currentTime);
    }
  }

  lemma OneLess(n: nat, m: nat)
    requires 0 < m <= n
    ensures (n - m) / m == n / m - 1 && (n - m) % m == n % m && n / m > 0
  {
    var q, r := Euclidean(n - m, m);
    assert m * (q + 1) == m * q + m;
    Divided(n, m, q + 1, r);
  }

  /** `k` wraps put on to it; the count of wraps stops at none. */
  function Raised(c: ClockState, k: nat): ClockState
  {
    c.(currentTime := c.currentTime + c.wrapValue * k, monotonicReference := c.monotonicReference + c.wrapValue * k,
       wraps := if c.wraps <= 0 then c.wraps else if c.wraps > k then c.wraps - k else 0)
  }

  lemma {:induction false} WrapUpIs(c: ClockState, k: nat)
    requires c.wrapValue > 0 && c.currentTime < c.wrapValue
    requires 0 <= c.currentTime + c.wrapValue * k < c.wrapValue
    ensures WrapUp(c) == Raised(c, k)
    decreases k
  {
    var w := c.wrapValue;
    if c.currentTime < 0 {
      var d := c.(currentTime := c.currentTime + w, monotonicReference := c.monotonicReference + w,
                  wraps := if c.wraps > 0 then c.wraps - 1 else c.wraps);
      if k == 0 {
        assert false;
      }
      assert w * k == w * (k - 1) + w;
      if k == 1 {
        assert w * (k - 1) == 0;
      } else {
        Apart(w, 0, k - 1);
      }
      WrapUpIs(d, k - 1);
    } else if k > 0 {
      Apart(w, 0, k);
      assert false;
    }
  }

  function Moved(c: ClockState, ticks: int): ClockState
  {
    c.(monotonicTime := c.monotonicTime + if ticks > 0 then ticks else 0, currentTime := c.currentTime + ticks,
       monotonicReference := c.monotonicReference + ticks)
  }

  lemma StaysDown(c: ClockState)
    requires c.currentTime < 0
    ensures WrapDown(c) == c
  {
  }

  lemma StaysUp(c: ClockState)
    requires c.currentTime >= 0
    ensures WrapUp(c) == c
  {
  }

  lemma AdvanceForward(c: ClockState, ticks: int)
    requires c.wrapValue > 0 && c.currentTime + ticks >= 0
    ensures var s, sum := AfterAddTicks(c, ticks), c.currentTime + ticks;
      && s == Lowered(Moved(c, ticks), sum / c.wrapValue) && s.currentTime == sum % c.wrapValue
  {
    var w, sum := c.wrapValue, c.currentTime + ticks;
    hide WrapDown;
    var q, r := Euclidean(sum, w);
    var moved := Moved(c, ticks);
    WrapDownIs(moved);
    StaysUp(Lowered(moved, q));
  }

  lemma AdvanceBack(c: ClockState, ticks: int) returns (k: nat)
    requires c.wrapValue > 0 && c.currentTime + ticks < 0
    ensures var s, sum := AfterAddTicks(c, ticks), c.currentTime + ticks;
      && s == Raised(Moved(c, ticks), k) && k == -(sum / c.wrapValue) && s.currentTime == sum % c.wrapValue
  {
    var w, sum := c.wrapValue, c.currentTime + ticks;
    var up: nat := -sum + w - 1;
    var r;
    k, r := Euclidean(up, w);
    var below: int := 0 - k as int;
    assert w * below == -(w * k);
    Divided(sum, w, below, w - 1 - r);
    WrapUpIs(Moved(c, ticks), k);
    hide WrapUp;
    StaysDown(Moved(c, ticks));
  }

  /**
   * Adding any ticks to a clock that is not before zero: the current time moves by them on the ring of the wrap value,
   * the reference with it, and the wraps passed are counted, or taken back as far as there are any.
   */
  lemma AdvanceExactly(c: ClockState, ticks: int)
    requires c.wrapValue > 0 && c.currentTime >= 0
    ensures var s, sum := AfterAddTicks(c, ticks), c.currentTime + ticks;
      && s.currentTime == sum % c.wrapValue
      && s.monotonicReference - s.currentTime == c.monotonicReference - c.currentTime
      && (sum >= 0 ==> s.wraps == c.wraps + sum / c.wrapValue)
      && (sum < 0 && c.wraps >= 0 ==>
        s.wraps == if c.wraps > -(sum / c.wrapValue) then c.wraps + sum / c.wrapValue else 0)
  {
    hide AfterAddTicks;
    if c.currentTime + ticks >= 0 {
      AdvanceForward(c, ticks);
    } else {
      var k := AdvanceBack(c, ticks);
    }
  }
}
