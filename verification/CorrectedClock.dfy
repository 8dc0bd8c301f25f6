/** The 33-bit PTS unwrapped by signed minimal differences: the corrected clock of src/clocks.c. */
module CorrectedClock {

  const CLK_MOD := 0x2_0000_0000
  const CLK_HALF := 0x1_0000_0000
  const JITTER_MAX := 45000

  datatype ClockState = ClockState(initialized: bool, lastTick: nat, unwrapped: int, corrected: int)

  // ---------------------------------------------------------------- specification

  /** The difference of two values on the 33-bit ring, taken the short way round. */
  function SignedDelta(curr: nat, prev: nat): (d: int)
    ensures -CLK_HALF <= d < CLK_HALF
    ensures (prev + d) % CLK_MOD == curr % CLK_MOD
  {
    var diff := (curr % CLK_MOD - prev % CLK_MOD) % CLK_MOD;
    if diff >= CLK_HALF then diff - CLK_MOD else diff
  }

  function Max(a: int, b: int): int { if a >= b then a else b }

  /** One sample: the new state and whether the clock had to be reset. */
  function AfterUpdate(s: ClockState, ticks: int): (ClockState, bool)
  {
    var p33 := ticks % CLK_MOD;
    var next := s.unwrapped + SignedDelta(p33, s.lastTick);
    if next < 0 then
      (s.(lastTick := p33, unwrapped := p33, corrected := p33), true)
    else
      (s.(lastTick := p33, unwrapped := next, corrected := Max(s.corrected, next)), false)
  }

  const Initial := ClockState(true, 0, 0, 0)

  // ---------------------------------------------------------------- the code

  class CorrectedClock {
    var initialized: bool
    var lastTickValue: nat
    var unwrapped: int
    var correctedClk: int

    ghost function State(): ClockState
      reads this
    {
      ClockState(initialized, lastTickValue, unwrapped, correctedClk)
    }

    constructor ()
      ensures State() == ClockState(false, 0, 0, 0)
    {
      initialized, lastTickValue, unwrapped, correctedClk := false, 0, 0, 0;
    }

    method Init(hz: int) returns (ret: int)
      modifies this
      ensures hz == 90000 ==> ret == 0 && State() == Initial
      ensures hz != 90000 ==> ret == -1 && State() == old(State())
    {
      if hz != 90000 {
        return -1;
      }
      initialized, lastTickValue, unwrapped, correctedClk := true, 0, 0, 0;
      ret := 0;
    }

    method Update(ticks: int) returns (ret: int)
      modifies this
      ensures !old(initialized) ==> ret == -1 && State() == old(State())
      ensures old(initialized) ==> (State(), ret == -1) == AfterUpdate(old(State()), ticks)
    {
      if !initialized {
        return -1;
      }
      ret := 0;
      var p33 := ticks % CLK_MOD;
      var d := SignedDelta(p33, lastTickValue);
      unwrapped := unwrapped + d;
      if unwrapped < 0 {
        correctedClk := p33;
        unwrapped := p33;
        ret := -1;
      } else if correctedClk - unwrapped > JITTER_MAX {
        // a large jump back is held
      } else {
        if unwrapped > correctedClk {
          correctedClk := unwrapped;
        }
      }
      lastTickValue := p33;
    }
  }

  // ---------------------------------------------------------------- runs

  function Run(ticks: seq<int>): ClockState
  {
    if ticks == [] then Initial else AfterUpdate(Run(ticks[..|ticks| - 1]), ticks[|ticks| - 1]).0
  }

  /** The unwrapped values since the last reset, the starting one included. */
  function SinceReset(ticks: seq<int>): seq<int>
  {
    if ticks == [] then [0]
    else
      var init, t := ticks[..|ticks| - 1], ticks[|ticks| - 1];
      if AfterUpdate(Run(init), t).1 then [Run(ticks).unwrapped] else SinceReset(init) + [Run(ticks).unwrapped]
  }

  predicate IsMaximum(m: int, s: seq<int>)
  {
    m in s && forall x :: x in s ==> x <= m
  }

  lemma ResidueStep(u: int, last: nat, d: int, p: nat)
    requires u % CLK_MOD == last && last < CLK_MOD && (last + d) % CLK_MOD == p
    ensures (u + d) % CLK_MOD == p
  {
    var k := u / CLK_MOD;
    assert u == k * CLK_MOD + last;
    assert u + d == k * CLK_MOD + (last + d);
  }

  /**
   * After any samples at all, the unwrapped value is not negative and is the last sample modulo
   * 2^33, and the corrected value is the greatest unwrapped one since the last reset.
   */
  lemma {:induction false} RunInvariant(ticks: seq<int>)
    ensures var s := Run(ticks);
      && s.initialized && s.unwrapped >= 0
      && s.unwrapped % CLK_MOD == s.lastTick
      && s.lastTick == (if ticks == [] then 0 else ticks[|ticks| - 1] % CLK_MOD)
      && IsMaximum(s.corrected, SinceReset(ticks))
  {
    if ticks != [] {
      var init, t := ticks[..|ticks| - 1], ticks[|ticks| - 1];
      hide AfterUpdate, IsMaximum;
      RunInvariant(init);
      var s := Run(init);
      UpdateKeeps(s, t);
      MaximumOf(SinceReset(init), s.corrected, Run(ticks).unwrapped);
    } else {
      assert IsMaximum(0, [0]);
    }
  }

  lemma UpdateKeeps(s: ClockState, t: int)
    requires s.unwrapped >= 0 && s.unwrapped % CLK_MOD == s.lastTick
    ensures var (n, reset) := AfterUpdate(s, t);
      && n.initialized == s.initialized && n.unwrapped >= 0
      && n.lastTick == t % CLK_MOD && n.unwrapped % CLK_MOD == n.lastTick
      && n.corrected == if reset then n.unwrapped else Max(s.corrected, n.unwrapped)
  {
    hide SignedDelta;
    ResidueStep(s.unwrapped, s.lastTick, SignedDelta(t % CLK_MOD, s.lastTick), t % CLK_MOD);
  }

  lemma MaximumOf(s: seq<int>, m: int, x: int)
    requires IsMaximum(m, s)
    ensures IsMaximum(Max(m, x), s + [x]) && IsMaximum(x, [x])
  {
    if m < x { assert (s + [x])[|s|] == x; } else {
      var i :| 0 <= i < |s| && s[i] == m;
      assert (s + [x])[i] == m;
    }
  }

  // ---------------------------------------------------------------- following the true timeline

  /** True times whose steps are under half the ring. */
  ghost predicate ShortSteps(times: seq<nat>)
  {
    times != [] && forall i :: 1 <= i < |times| ==> -CLK_HALF <= times[i] as int - times[i - 1] as int < CLK_HALF
  }

  /** Where the wrap begins in which the times do. */
  function Start(times: seq<nat>): nat
    requires times != []
  {
    times[0] / CLK_MOD * CLK_MOD
  }

  /** They never fall below the wrap they started in. */
  ghost predicate FromStart(times: seq<nat>)
    requires times != []
  {
    forall i :: 0 <= i < |times| ==> Start(times) <= times[i]
  }

  ghost predicate Timeline(times: seq<nat>)
  {
    ShortSteps(times) && FromStart(times)
  }

  lemma Around(x: int)
    requires -CLK_MOD < x < CLK_MOD
    ensures x % CLK_MOD == if x >= 0 then x else x + CLK_MOD
  {
  }

  lemma ShortWayRound(t: nat, d: int)
    requires -CLK_HALF <= d < CLK_HALF && t + d >= 0
    ensures SignedDelta((t + d) % CLK_MOD, t % CLK_MOD) == d
  {
    var a, b := (t + d) % CLK_MOD, t % CLK_MOD;
    var m := (t + d) / CLK_MOD - t / CLK_MOD;
    assert a - b == d - CLK_MOD * m && -1 <= m <= 1;
    Around(a);
    Around(b);
    Around(a - b);
  }

  function Residues(times: seq<nat>): seq<int>
  {
    seq(|times|, i requires 0 <= i < |times| => times[i] % CLK_MOD)
  }

  lemma FirstSample(t: nat)
    ensures AfterUpdate(Initial, t % CLK_MOD).0.unwrapped == t % CLK_MOD
    ensures AfterUpdate(Initial, t % CLK_MOD).0.lastTick == t % CLK_MOD
  {
  }

  lemma FollowsStep(s: ClockState, t: nat, d: int, start: nat)
    requires -CLK_HALF <= d < CLK_HALF && start <= t + d
    requires s.unwrapped == t - start && s.lastTick == t % CLK_MOD
    ensures var n := AfterUpdate(s, (t + d) % CLK_MOD).0;
            n.unwrapped == t + d - start && n.lastTick == (t + d) % CLK_MOD
  {
    hide SignedDelta;
    ShortWayRound(t, d);
    assert (t + d) % CLK_MOD % CLK_MOD == (t + d) % CLK_MOD;
  }

  lemma TimelinePrefix(times: seq<nat>)
    requires Timeline(times) && |times| > 1
    ensures var init := times[..|times| - 1];
      Timeline(init) && init[0] == times[0] && init[|init| - 1] == times[|times| - 2]
  {
    var init := times[..|times| - 1];
    assert forall i :: 0 <= i < |init| ==> init[i] == times[i];
  }

  /**
   * From the first sample on, across any number of wraps and through steps back, the unwrapped
   * value is the true time counted from the start of the wrap in which the samples began.
   */
  lemma {:induction false} FollowsTimeline(times: seq<nat>)
    requires Timeline(times)
    ensures var n := |times| - 1;
      Run(Residues(times)).unwrapped == times[n] - Start(times)
    ensures Run(Residues(times)).lastTick == times[|times| - 1] % CLK_MOD
  {
    var n := |times| - 1;
    var init := times[..n];
    assert Residues(times)[..n] == Residues(init);
    if n == 0 {
      assert Residues(init) == [];
      FirstSample(times[0]);
    } else {
      hide AfterUpdate, Residues;
      TimelinePrefix(times);
      FollowsTimeline(init);
      FollowsStep(Run(Residues(init)), times[n - 1], times[n] as int - times[n - 1] as int,
          Start(times));
    }
  }
}
