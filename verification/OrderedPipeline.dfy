/** The extractor with ordered output: its callbacks are the reordering of the PES that arrive. */
module OrderedPipeline {
  import opened Bytes
  import opened Counting
  import opened OrderedOutput
  import opened Pes
  import opened PesExtractor
  import opened Pipeline
  import opened Reassembly
  import opened Reordering
  import opened TsPacket
  import Clock = CorrectedClock

  ghost predicate Sane(c: Clock.ClockState)
  {
    c.unwrapped >= 0 && c.unwrapped % Clock.CLK_MOD == c.lastTick
  }

  /** The clock after the PTS of `pes`. */
  ghost function ClockAfter(c: Clock.ClockState, pes: seq<PesPacket>): Clock.ClockState
  {
    if pes == [] then c
    else Clock.AfterUpdate(ClockAfter(c, pes[..|pes| - 1]), pes[|pes| - 1].pts).0
  }

  /** The unwrapped PTS under which each PES is put in the list. */
  ghost function Keys(c: Clock.ClockState, pes: seq<PesPacket>): (keys: seq<int>)
    ensures |keys| == |pes|
  {
    if pes == [] then [] else Keys(c, pes[..|pes| - 1]) + [ClockAfter(c, pes).unwrapped]
  }

  lemma {:induction false} KeysNonNegative(c: Clock.ClockState, pes: seq<PesPacket>)
    requires Sane(c)
    ensures NonNegative(Keys(c, pes)) && Sane(ClockAfter(c, pes))
  {
    if pes != [] {
      KeysNonNegative(c, pes[..|pes| - 1]);
      Clock.UpdateKeeps(ClockAfter(c, pes[..|pes| - 1]), pes[|pes| - 1].pts);
    }
  }

  ghost predicate Names(s: seq<Arrival>, pes: seq<PesPacket>)
  {
    forall i :: 0 <= i < |s| ==> 0 <= s[i].pes < |pes|
  }

  /** The PES that a list of arrivals stands for, under their keys. */
  ghost function Named(s: seq<Arrival>, pes: seq<PesPacket>): (r: seq<Entry<PesPacket>>)
    requires Names(s, pes)
    ensures |r| == |s| && forall i :: 0 <= i < |s| ==> r[i] == Entry(s[i].key, pes[s[i].pes])
  {
    seq(|s|, i requires 0 <= i < |s| => Entry(s[i].key, pes[s[i].pes]))
  }

  lemma {:induction false} SamePosition(s: seq<Arrival>, pes: seq<PesPacket>, key: int)
    requires Names(s, pes)
    ensures Position(Named(s, pes), key) == Position(s, key)
  {
    if s != [] && key >= s[0].key {
      assert Named(s, pes)[1..] == Named(s[1..], pes);
      SamePosition(s[1..], pes, key);
    }
  }

  /** Putting a PES in the list is putting its name in the list of names. */
  lemma NamedInserted(s: seq<Arrival>, pes: seq<PesPacket>, e: Arrival)
    requires Names(s, pes) && 0 <= e.pes < |pes|
    ensures Names(Inserted(s, e), pes)
    ensures Inserted(Named(s, pes), Entry(e.key, pes[e.pes])) == Named(Inserted(s, e), pes)
  {
    hide Position;
    SamePosition(s, pes, e.key);
  }

  lemma NamedAfter(s: seq<Arrival>, pes: seq<PesPacket>, e: Arrival)
    requires Names(s, pes) && 0 <= e.pes < |pes|
    ensures Names(After(s, e), pes)
    ensures After(Named(s, pes), Entry(e.key, pes[e.pes])) == Named(After(s, e), pes)
  {
    hide Inserted;
    var kept: seq<Arrival> := if Emits(s) then s[1..] else s;
    assert Emits(Named(s, pes)) <==> Emits(s);
    assert Emits(s) ==> Named(s, pes)[1..] == Named(s[1..], pes);
    NamedInserted(kept, pes, e);
  }

  /** All of `pes` through the ordered outlet. */
  ghost function AllThrough(o: Outlet, pes: seq<PesPacket>): Outlet
  {
    if pes == [] then o else Through(AllThrough(o, pes[..|pes| - 1]), true, pes[|pes| - 1])
  }

  /** The callbacks of a name list. */
  ghost function Callbacks(s: seq<Arrival>, pes: seq<PesPacket>): seq<PesPacket>
    requires Names(s, pes)
  {
    Pieces(Named(s, pes))
  }

  lemma NamesWiden(s: seq<Arrival>, pes: seq<PesPacket>, p: PesPacket)
    requires Names(s, pes)
    ensures Names(s, pes + [p]) && Named(s, pes + [p]) == Named(s, pes)
  {
  }

  lemma CallbacksSnoc(s: seq<Arrival>, e: Arrival, pes: seq<PesPacket>)
    requires Names(s, pes) && 0 <= e.pes < |pes|
    ensures Names(s + [e], pes) && Callbacks(s + [e], pes) == Callbacks(s, pes) + [pes[e.pes]]
  {
    assert Named(s + [e], pes) == Named(s, pes) + [Entry(e.key, pes[e.pes])];
  }

  /** From an empty list, the outlet is the reordering run, named. */
  ghost predicate Reorders(o: Outlet, c: Clock.ClockState, pes: seq<PesPacket>)
  {
    var keys := Keys(c, pes);
    && Names(OutAfter(keys), pes) && Names(HeldAfter(keys), pes)
    && o.emitted == Callbacks(OutAfter(keys), pes)
    && o.held == Named(HeldAfter(keys), pes)
    && o.clock == ClockAfter(c, pes)
  }

  lemma ReordersSnoc(o: Outlet, c: Clock.ClockState, pes: seq<PesPacket>, p: PesPacket)
    requires Reorders(o, c, pes)
    ensures Reorders(Through(o, true, p), c, pes + [p])
  {
    hide After, Emits, HeldAfter, OutAfter, Callbacks, Names, Named;
    var all := pes + [p];
    assert all[..|all| - 1] == pes;
    var keys, key := Keys(c, pes), ClockAfter(c, all).unwrapped;
    assert Keys(c, all) == keys + [key];
    RunStep(keys, key);
    NamesWiden(HeldAfter(keys), pes, p);
    NamesWiden(OutAfter(keys), pes, p);
    CallbacksWiden(OutAfter(keys), pes, p);
    NamedAfter(HeldAfter(keys), all, Entry(key, |keys|));
    EmitsNamed(OutAfter(keys), HeldAfter(keys), all);
  }

  lemma CallbacksWiden(s: seq<Arrival>, pes: seq<PesPacket>, p: PesPacket)
    requires Names(s, pes)
    ensures Names(s, pes + [p]) && Callbacks(s, pes + [p]) == Callbacks(s, pes)
  {
    NamesWiden(s, pes, p);
  }

  lemma EmitsNamed(out: seq<Arrival>, held: seq<Arrival>, pes: seq<PesPacket>)
    requires Names(out, pes) && Names(held, pes)
    ensures Emits(Named(held, pes)) <==> Emits(held)
    ensures Emits(held) ==> Names(out + [held[0]], pes)
                            && Callbacks(out + [held[0]], pes) == Callbacks(out, pes) + [Named(held, pes)[0].pes]
    ensures out + [] == out
  {
    if Emits(held) { CallbacksSnoc(out, held[0], pes); }
  }

  lemma {:induction false} OutletReorders(c: Clock.ClockState, pes: seq<PesPacket>)
    ensures Reorders(AllThrough(Outlet([], [], c), pes), c, pes)
  {
    hide Reorders, Through;
    if pes == [] {
      NothingReordered(c);
    } else {
      var n := |pes| - 1;
      OutletReorders(c, pes[..n]);
      ReordersSnoc(AllThrough(Outlet([], [], c), pes[..n]), c, pes[..n], pes[n]);
      assert pes[..n] + [pes[n]] == pes;
    }
  }

  lemma NothingReordered(c: Clock.ClockState)
    ensures Reorders(Outlet([], [], c), c, [])
  {
  }

  lemma {:induction false} UnitsAreAllThrough(o: Outlet, units: seq<Bytes>, pes: seq<PesPacket>)
    requires |units| == |pes| && forall k :: 0 <= k < |units| ==> PackedAs(units[k], pes[k])
    ensures UnitsThrough(o, true, false, units) == AllThrough(o, pes)
  {
    hide PackedAs, Delivered, Through;
    if units != [] {
      var n := |units| - 1;
      UnitsAreAllThrough(o, units[..n], pes[..n]);
      PackedIsDelivered(units[n], pes[n]);
    }
  }

  /**
   * Pack, packetize, interleave, extract with ordered output, flush: the callbacks are all the PES
   * but the last, as the reordering list puts them out, which is in stable order of unwrapped PTS
   * exactly when none of them overtakes 60 or more.
   */
  lemma OrderedEndToEnd(lim: Limits, pid: nat, h: seq<Packet>, cuts: seq<seq<Packet>>, units: seq<Bytes>, cc: nat,
                        pes: seq<PesPacket>)
    requires UsableLimits(lim) && Carries(h, pid, cuts, units, cc) && Manageable(lim, AllLoads(cuts), units)
        && units != []
    requires |units| == |pes| && forall k :: 0 <= k < |units| ==> PackedAs(units[k], pes[k])
    ensures var whole := pes[..|pes| - 1];
            var keys := Keys(Clock.Initial, whole);
            var o := UnitsThrough(Outlet([], [], Clock.Initial), true, false, Run(lim, Watch(pid, h)).handed);
            && Names(Output(keys), whole)
            && o.emitted + Pieces(o.held) == Callbacks(Output(keys), whole)
            && IsPermutation(Output(keys), keys)
            && (StableSorted(Output(keys)) <==> FewOvertaken(keys))
  {
    hide PackedAs, UnitsThrough, Run, Carries, Manageable, AllLoads, AllThrough, Keys, HeldAfter, OutAfter,
        IsPermutation, StableSorted, FewOvertaken, NonNegative;
    EndToEnd(lim, pid, h, cuts, units, cc);
    var n := |units| - 1;
    var whole := pes[..n];
    assert forall k :: 0 <= k < n ==> units[..n][k] == units[k] && whole[k] == pes[k];
    UnitsAreAllThrough(Outlet([], [], Clock.Initial), units[..n], whole);
    OutletReorders(Clock.Initial, whole);
    KeysNonNegative(Clock.Initial, whole);
    var keys := Keys(Clock.Initial, whole);
    CallbacksJoin(OutAfter(keys), HeldAfter(keys), whole);
    SortsExactlyWhen(keys);
  }

  lemma CallbacksJoin(a: seq<Arrival>, b: seq<Arrival>, pes: seq<PesPacket>)
    requires Names(a, pes) && Names(b, pes)
    ensures Names(a + b, pes) && Callbacks(a + b, pes) == Callbacks(a, pes) + Pieces(Named(b, pes))
  {
    assert Named(a + b, pes) == Named(a, pes) + Named(b, pes);
  }

  // ---------------------------------------------------------------- the true PTS

  /** The PES carry the samples of a true timeline, modulo 2^33. */
  ghost predicate Stamped(pes: seq<PesPacket>, times: seq<nat>)
  {
    |pes| == |times| && forall i :: 0 <= i < |pes| ==> pes[i].pts == times[i] % Clock.CLK_MOD
  }

  lemma {:induction false} ClockRuns(pes: seq<PesPacket>, times: seq<nat>)
    requires Stamped(pes, times)
    ensures ClockAfter(Clock.Initial, pes) == Clock.Run(Clock.Residues(times))
  {
    if pes != [] {
      var n := |pes| - 1;
      assert Clock.Residues(times)[..n] == Clock.Residues(times[..n]);
      ClockRuns(pes[..n], times[..n]);
    }
  }

  lemma TimelinePrefix(times: seq<nat>, n: nat)
    requires Clock.Timeline(times) && 0 < n <= |times|
    ensures Clock.Timeline(times[..n]) && Clock.Start(times[..n]) == Clock.Start(times)
  {
    var t := times[..n];
    assert forall i :: 0 <= i < n ==> t[i] == times[i];
  }

  ghost predicate AreTimes(keys: seq<int>, times: seq<nat>)
  {
    |keys| == |times| != 0 && forall i :: 0 <= i < |keys| ==> keys[i] == times[i] - Clock.Start(times)
  }

  lemma {:induction false} TimelineKeys(pes: seq<PesPacket>, times: seq<nat>)
    requires pes != [] && Stamped(pes, times) && Clock.Timeline(times)
    ensures AreTimes(Keys(Clock.Initial, pes), times)
  {
    hide ClockAfter, Clock.Timeline, Clock.Run;
    var n := |pes| - 1;
    ClockRuns(pes, times);
    Clock.FollowsTimeline(times);
    if n > 0 {
      TimelinePrefix(times, n);
      TimelineKeys(pes[..n], times[..n]);
    }
  }

  /**
   * For PTS that sample true times in steps below half the ring: the keys are the true times, less the start of the
   * first wrap, if and only if the times never go back before that start.
   */
  lemma KeysAreTimes(pes: seq<PesPacket>, times: seq<nat>)
    requires pes != [] && Stamped(pes, times) && Clock.ShortSteps(times)
    ensures AreTimes(Keys(Clock.Initial, pes), times) <==> Clock.FromStart(times)
  {
    hide Keys;
    KeysNonNegative(Clock.Initial, pes);
    if Clock.FromStart(times) {
      TimelineKeys(pes, times);
    }
  }

  /** The callbacks come in order of true time, those of equal time as they arrived. */
  ghost predicate InTrueOrder(s: seq<Arrival>, times: seq<nat>)
  {
    && (forall i :: 0 <= i < |s| ==> 0 <= s[i].pes < |times|)
    && forall i, j :: 0 <= i < j < |s| ==>
         var a, b := s[i].pes, s[j].pes;
         times[a] < times[b] || (times[a] == times[b] && a < b)
  }

  /** No arrival has sixty or more earlier ones of a later time. */
  ghost predicate FewLate(times: seq<nat>)
  {
    forall n :: 0 <= n < |times| ==> |Later(times, n)| < 60
  }

  ghost function Later(times: seq<nat>, n: nat): set<int>
    requires n < |times|
  {
    set i | 0 <= i < n && times[i] > times[n]
  }

  /** Taking the same number from every time changes neither order. */
  lemma TrueOrder(keys: seq<int>, times: seq<nat>, start: nat)
    requires |keys| == |times| && forall i :: 0 <= i < |keys| ==> keys[i] == times[i] - start
    requires IsPermutation(Output(keys), keys)
    ensures StableSorted(Output(keys)) <==> InTrueOrder(Output(keys), times)
    ensures FewOvertaken(keys) <==> FewLate(times)
  {
    hide Output, HeldAfter, OutAfter;
    var s := Output(keys);
    forall i | 0 <= i < |s| ensures 0 <= s[i].pes < |keys| && s[i].key == keys[s[i].pes] { assert s[i] in s; }
    forall n | 0 <= n < |keys| ensures Overtaken(keys, n) == Later(times, n) {}
  }

  /**
   * Where the PTS sample a timeline in steps below half the ring, the callbacks are in order of true PTS, across
   * wraps, exactly when no PES has sixty or more earlier ones of a later true PTS.
   */
  lemma OrderedByTruePts(lim: Limits, pid: nat, h: seq<Packet>, cuts: seq<seq<Packet>>, units: seq<Bytes>, cc: nat,
                         pes: seq<PesPacket>, times: seq<nat>)
    requires UsableLimits(lim) && Carries(h, pid, cuts, units, cc) && Manageable(lim, AllLoads(cuts), units)
        && |units| > 1
    requires |units| == |pes| && forall k :: 0 <= k < |units| ==> PackedAs(units[k], pes[k])
    requires Stamped(pes[..|pes| - 1], times) && Clock.Timeline(times)
    ensures var whole := pes[..|pes| - 1];
            var s := Output(Keys(Clock.Initial, whole));
            var o := UnitsThrough(Outlet([], [], Clock.Initial), true, false, Run(lim, Watch(pid, h)).handed);
            && Names(s, whole) && o.emitted + Pieces(o.held) == Callbacks(s, whole)
            && IsPermutation(s, Keys(Clock.Initial, whole))
            && (InTrueOrder(s, times) <==> FewLate(times))
  {
    hide PackedAs, UnitsThrough, Run, Carries, Manageable, AllLoads, AllThrough, Keys, Output, IsPermutation,
        StableSorted, FewOvertaken, Overtaken, FewLate, InTrueOrder, Clock.Timeline, Callbacks, Names, Clock.Run;
    OrderedEndToEnd(lim, pid, h, cuts, units, cc, pes);
    var whole := pes[..|pes| - 1];
    TimelineKeys(whole, times);
    TrueOrder(Keys(Clock.Initial, whole), times, Clock.Start(times));
  }

  /** Going back before that start disorders two PES: the clock begins again, and the earlier one comes out last. */
  lemma BackBeforeStart(a: PesPacket, b: PesPacket)
    requires a.pts == 1000 && b.pts == Clock.CLK_MOD - 1000
    ensures var times: seq<nat> := [Clock.CLK_MOD + 1000, Clock.CLK_MOD - 1000];
      && Stamped([a, b], times) && Clock.ShortSteps(times) && !Clock.FromStart(times) && FewLate(times)
      && !InTrueOrder(Output(Keys(Clock.Initial, [a, b])), times)
  {
    hide Output, Keys;
    var times: seq<nat> := [Clock.CLK_MOD + 1000, Clock.CLK_MOD - 1000];
    TwoKeys(a, b);
    TwoInOrder(1000, Clock.CLK_MOD - 1000);
    LaterFew(times);
    var s := Output(Keys(Clock.Initial, [a, b]));
    assert s[0].pes == 0 && s[1].pes == 1 && times[0] > times[1];
    assert times[1] < Clock.Start(times);
  }

  lemma TwoKeys(a: PesPacket, b: PesPacket)
    requires a.pts == 1000 && b.pts == Clock.CLK_MOD - 1000
    ensures Keys(Clock.Initial, [a, b]) == [1000, Clock.CLK_MOD - 1000]
  {
    hide Clock.AfterUpdate;
    var first := Clock.AfterUpdate(Clock.Initial, 1000).0;
    TwoUpdates();
    assert [a, b][..1] == [a] && [a][..0] == [];
    assert ClockAfter(Clock.Initial, [a]) == first && Keys(Clock.Initial, [a]) == [1000];
  }

  lemma TwoUpdates()
    ensures var first := Clock.AfterUpdate(Clock.Initial, 1000).0;
      first.unwrapped == 1000 && Clock.AfterUpdate(first, Clock.CLK_MOD - 1000).0.unwrapped == Clock.CLK_MOD - 1000
  {
  }

  lemma TwoInOrder(x: int, y: int)
    requires 0 <= x < y
    ensures var s := Output([x, y]); |s| == 2 && s[0].pes == 0 && s[1].pes == 1
  {
    hide Output, FewOvertaken;
    FewOfTwo([x, y]);
    SortsExactlyWhen([x, y]);
    var s := Output([x, y]);
    assert s[0] in s && s[1] in s && Before(s[0], s[1]);
  }

  lemma FewOfTwo(keys: seq<int>)
    requires |keys| == 2
    ensures FewOvertaken(keys)
  {
    forall n | 0 <= n < 2 ensures |Overtaken(keys, n)| < ORDERED_LIST_DEPTH {
      SubsetSize(Overtaken(keys, n), {0});
    }
  }

  lemma LaterFew(times: seq<nat>)
    requires |times| == 2
    ensures FewLate(times)
  {
    forall n | 0 <= n < 2 ensures |Later(times, n)| < ORDERED_LIST_DEPTH {
      SubsetSize(Later(times, n), {0});
    }
  }
}
