/** Which losses cost the extractor a unit: src/pes-extractor.c watches the error count of the whole stream. */
module Losses {
  import opened Bytes
  import opened PesExtractor
  import opened Reassembly
  import opened Stats
  import opened TsPacket

  predicate StartsOn(p: Packet, pid: nat)
  {
    Pid(p) == pid && Pusi(p) && !AdaptionOnly(p)
  }

  /** The payload of a PID's packets. */
  function CarriedOn(h: seq<Packet>, pid: nat): Bytes
  {
    if h == [] then []
    else
      var p := h[|h| - 1];
      CarriedOn(h[..|h| - 1], pid) + if Pid(p) == pid && !AdaptionOnly(p) then Payload(p) else []
  }

  /** From packet `a`, with which a unit of the PID begins, up to `b` no other begins. */
  predicate NoStart(h: seq<Packet>, pid: nat, a: nat, b: nat)
  {
    a < b <= |h| && StartsOn(h[a], pid) && forall k :: a < k < b ==> !StartsOn(h[k], pid)
  }

  function ErrorsAt(h: seq<Packet>, n: nat): nat
    requires n < |h|
  {
    StreamErrors(h[..n + 1])
  }

  lemma WatchNext(pid: nat, h: seq<Packet>, n: nat)
    requires n < |h|
    ensures Watch(pid, h[..n + 1]) == Watch(pid, h[..n]) + if Pid(h[n]) == pid then [Seen(h[n], ErrorsAt(h, n))] else []
  {
    assert h[..n + 1] == h[..n] + [h[n]];
    WatchSnoc(pid, h[..n], h[n]);
  }

  lemma {:induction false} ErrorsUp(h: seq<Packet>, m: nat, n: nat)
    requires m <= n < |h|
    ensures ErrorsAt(h, m) <= ErrorsAt(h, n)
  {
    if m < n {
      assert h[..n + 1] == h[..n] + [h[n]];
      StreamErrorsSnoc(h[..n], h[n]);
      ErrorsUp(h, m, n - 1);
    }
  }

  /** What the extractor has seen of the PID from `a` up to `n`: the unit's packets, and no other start. */
  ghost predicate SeenFrom(h: seq<Packet>, pid: nat, a: nat, n: nat)
    requires a < n <= |h|
  {
    var i, o := |Watch(pid, h[..a])|, Watch(pid, h[..n]);
    && i < |o| && o[i] == Seen(h[a], ErrorsAt(h, a))
    && (forall k :: i < k < |o| ==> !Starts(o[k]))
    && (forall k :: i <= k < |o| ==> ErrorsAt(h, a) <= o[k].errors <= ErrorsAt(h, n - 1))
    && Carried(o[i..]) == CarriedOn(h[a..n], pid)
  }

  lemma CarriedOnSnoc(h: seq<Packet>, pid: nat, a: nat, n: nat)
    requires a <= n < |h|
    ensures CarriedOn(h[a..n + 1], pid)
            == CarriedOn(h[a..n], pid) + if Pid(h[n]) == pid && !AdaptionOnly(h[n]) then Payload(h[n]) else []
  {
    var s := h[a..n + 1];
    assert s[..|s| - 1] == h[a..n] && s[|s| - 1] == h[n];
  }

  lemma FirstSeen(h: seq<Packet>, pid: nat, a: nat)
    requires a < |h| && StartsOn(h[a], pid)
    ensures SeenFrom(h, pid, a, a + 1)
  {
    hide Pid, Pusi, AdaptionOnly, Payload, StreamErrors;
    WatchNext(pid, h, a);
    CarriedOnSnoc(h, pid, a, a);
    var x := Seen(h[a], ErrorsAt(h, a));
    var i, o := |Watch(pid, h[..a])|, Watch(pid, h[..a + 1]);
    assert o[i..] == [x];
    CarriedOne(x);
    assert h[a..a] == [] && CarriedOn([], pid) == [];
  }

  lemma NextSeen(h: seq<Packet>, pid: nat, a: nat, n: nat)
    requires a < n < |h| && SeenFrom(h, pid, a, n) && !StartsOn(h[n], pid)
    ensures SeenFrom(h, pid, a, n + 1)
  {
    hide Pid, Pusi, AdaptionOnly, Payload, StreamErrors, Watch, CarriedOn, Carried;
    WatchNext(pid, h, n);
    ErrorsUp(h, n - 1, n);
    ErrorsUp(h, a, n);
    CarriedOnSnoc(h, pid, a, n);
    var i, o := |Watch(pid, h[..a])|, Watch(pid, h[..n]);
    if Pid(h[n]) == pid {
      var x := Seen(h[n], ErrorsAt(h, n));
      assert (o + [x])[i..] == o[i..] + [x];
      CarriedSnoc(o[i..], x);
    } else {
      assert o + [] == o;
    }
  }

  lemma {:induction false} AllSeen(h: seq<Packet>, pid: nat, a: nat, n: nat)
    requires a < n && NoStart(h, pid, a, n)
    ensures SeenFrom(h, pid, a, n)
  {
    hide SeenFrom, StartsOn;
    if n == a + 1 {
      FirstSeen(h, pid, a);
    } else {
      AllSeen(h, pid, a, n - 1);
      NextSeen(h, pid, a, n - 1);
    }
  }

  /** The unit ends whole at a next start if and only if the count has not moved. */
  lemma WholeExactlyWhen(o: seq<Seen>, x: Seen, i: nat, low: nat, high: nat)
    requires i < |o| && Starts(o[i]) && Starts(x) && (forall k :: i < k < |o| ==> !Starts(o[k]))
    requires o[i].errors == low && x.errors == high && forall k :: i <= k < |o| ==> low <= o[k].errors <= high
    ensures UnitEndingAt(o + [x], |o|) == if low == high && Carried(o[i..]) != [] then [Carried(o[i..])] else []
  {
    hide Starts, Carried;
    var p := o + [x];
    assert p[..|o|] == o && p[i..|o|] == o[i..] && p[|o|] == x;
    assert forall k :: 0 <= k < |o| ==> p[k] == o[k];
    forall k: nat | IsUnit(p, k, |o|) ensures k == i {
    }
    if low == high {
      assert OpenAt(o, i);
      assert IsUnit(p, i, |o|);
    }
  }

  lemma HandedStep(lim: Limits, o: seq<Seen>, x: Seen)
    requires UsableLimits(lim) && !Run(lim, o + [x]).aborted
    ensures Run(lim, o + [x]).handed == Run(lim, o).handed + UnitEndingAt(o + [x], |o|)
  {
    hide Run, UnitEndingAt;
    NotAbortedBefore(lim, o, x);
    RunTracks(lim, o);
    RunTracks(lim, o + [x]);
    assert (o + [x])[..|o|] == o;
  }

  /**
   * A unit of the PID, from the packet `a` that starts it up to the next start `b`: the extractor hands it over when
   * it reaches `b` if and only if the error count of the whole stream is the same at both.
   */
  lemma HandedExactlyWhen(lim: Limits, pid: nat, h: seq<Packet>, a: nat, b: nat)
    requires UsableLimits(lim) && NoStart(h, pid, a, b) && b < |h| && StartsOn(h[b], pid)
    requires CarriedOn(h[a..b], pid) != [] && !Run(lim, Watch(pid, h[..b + 1])).aborted
    ensures Run(lim, Watch(pid, h[..b + 1])).handed
            == Run(lim, Watch(pid, h[..b])).handed
               + if ErrorsAt(h, a) == ErrorsAt(h, b) then [CarriedOn(h[a..b], pid)] else []
  {
    hide Run, Pid, Pusi, AdaptionOnly, Payload, StreamErrors, Watch, CarriedOn, Carried, UnitEndingAt;
    AllSeen(h, pid, a, b);
    WatchNext(pid, h, b);
    ErrorsUp(h, b - 1, b);
    ErrorsUp(h, a, b);
    var i, o, x := |Watch(pid, h[..a])|, Watch(pid, h[..b]), Seen(h[b], ErrorsAt(h, b));
    WholeExactlyWhen(o, x, i, ErrorsAt(h, a), ErrorsAt(h, b));
    HandedStep(lim, o, x);
  }

  /** So a gap on any PID, between the two starts, costs this PID its unit. */
  lemma AnyGapDiscards(lim: Limits, pid: nat, h: seq<Packet>, a: nat, b: nat, k: nat)
    requires UsableLimits(lim) && NoStart(h, pid, a, b) && b < |h| && StartsOn(h[b], pid)
    requires CarriedOn(h[a..b], pid) != [] && !Run(lim, Watch(pid, h[..b + 1])).aborted
    requires a < k <= b && NewError(h[..k], h[k]) > 0
    ensures Run(lim, Watch(pid, h[..b + 1])).handed == Run(lim, Watch(pid, h[..b])).handed
  {
    hide Run, StartsOn, StreamErrors, Watch, CarriedOn, NewError;
    HandedExactlyWhen(lim, pid, h, a, b);
    assert h[..k + 1] == h[..k] + [h[k]];
    StreamErrorsSnoc(h[..k], h[k]);
    ErrorsUp(h, a, k - 1);
    ErrorsUp(h, k, b);
    assert Run(lim, Watch(pid, h[..b])).handed + [] == Run(lim, Watch(pid, h[..b])).handed;
  }

  // ---------------------------------------------------------------- a loss elsewhere

  /** A packet full of payload. */
  function Numbered(pid: byte, start: bool, cc: nat): Packet
  {
    [0x47, if start then 0x40 else 0x00, pid, 0x10 + cc % 16] + seq(184, _ => 0x55)
  }

  lemma NumberedFacts(pid: byte, start: bool, cc: nat)
    ensures var p := Numbered(pid, start, cc);
      && Pid(p) == pid as int && (Pusi(p) <==> start) && !AdaptionOnly(p) && |Payload(p)| == 184
      && ContinuityCounter(p) == cc % 16 && AdaptionFieldControl(p) == 1 && SyncPresent(p)
  {
  }

  /** A start after a loss: what was in hand goes, and nothing is handed over. */
  lemma LossStep(s: State, lim: Limits, x: Seen)
    requires UsableLimits(lim) && RingSane(s, lim) && !s.aborted && Starts(x) && x.errors != s.lastCC
    ensures !Step(s, lim, x).aborted && Step(s, lim, x).handed == s.handed
  {
    hide Pusi, AdaptionOnly, Payload;
  }

  /** Packets of PID 32 with counters 0 and 1, and between them packets of PID 33 with counters 0 and 5. */
  function LossElsewhere(): seq<Packet>
  {
    [Numbered(32, true, 0), Numbered(33, false, 0), Numbered(33, false, 5), Numbered(32, true, 1)]
  }

  lemma ElsewherePids()
    ensures var h := LossElsewhere();
      && OnPid(h[..1], 32) == OnPid(h[..2], 32) == OnPid(h[..3], 32) == [h[0]] && OnPid(h, 32) == [h[0], h[3]]
      && OnPid(h[..2], 33) == [h[1]] && CarriedOn(h[0..3], 32) == Payload(h[0])
      && Pid(h[0]) == Pid(h[3]) == 32 && Pid(h[1]) == Pid(h[2]) == 33
  {
    hide Numbered, Pid, Pusi, AdaptionOnly, Payload;
    var h := LossElsewhere();
    NumberedFacts(32, true, 0);
    NumberedFacts(33, false, 0);
    NumberedFacts(33, false, 5);
    NumberedFacts(32, true, 1);
    assert h[..1] == [] + [h[0]] && h[..2] == h[..1] + [h[1]] && h[..3] == h[..2] + [h[2]] && h == h[..3] + [h[3]];
    OnPidSnoc([], h[0], 32);
    OnPidSnoc(h[..1], h[1], 32);
    OnPidSnoc(h[..2], h[2], 32);
    OnPidSnoc(h[..3], h[3], 32);
    OnPidSnoc([], h[0], 33);
    OnPidSnoc(h[..1], h[1], 33);
    CarriedOnSnoc(h, 32, 0, 0);
    CarriedOnSnoc(h, 32, 0, 1);
    CarriedOnSnoc(h, 32, 0, 2);
    assert h[0..0] == [];
  }

  lemma ElsewhereErrors()
    ensures var h := LossElsewhere();
      PidErrors(h, 32) == 0 && ErrorsAt(h, 0) == 0 && ErrorsAt(h, 3) > 0
  {
    hide Numbered, Pid, Pusi, AdaptionOnly, Payload, OnPid, AdaptionFieldControl, ContinuityCounter, StreamErrors,
        SyncPresent;
    var h := LossElsewhere();
    ElsewherePids();
    NumberedFacts(32, true, 0);
    NumberedFacts(33, false, 0);
    NumberedFacts(33, false, 5);
    NumberedFacts(32, true, 1);
    NoneYet();
    assert h[..0] == [] && h[..1] == h[..0] + [h[0]] && h[..3] == h[..2] + [h[2]] && [h[0], h[3]][..1] == [h[0]];
    StreamErrorsSnoc(h[..0], h[0]);
    StreamErrorsSnoc(h[..2], h[2]);
    ErrorsUp(h, 2, 3);
  }

  lemma NoneYet()
    ensures StreamErrors([]) == 0 && forall q :: OnPid([], q) == []
  {
  }

  /** PID 32 loses nothing, PID 33 does; and PID 32's unit of 184 bytes is not handed over, whatever the ring. */
  lemma OtherPidsLossDiscards(lim: Limits)
    requires UsableLimits(lim)
    ensures var h := LossElsewhere();
      && PidErrors(h, 32) == 0 && |CarriedOn(h[0..3], 32)| == 184
      && !Run(lim, Watch(32, h)).aborted && Run(lim, Watch(32, h)).handed == []
  {
    hide Numbered, Pid, Pusi, AdaptionOnly, Payload, StreamErrors, PidErrors, Run, Watch, Step;
    var h := LossElsewhere();
    ElsewherePids();
    ElsewhereErrors();
    NumberedFacts(32, true, 0);
    NumberedFacts(32, true, 1);
    WatchNext(32, h, 0);
    WatchNext(32, h, 1);
    WatchNext(32, h, 2);
    WatchNext(32, h, 3);
    NothingWatched(h);
    assert h[..4] == h;
    var x, y := Seen(h[0], ErrorsAt(h, 0)), Seen(h[3], ErrorsAt(h, 3));
    assert Watch(32, h) == [x] + [y] && [] + [x] == [x];
    RunOf(lim, [], x);
    StartIs(lim);
    FirstOf(lim, x);
    RunTracks(lim, [x]);
    RunOf(lim, [x], y);
    LossStep(Run(lim, [x]), lim, y);
  }

  lemma NothingWatched(h: seq<Packet>)
    ensures Watch(32, h[..0]) == []
  {
  }
}
