/**
 * What the PES extractor hands to its parser, src/pes-extractor.c: the
 * per-packet state machine of ltntstools_pes_extractor_write, and the list of
 * whole PES units a reader of the stream would name.
 */
module Reassembly {
  import opened Bytes
  import opened TsPacket

  /** A packet on the extractor's PID, and the stream's continuity errors counted once it has arrived. */
  datatype Seen = Seen(pkt: Packet, errors: nat)

  // ---------------------------------------------------------------- the units of a stream

  /** A payload packet that starts a PES. */
  predicate Starts(s: Seen) { Pusi(s.pkt) && !AdaptionOnly(s.pkt) }

  /** The payload of the packets of `o` that carry one. */
  function Carried(o: seq<Seen>): Bytes
  {
    if o == [] then []
    else
      var last := o[|o| - 1].pkt;
      Carried(o[..|o| - 1]) + if AdaptionOnly(last) then [] else Payload(last)
  }

  predicate Steady(o: seq<Seen>, i: nat)
    requires i < |o|
  {
    forall k :: i <= k < |o| ==> o[k].errors == o[i].errors
  }

  /** The PES started at `i` is still being received at the end of `o`, and nothing was lost since. */
  predicate OpenAt(o: seq<Seen>, i: nat)
  {
    && i < |o|
    && Starts(o[i])
    && (forall k :: i < k < |o| ==> !Starts(o[k]))
    && Steady(o, i)
  }

  /** The packets from `i` up to, not including, `j` are one whole PES. */
  predicate IsUnit(o: seq<Seen>, i: nat, j: nat)
  {
    && i < j < |o|
    && OpenAt(o[..j], i)
    && Starts(o[j])
    && o[j].errors == o[i].errors
  }

  /** The whole, non-empty PES of a stream, in the order in which they end. */
  ghost function Units(o: seq<Seen>): seq<Bytes>
  {
    if o == [] then [] else Units(o[..|o| - 1]) + UnitEndingAt(o, |o| - 1)
  }

  ghost function UnitEndingAt(o: seq<Seen>, j: nat): seq<Bytes>
    requires j < |o|
  {
    if exists i: nat :: IsUnit(o, i, j) then
      var i: nat :| IsUnit(o, i, j);
      if Carried(o[i..j]) == [] then [] else [Carried(o[i..j])]
    else []
  }

  lemma OpenAtUnique(o: seq<Seen>, i: nat, j: nat)
    requires OpenAt(o, i) && OpenAt(o, j)
    ensures i == j
  {
  }

  // ---------------------------------------------------------------- the state machine

  /** Bytes in the first allocation of the ring, and the most it may grow to. */
  datatype Limits = Limits(initial: nat, max: nat)

  /** Two packets' worth, so that making room for one never takes more than the ring holds. */
  predicate UsableLimits(lim: Limits)
  {
    2 * 184 <= lim.initial <= lim.max
  }

  /**
   * `acc` is everything appended since the ring was last emptied, so |acc| is computedRingSize.
   * `fill` is what the ring still holds; `size` its present allocation.
   */
  datatype State = State(appending: bool, acc: Bytes, fill: nat, size: nat, lastCC: nat,
                         handed: seq<Bytes>, aborted: bool)

  function Start(lim: Limits): State
  {
    State(false, [], 0, lim.initial, 0, [], false)
  }

  function Emptied(s: State): State
  {
    s.(acc := [], fill := 0)
  }

  /** A write overflows when the free room is too small and the allocation may not grow. */
  predicate Overflows(s: State, lim: Limits, bytes: nat)
  {
    bytes > s.size - s.fill && s.size + bytes * 128 > lim.max
  }

  function Append(s: State, lim: Limits, payload: Bytes): State
  {
    var w := |payload|;
    if Overflows(s, lim, w) then
      s.(acc := s.acc + payload) // the oldest w bytes made room
    else if w > s.size - s.fill then
      s.(acc := s.acc + payload, fill := s.fill + w, size := s.size + w * 128)
    else
      s.(acc := s.acc + payload, fill := s.fill + w)
  }

  /** _processRing, as far as the bytes go. */
  function ProcessRing(s: State): State
  {
    if s.fill == 0 then s
    else if |s.acc| != s.fill then s.(aborted := true)
    else if s.fill < 16 then s.(aborted := true)
    else s.(handed := s.handed + [s.acc])
  }

  /** One turn of the loop, for a packet on the extractor's PID. */
  function Step(s: State, lim: Limits, seen: Seen): State
  {
    if s.aborted then s
    else
      var c := if s.lastCC != seen.errors then Emptied(s).(appending := false) else s;
      var s1 := c.(lastCC := seen.errors);
      if AdaptionOnly(seen.pkt) then s1
      else if !Pusi(seen.pkt) then
        if s1.appending then Append(s1, lim, Payload(seen.pkt)) else s1
      else
        NewUnit(if s1.appending then s1 else Emptied(s1).(appending := true), lim, Payload(seen.pkt))
  }

  /** A packet that starts a PES: what the ring holds is processed, and the new payload goes in. */
  function NewUnit(s: State, lim: Limits, payload: Bytes): State
  {
    var t := ProcessRing(s);
    if t.aborted then t
    else if Overflows(Emptied(t), lim, |payload|) then Append(Emptied(t), lim, payload).(aborted := true)
    else Append(Emptied(t), lim, payload)
  }

  function Run(lim: Limits, o: seq<Seen>): State
  {
    if o == [] then Start(lim) else Step(Run(lim, o[..|o| - 1]), lim, o[|o| - 1])
  }

  /** The ring and the count agree, or the ring has dropped something since it was last emptied. */
  predicate RingSane(s: State, lim: Limits)
  {
    && lim.initial <= s.size <= lim.max
    && s.fill <= |s.acc|
    && s.fill <= s.size
    && (s.acc != [] ==> s.fill > 0)
  }

  /** What is in hand: the PES open at the end of the stream, if there is one. */
  ghost predicate Tracks(s: State, o: seq<Seen>)
  {
    && s.lastCC == (if o == [] then 0 else o[|o| - 1].errors)
    && (s.appending ==> exists i: nat :: i < |o| && OpenAt(o, i) && s.acc == Carried(o[i..]))
    && (!s.appending ==> s.acc == [] && forall i: nat :: !OpenAt(o, i))
  }

  lemma CarriedSnoc(o: seq<Seen>, x: Seen)
    ensures Carried(o + [x]) == Carried(o) + if AdaptionOnly(x.pkt) then [] else Payload(x.pkt)
  {
    assert (o + [x])[..|o|] == o;
  }

  lemma CarriedFrom(o: seq<Seen>, x: Seen, i: nat)
    requires i <= |o|
    ensures Carried((o + [x])[i..]) == Carried(o[i..]) + if AdaptionOnly(x.pkt) then [] else Payload(x.pkt)
  {
    assert (o + [x])[i..] == o[i..] + [x];
    CarriedSnoc(o[i..], x);
  }

  /** An open PES stays open exactly when the next packet starts none and brings no error. */
  lemma OpenAtSnoc(o: seq<Seen>, x: Seen, i: nat)
    ensures i < |o| ==> (OpenAt(o + [x], i) <==> OpenAt(o, i) && !Starts(x) && x.errors == o[i].errors)
    ensures i == |o| ==> (OpenAt(o + [x], i) <==> Starts(x))
    ensures i > |o| ==> !OpenAt(o + [x], i)
  {
    var p := o + [x];
    assert p[|o|] == x;
    if i < |o| && OpenAt(p, i) {
      assert forall k :: i <= k < |o| ==> p[k] == o[k];
    }
  }

  lemma ErrorsOfOpen(o: seq<Seen>, i: nat)
    requires OpenAt(o, i)
    ensures o[i].errors == o[|o| - 1].errors
  {
  }

  /** A packet ends a unit exactly when it starts a PES while one is open and brings no error. */
  lemma UnitsSnoc(o: seq<Seen>, x: Seen, i: nat)
    requires OpenAt(o, i)
    ensures Starts(x) && x.errors == o[i].errors ==>
      Units(o + [x]) == Units(o) + if Carried(o[i..]) == [] then [] else [Carried(o[i..])]
    ensures !(Starts(x) && x.errors == o[i].errors) ==> Units(o + [x]) == Units(o)
  {
    hide Carried, OpenAt, Starts, Units;
    var p := o + [x];
    assert p[..|o|] == o && p[|o|] == x;
    OpenIndex(o, i);
    forall k: nat | IsUnit(p, k, |o|) ensures k == i {
      OpenAtUnique(o, i, k);
    }
    UnitsOfSnoc(o, x);
    if Starts(x) && x.errors == o[i].errors {
      assert IsUnit(p, i, |o|);
      assert p[i..|o|] == o[i..];
    }
  }

  lemma UnitsOfSnoc(o: seq<Seen>, x: Seen)
    ensures Units(o + [x]) == Units(o) + UnitEndingAt(o + [x], |o|)
  {
    hide UnitEndingAt;
    assert (o + [x])[..|o|] == o;
  }

  lemma UnitsSnocNone(o: seq<Seen>, x: Seen)
    requires forall i: nat :: !OpenAt(o, i)
    ensures Units(o + [x]) == Units(o)
  {
    var p := o + [x];
    assert p[..|o|] == o;
    forall k: nat ensures !IsUnit(p, k, |o|) {
    }
  }

  lemma StepSane(s: State, lim: Limits, x: Seen)
    requires UsableLimits(lim) && RingSane(s, lim)
    ensures RingSane(Step(s, lim, x), lim)
  {
    hide Pusi, AdaptionOnly, Payload;
  }

  /** StepTracks while a PES is open. */
  lemma StepOpen(s: State, lim: Limits, o: seq<Seen>, x: Seen, i: nat)
    requires UsableLimits(lim) && RingSane(s, lim)
    requires !s.aborted && s.appending && i < |o| && OpenAt(o, i) && s.acc == Carried(o[i..])
    requires s.lastCC == o[|o| - 1].errors && s.handed == Units(o)
    ensures var t := Step(s, lim, x);
            if t.aborted then t.handed == Units(o) else Tracks(t, o + [x]) && t.handed == Units(o + [x])
  {
    hide OpenAt, Carried, Units, Pusi, AdaptionOnly, Payload;
    var t, p := Step(s, lim, x), o + [x];
    assert p[|o|] == x;
    forall k: nat { OpenAtSnoc(o, x, k); }
    ErrorsOfOpen(o, i);
    UnitsSnoc(o, x, i);
    if x.errors == s.lastCC && !Starts(x) {
      CarriedFrom(o, x, i);
      assert OpenAt(p, i) && t.acc == Carried(p[i..]);
    } else {
      forall k: nat | k < |o| ensures !OpenAt(p, k) {
        if OpenAt(o, k) { ErrorsOfOpen(o, k); }
      }
      StartsAfresh(o, x);
      if Starts(x) && !t.aborted { assert OpenAt(p, |o|) && t.acc == Carried(p[|o|..]); }
    }
  }

  lemma StartsAfresh(o: seq<Seen>, x: Seen)
    ensures Carried((o + [x])[|o|..]) == if AdaptionOnly(x.pkt) then [] else Payload(x.pkt)
  {
    CarriedFrom(o, x, |o|);
    assert Carried(o[|o|..]) == [];
  }

  /** StepTracks while none is. */
  lemma StepIdle(s: State, lim: Limits, o: seq<Seen>, x: Seen)
    requires UsableLimits(lim) && RingSane(s, lim)
    requires !s.aborted && !s.appending && s.acc == [] && forall i: nat :: !OpenAt(o, i)
    requires s.handed == Units(o)
    ensures var t := Step(s, lim, x);
            if t.aborted then t.handed == Units(o) else Tracks(t, o + [x]) && t.handed == Units(o + [x])
  {
    hide OpenAt, Carried, Units, Pusi, AdaptionOnly, Payload;
    var t, p := Step(s, lim, x), o + [x];
    assert p[|o|] == x;
    forall k: nat { OpenAtSnoc(o, x, k); }
    UnitsSnocNone(o, x);
    StartsAfresh(o, x);
    if Starts(x) && !t.aborted { assert OpenAt(p, |o|) && t.acc == Carried(p[|o|..]); }
  }

  /** The machine's step and the stream's units move together. */
  lemma StepTracks(s: State, lim: Limits, o: seq<Seen>, x: Seen)
    requires UsableLimits(lim) && RingSane(s, lim)
    requires !s.aborted && Tracks(s, o) && s.handed == Units(o)
    ensures var t := Step(s, lim, x);
            if t.aborted then t.handed == Units(o) else Tracks(t, o + [x]) && t.handed == Units(o + [x])
  {
    if s.appending {
      var i: nat :| i < |o| && OpenAt(o, i) && s.acc == Carried(o[i..]);
      StepOpen(s, lim, o, x, i);
    } else {
      StepIdle(s, lim, o, x);
    }
  }

  // ---------------------------------------------------------------- whole runs

  lemma {:induction false} RunTracks(lim: Limits, o: seq<Seen>)
    requires UsableLimits(lim)
    ensures RingSane(Run(lim, o), lim)
    ensures !Run(lim, o).aborted ==> Tracks(Run(lim, o), o) && Run(lim, o).handed == Units(o)
  {
    if o != [] {
      var init, x := o[..|o| - 1], o[|o| - 1];
      assert init + [x] == o;
      RunTracks(lim, init);
      StepSane(Run(lim, init), lim, x);
      if !Run(lim, init).aborted { StepTracks(Run(lim, init), lim, init, x); }
    }
  }

  /**
   * Safety on arbitrary streams: what has been handed over is the list of whole units of the
   * stream, up to the packet at which the process gave up, if it did.
   */
  lemma {:induction false} HandedAreUnits(lim: Limits, o: seq<Seen>) returns (n: nat)
    requires UsableLimits(lim)
    ensures n <= |o| && Run(lim, o).handed == Units(o[..n])
    ensures !Run(lim, o).aborted ==> n == |o|
  {
    if o == [] || !Run(lim, o).aborted {
      RunTracks(lim, o);
      n := |o|;
      assert o[..n] == o;
    } else {
      var init, x := o[..|o| - 1], o[|o| - 1];
      n := HandedAreUnits(lim, init);
      assert init[..n] == o[..n];
      if !Run(lim, init).aborted {
        RunTracks(lim, init);
        StepTracks(Run(lim, init), lim, init, x);
      }
    }
  }

  lemma {:induction false} UnitIsWhole(o: seq<Seen>, k: nat) returns (i: nat, j: nat)
    requires k < |Units(o)|
    ensures IsUnit(o, i, j) && Units(o)[k] == Carried(o[i..j]) && Units(o)[k] != []
  {
    hide OpenAt, Carried, Starts;
    var last := |o| - 1;
    if k < |Units(o[..last])| {
      i, j := UnitIsWhole(o[..last], k);
      assert o[..last][i..j] == o[i..j] && o[..last][..j] == o[..j];
    } else {
      i :| IsUnit(o, i, last) && UnitEndingAt(o, last) == [Carried(o[i..last])] && Carried(o[i..last]) != [];
      j := last;
    }
  }

  /**
   * Every byte string handed over is the payload of the packets from one that starts a PES up to
   * the next that does, with the error count the same on all of them: never a damaged unit.
   */
  lemma HandedIsWhole(lim: Limits, o: seq<Seen>, k: nat) returns (i: nat, j: nat)
    requires UsableLimits(lim) && k < |Run(lim, o).handed|
    ensures IsUnit(o, i, j) && Run(lim, o).handed[k] == Carried(o[i..j])
  {
    hide OpenAt, Carried, Units, Run, Starts;
    var n := HandedAreUnits(lim, o);
    i, j := UnitIsWhole(o[..n], k);
    assert o[..n][i..j] == o[i..j] && o[..n][..j] == o[..j];
  }

  /** And unless the process gave up, no whole unit is missed. */
  lemma {:induction false} NoUnitMissed(lim: Limits, o: seq<Seen>, i: nat, j: nat)
    requires UsableLimits(lim) && !Run(lim, o).aborted
    requires IsUnit(o, i, j) && Carried(o[i..j]) != []
    ensures Carried(o[i..j]) in Run(lim, o).handed
  {
    RunTracks(lim, o);
    UnitIsListed(o, i, j);
  }

  lemma {:induction false} UnitIsListed(o: seq<Seen>, i: nat, j: nat)
    requires IsUnit(o, i, j) && Carried(o[i..j]) != []
    ensures Carried(o[i..j]) in Units(o)
  {
    var last := |o| - 1;
    if j == last {
      UnitEnds(o, i);
      assert Units(o)[|Units(o)| - 1] == Carried(o[i..j]);
    } else {
      hide OpenAt;
      assert o[..last][i..j] == o[i..j] && o[..last][..j] == o[..j];
      UnitIsListed(o[..last], i, j);
    }
  }

  lemma UnitEnds(o: seq<Seen>, i: nat)
    requires o != [] && IsUnit(o, i, |o| - 1) && Carried(o[i..|o| - 1]) != []
    ensures UnitEndingAt(o, |o| - 1) == [Carried(o[i..|o| - 1])]
  {
    hide Carried;
    var j := |o| - 1;
    forall k: nat | IsUnit(o, k, j) ensures k == i { OpenAtUnique(o[..j], i, k); }
  }

  // ---------------------------------------------------------------- when the process gives up

  /** A packet that goes on with the PES in hand, and finds the room too small and growth refused. */
  predicate OverflowAt(lim: Limits, o: seq<Seen>, k: nat)
  {
    && k < |o| && !Starts(o[k]) && !AdaptionOnly(o[k].pkt)
    && var s := Run(lim, o[..k]);
       !s.aborted && s.appending && s.lastCC == o[k].errors && Overflows(s, lim, |Payload(o[k].pkt)|)
  }

  /** The ring overflowed while the PES of packets `i` up to `j` was going in. */
  ghost predicate OverflowedIn(lim: Limits, o: seq<Seen>, i: nat, j: nat)
  {
    exists k: nat :: i < k < j && OverflowAt(lim, o, k)
  }

  lemma OverflowsBefore(lim: Limits, o: seq<Seen>, x: Seen, i: nat, j: nat)
    requires j <= |o|
    ensures OverflowedIn(lim, o + [x], i, j) <==> OverflowedIn(lim, o, i, j)
  {
    hide Run;
    forall k: nat | k < j ensures OverflowAt(lim, o + [x], k) <==> OverflowAt(lim, o, k) {
      assert (o + [x])[..k] == o[..k] && (o + [x])[k] == o[k];
    }
  }

  lemma RunOf(lim: Limits, o: seq<Seen>, x: Seen)
    ensures Run(lim, o + [x]) == Step(Run(lim, o), lim, x)
  {
    assert (o + [x])[..|o|] == o;
  }

  /** The machine of a PES in hand: what it has appended is what the open PES carries. */
  lemma InHand(lim: Limits, o: seq<Seen>, i: nat)
    requires UsableLimits(lim) && !Run(lim, o).aborted && OpenAt(o, i)
    ensures i < |o| && Run(lim, o).appending && Run(lim, o).acc == Carried(o[i..])
    ensures Run(lim, o).lastCC == o[i].errors == o[|o| - 1].errors
  {
    hide OpenAt, Carried, Run, Units;
    RunTracks(lim, o);
    var s := Run(lim, o);
    if s.appending {
      var k: nat :| k < |o| && OpenAt(o, k) && s.acc == Carried(o[k..]);
      OpenAtUnique(o, i, k);
    }
    OpenIndex(o, i);
    ErrorsOfOpen(o, i);
  }

  lemma OpenIndex(o: seq<Seen>, i: nat)
    requires OpenAt(o, i)
    ensures i < |o|
  {
  }

  /** A step of the machine that goes on with a PES: it drops something exactly on overflow. */
  lemma GoesOn(s: State, lim: Limits, x: Seen)
    requires UsableLimits(lim) && RingSane(s, lim) && !s.aborted && s.appending && s.lastCC == x.errors && !Starts(x)
    ensures var t := Step(s, lim, x);
      && !t.aborted && t.appending
      && (|t.acc| == t.fill
          <==> (|s.acc| == s.fill && (AdaptionOnly(x.pkt) || !Overflows(s, lim, |Payload(x.pkt)|))))
  {
    hide Pusi, AdaptionOnly, Payload;
  }

  /** A step with which a PES begins: the ring has all of it. */
  lemma Begins(s: State, lim: Limits, x: Seen)
    requires UsableLimits(lim) && RingSane(s, lim) && !s.aborted && Starts(x)
    ensures var t := Step(s, lim, x); !t.aborted ==> t.appending && |t.acc| == t.fill
  {
    hide Pusi, AdaptionOnly, Payload;
  }

  /** The count agrees with the ring exactly as long as the PES in hand has not overflowed it. */
  lemma {:induction false} CountAgreesExactlyWhen(lim: Limits, o: seq<Seen>, i: nat)
    requires UsableLimits(lim) && !Run(lim, o).aborted && OpenAt(o, i)
    ensures |Run(lim, o).acc| == Run(lim, o).fill <==> !OverflowedIn(lim, o, i, |o|)
  {
    hide OpenAt, Carried, Run, Step, Units, OverflowAt;
    OpenIndex(o, i);
    var n := |o| - 1;
    var init, x := o[..n], o[n];
    assert init + [x] == o;
    RunOf(lim, init, x);
    RunTracks(lim, init);
    NotAbortedBefore(lim, init, x);
    if i == n {
      OpenStarts(o, i);
      Begins(Run(lim, init), lim, x);
    } else {
      OpenShrinks(init, x, i);
      CountAgreesExactlyWhen(lim, init, i);
      OverflowsBefore(lim, init, x, i, n);
      InHand(lim, init, i);
      GoesOn(Run(lim, init), lim, x);
      LastOverflow(lim, init, x);
      assert OverflowedIn(lim, o, i, n + 1) <==> OverflowedIn(lim, o, i, n) || OverflowAt(lim, o, n);
    }
  }

  lemma LastOverflow(lim: Limits, o: seq<Seen>, x: Seen)
    ensures OverflowAt(lim, o + [x], |o|) <==>
      && !Starts(x) && !AdaptionOnly(x.pkt) && !Run(lim, o).aborted && Run(lim, o).appending
      && Run(lim, o).lastCC == x.errors && Overflows(Run(lim, o), lim, |Payload(x.pkt)|)
  {
    hide Run, Starts, Overflows, Payload;
    assert (o + [x])[..|o|] == o;
  }

  lemma OpenStarts(o: seq<Seen>, i: nat)
    requires OpenAt(o, i)
    ensures Starts(o[i])
  {
  }

  lemma OpenShrinks(o: seq<Seen>, x: Seen, i: nat)
    requires OpenAt(o + [x], i) && i < |o|
    ensures OpenAt(o, i) && !Starts(x) && x.errors == o[i].errors
  {
    var p := o + [x];
    assert p[|o|] == x;
    assert forall k :: 0 <= k < |o| ==> p[k] == o[k];
  }

  lemma NotAbortedBefore(lim: Limits, o: seq<Seen>, x: Seen)
    requires !Run(lim, o + [x]).aborted
    ensures !Run(lim, o).aborted
  {
    hide Run;
    RunOf(lim, o, x);
  }

  /** Once given up, given up. */
  lemma {:induction false} AbortStays(lim: Limits, o: seq<Seen>, n: nat)
    requires n <= |o| && Run(lim, o[..n]).aborted
    ensures Run(lim, o).aborted
    decreases |o| - n
  {
    if n == |o| {
      assert o[..n] == o;
    } else {
      RunOf(lim, o[..n], o[n]);
      assert o[..n] + [o[n]] == o[..n + 1];
      AbortStays(lim, o, n + 1);
    }
  }

  /** A unit that makes the process give up: one to fifteen bytes, or an overflow while it went in. */
  ghost predicate Fatal(lim: Limits, o: seq<Seen>, i: nat, j: nat)
  {
    IsUnit(o, i, j) && (1 <= |Carried(o[i..j])| < 16 || OverflowedIn(lim, o, i, j))
  }

  /** The step that ends a unit gives up exactly when the ring holds too little or the wrong amount. */
  lemma EndsUnit(s: State, lim: Limits, x: Seen)
    requires UsableLimits(lim) && RingSane(s, lim) && !s.aborted && s.appending && s.lastCC == x.errors && Starts(x)
    ensures Step(s, lim, x).aborted <==> s.acc != [] && (|s.acc| != s.fill || |s.acc| < 16)
  {
    hide Pusi, AdaptionOnly, Payload;
  }

  /** No other step gives up. */
  lemma OnlyUnitsAbort(s: State, lim: Limits, x: Seen)
    requires UsableLimits(lim) && RingSane(s, lim) && !s.aborted && Step(s, lim, x).aborted
    ensures s.appending && s.lastCC == x.errors && Starts(x)
  {
    hide Pusi, AdaptionOnly, Payload;
  }

  lemma FatalAborts(lim: Limits, o: seq<Seen>, i: nat, j: nat)
    requires UsableLimits(lim) && Fatal(lim, o, i, j)
    ensures Run(lim, o).aborted
  {
    hide OpenAt, Carried, Run, Step, OverflowAt;
    var p, x := o[..j], o[j];
    if Run(lim, p).aborted {
      AbortStays(lim, o, j);
    } else {
      InHand(lim, p, i);
      assert p[i..] == o[i..j];
      CountAgreesExactlyWhen(lim, p, i);
      OverflowsIn(lim, o, i, j);
      RunTracks(lim, p);
      EmptyNoOverflow(lim, p);
      EndsUnit(Run(lim, p), lim, x);
      RunOf(lim, p, x);
      assert p + [x] == o[..j + 1];
      AbortStays(lim, o, j + 1);
    }
  }

  lemma EmptyNoOverflow(lim: Limits, o: seq<Seen>)
    requires UsableLimits(lim) && RingSane(Run(lim, o), lim)
    ensures Run(lim, o).acc == [] ==> |Run(lim, o).acc| == Run(lim, o).fill
  {
    hide Run;
  }

  lemma OverflowsIn(lim: Limits, o: seq<Seen>, i: nat, j: nat)
    requires j <= |o|
    ensures OverflowedIn(lim, o, i, j) <==> OverflowedIn(lim, o[..j], i, j)
  {
    hide Run;
    forall k: nat | k < j ensures OverflowAt(lim, o[..j], k) <==> OverflowAt(lim, o, k) {
      assert o[..j][..k] == o[..k] && o[..j][k] == o[k];
    }
  }

  lemma {:induction false} AbortHasUnit(lim: Limits, o: seq<Seen>) returns (i: nat, j: nat)
    requires UsableLimits(lim) && Run(lim, o).aborted
    ensures Fatal(lim, o, i, j)
  {
    hide OpenAt, Carried, Run, Step, OverflowAt, Units;
    NeverAtStart(lim);
    var n := |o| - 1;
    var init, x := o[..n], o[n];
    assert init + [x] == o;
    RunOf(lim, init, x);
    if Run(lim, init).aborted {
      i, j := AbortHasUnit(lim, init);
      assert o[..j] == init[..j] && o[i..j] == init[i..j] && o[j] == init[j] && o[i] == init[i];
      OverflowsBefore(lim, init, x, i, j);
    } else {
      RunTracks(lim, init);
      var s := Run(lim, init);
      OnlyUnitsAbort(s, lim, x);
      i :| i < |init| && OpenAt(init, i) && s.acc == Carried(init[i..]);
      j := n;
      InHand(lim, init, i);
      EndsUnit(s, lim, x);
      CountAgreesExactlyWhen(lim, init, i);
      OverflowsBefore(lim, init, x, i, n);
      assert o[i..j] == init[i..] && o[..j] == init && o[i] == init[i];
    }
  }

  lemma NeverAtStart(lim: Limits)
    ensures !Run(lim, []).aborted
  {
  }

  /**
   * On any stream and any usable ring, the process gives up if and only if some whole unit has one to fifteen bytes,
   * or the ring overflowed while some whole unit went in.
   */
  lemma AbortsExactlyWhen(lim: Limits, o: seq<Seen>)
    requires UsableLimits(lim)
    ensures Run(lim, o).aborted <==> exists i: nat, j: nat :: Fatal(lim, o, i, j)
  {
    hide Fatal, Run;
    if Run(lim, o).aborted {
      var i, j := AbortHasUnit(lim, o);
    }
    forall i: nat, j: nat | Fatal(lim, o, i, j) ensures Run(lim, o).aborted {
      FatalAborts(lim, o, i, j);
    }
  }

  // ---------------------------------------------------------------- both ways of giving up

  /** A packet full of payload, 184 bytes; or one that stuffing leaves five bytes. */
  function FullPacket(start: bool): Packet
  {
    [0x47, if start then 0x40 else 0x00, 0x20, 0x10] + seq(184, _ => 0x55)
  }

  function ShortPacket(): Packet
  {
    [0x47, 0x40, 0x20, 0x30, 178, 0x00] + seq(182, _ => 0xff)
  }

  lemma FullFacts(start: bool)
    ensures var p := FullPacket(start); (Pusi(p) <==> start) && !AdaptionOnly(p) && |Payload(p)| == 184
  {
  }

  lemma ShortFacts()
    ensures var p := ShortPacket(); Pusi(p) && !AdaptionOnly(p) && |Payload(p)| == 5
  {
  }

  lemma CarriedOne(x: Seen)
    requires !AdaptionOnly(x.pkt)
    ensures Carried([x]) == Payload(x.pkt)
  {
    assert [x][..0] == [];
  }

  /** A PES of three full packets overflows a ring of 368 bytes that may hold 10000, and the process gives up. */
  lemma OverflowGivesUp()
    ensures var lim := Limits(368, 10000);
      var o := [Seen(FullPacket(true), 0), Seen(FullPacket(false), 0), Seen(FullPacket(false), 0),
          Seen(FullPacket(true), 0)];
      IsUnit(o, 0, 3) && |Carried(o[0..3])| == 552 && OverflowAt(lim, o, 2) && Run(lim, o).aborted
  {
    hide FullPacket, Pusi, AdaptionOnly, Payload, Step, Run, Carried, OpenAt;
    FullFacts(true);
    FullFacts(false);
    var lim := Limits(368, 10000);
    var x, y := Seen(FullPacket(true), 0), Seen(FullPacket(false), 0);
    var o := [x, y, y, x];
    RunOf(lim, [], x);
    RunOf(lim, [x], y);
    assert [] + [x] == [x] && [x] + [y] == [x, y] && [x, y] + [y] == o[..3] && o[..2] == [x, y];
    StartIs(lim);
    FirstOf(lim, x);
    SecondOf(lim, Step(Start(lim), lim, x), y);
    CarriedThree(x, y);
    OneOpen(x, y);
    assert o[0..3] == [x, y, y];
    assert OverflowAt(lim, o, 2);
    assert OverflowedIn(lim, o, 0, 3);
    FatalAborts(lim, o, 0, 3);
  }

  /**
   * The same three packets in a ring of 368 bytes, with any limit: it grows by 128 payloads, 23552 bytes, or not at
   * all.
   */
  lemma ThreePacketsGiveUp(max: nat)
    requires 368 <= max
    ensures var o := [Seen(FullPacket(true), 0), Seen(FullPacket(false), 0), Seen(FullPacket(false), 0),
          Seen(FullPacket(true), 0)];
      Run(Limits(368, max), o).aborted <==> max < 23920
  {
    hide FullPacket, Pusi, AdaptionOnly, Payload, Run;
    FullFacts(true);
    FullFacts(false);
    var lim := Limits(368, max);
    var x, y := Seen(FullPacket(true), 0), Seen(FullPacket(false), 0);
    RunOf(lim, [], x);
    RunOf(lim, [x], y);
    RunOf(lim, [x, y], y);
    RunOf(lim, [x, y, y], x);
    assert [] + [x] == [x] && [x] + [y] == [x, y] && [x, y] + [y] == [x, y, y] && [x, y, y] + [x] == [x, y, y, x];
    StartIs(lim);
    FirstOf(lim, x);
    var two := Step(Step(Start(lim), lim, x), lim, y);
    SecondOf(lim, Step(Start(lim), lim, x), y);
    EndsUnit(Step(two, lim, y), lim, x);
  }

  lemma StartIs(lim: Limits)
    ensures Run(lim, []) == Start(lim)
  {
  }

  lemma FirstOf(lim: Limits, x: Seen)
    requires UsableLimits(lim) && Starts(x) && x.errors == 0
    ensures Step(Start(lim), lim, x) == Start(lim).(appending := true, acc := Payload(x.pkt), fill := |Payload(x.pkt)|)
  {
    hide Pusi, AdaptionOnly, Payload;
    assert [] + Payload(x.pkt) == Payload(x.pkt);
  }

  lemma SecondOf(lim: Limits, s: State, y: Seen)
    requires !s.aborted && s.appending && s.lastCC == y.errors && !Pusi(y.pkt) && !AdaptionOnly(y.pkt)
    requires |Payload(y.pkt)| <= s.size - s.fill
    ensures Step(s, lim, y) == s.(acc := s.acc + Payload(y.pkt), fill := s.fill + |Payload(y.pkt)|)
  {
    hide Pusi, AdaptionOnly, Payload;
  }

  lemma CarriedThree(x: Seen, y: Seen)
    requires !AdaptionOnly(x.pkt) && !AdaptionOnly(y.pkt)
    ensures Carried([x, y, y]) == Payload(x.pkt) + Payload(y.pkt) + Payload(y.pkt)
  {
    hide Payload, AdaptionOnly;
    CarriedOne(x);
    CarriedSnoc([x], y);
    CarriedSnoc([x, y], y);
    assert [x] + [y] == [x, y] && [x, y] + [y] == [x, y, y];
  }

  lemma OneOpen(x: Seen, y: Seen)
    requires Starts(x) && !Starts(y) && x.errors == y.errors
    ensures IsUnit([x, y, y, x], 0, 3)
  {
    hide Starts;
    assert [x, y, y, x][..3] == [x, y, y];
  }

  /** A PES of five bytes makes the process give up, whatever the ring. */
  lemma ShortGivesUp(lim: Limits)
    requires UsableLimits(lim)
    ensures var o := [Seen(ShortPacket(), 0), Seen(FullPacket(true), 0)];
      IsUnit(o, 0, 1) && |Carried(o[0..1])| == 5 && !OverflowedIn(lim, o, 0, 1) && Run(lim, o).aborted
  {
    hide FullPacket, ShortPacket, Pusi, AdaptionOnly, Payload;
    FullFacts(true);
    ShortFacts();
    var x, y := Seen(ShortPacket(), 0), Seen(FullPacket(true), 0);
    RunOf(lim, [], x);
    RunOf(lim, [x], y);
    assert [] + [x] == [x] && [x] + [y] == [x, y] && [x, y][0..1] == [x] == [x, y][..1];
    CarriedOne(x);
  }

  // ---------------------------------------------------------------- sizes that are always safe, and never

  /** A PES of `n` bytes never makes the ring overflow. */
  predicate FitsRing(lim: Limits, n: nat)
  {
    n <= lim.initial || n + 184 * 128 <= lim.max
  }

  ghost predicate Moderate(lim: Limits, o: seq<Seen>)
  {
    && (forall i: nat, j: nat :: j <= |o| && OpenAt(o[..j], i) ==> FitsRing(lim, |Carried(o[i..j])|))
    && (forall i: nat, j: nat :: IsUnit(o, i, j) ==> Carried(o[i..j]) == [] || 16 <= |Carried(o[i..j])|)
  }

  lemma StepModerate(s: State, lim: Limits, o: seq<Seen>, x: Seen)
    requires UsableLimits(lim) && RingSane(s, lim)
    requires !s.aborted && Tracks(s, o) && |s.acc| == s.fill
    requires Moderate(lim, o + [x])
    ensures var t := Step(s, lim, x); !t.aborted && |t.acc| == t.fill
  {
    hide OpenAt, Carried, Units, Pusi, AdaptionOnly, Payload;
    var t, p := Step(s, lim, x), o + [x];
    if s.appending {
      var i: nat :| i < |o| && OpenAt(o, i) && s.acc == Carried(o[i..]);
      OpenAtSnoc(o, x, i);
      OpenIndex(o, i);
      ErrorsOfOpen(o, i);
      CarriedFrom(o, x, i);
      assert p[..|o|] == o && p[..|p|] == p && p[i..|p|] == p[i..] && p[i..|o|] == o[i..] && p[|o|] == x;
      if x.errors == s.lastCC && Starts(x) {
        assert IsUnit(p, i, |o|);
      } else if x.errors == s.lastCC {
        assert OpenAt(p[..|p|], i);
      }
    }
  }

  /**
   * As long as no PES outgrows the ring and none is shorter than 16 bytes, neither abort of
   * _processRing can be reached: the count always equals the ring's fill.
   */
  lemma {:induction false} NeverAborts(lim: Limits, o: seq<Seen>)
    requires UsableLimits(lim) && Moderate(lim, o)
    ensures !Run(lim, o).aborted && |Run(lim, o).acc| == Run(lim, o).fill
    ensures Run(lim, o).handed == Units(o)
  {
    hide Step, Moderate, Units, Tracks, RingSane;
    RunTracks(lim, o);
    if o != [] {
      var init, x := o[..|o| - 1], o[|o| - 1];
      assert init + [x] == o;
      ModeratePrefix(lim, init, x);
      NeverAborts(lim, init);
      RunTracks(lim, init);
      StepModerate(Run(lim, init), lim, init, x);
    }
  }

  lemma ModeratePrefix(lim: Limits, o: seq<Seen>, x: Seen)
    requires Moderate(lim, o + [x])
    ensures Moderate(lim, o)
  {
    var p := o + [x];
    forall i: nat, j: nat | j <= |o| && OpenAt(o[..j], i) ensures FitsRing(lim, |Carried(o[i..j])|) {
      assert p[..j] == o[..j] && p[i..j] == o[i..j];
    }
    forall i: nat, j: nat | IsUnit(o, i, j) ensures Carried(o[i..j]) == [] || 16 <= |Carried(o[i..j])| {
      assert p[..j] == o[..j] && p[i..j] == o[i..j] && p[j] == o[j] && p[i] == o[i];
      assert IsUnit(p, i, j);
    }
  }

  /** No unit longer than the ring's limit is ever handed over: such a stream always stops the process. */
  lemma {:induction false} OversizeStops(lim: Limits, o: seq<Seen>, i: nat, j: nat)
    requires UsableLimits(lim)
    requires IsUnit(o, i, j) && |Carried(o[i..j])| > lim.max
    ensures Run(lim, o).aborted
  {
    if !Run(lim, o).aborted {
      NoUnitMissed(lim, o, i, j);
      HandedFit(lim, o);
    }
  }

  lemma StepFit(s: State, lim: Limits, x: Seen)
    requires RingSane(s, lim)
    ensures var t := Step(s, lim, x);
            t.handed == s.handed || (t.handed == s.handed + [s.acc] && 16 <= |s.acc| <= lim.max)
  {
    hide Pusi, AdaptionOnly, Payload;
  }

  lemma {:induction false} HandedFit(lim: Limits, o: seq<Seen>)
    requires UsableLimits(lim)
    ensures forall u :: u in Run(lim, o).handed ==> 16 <= |u| <= lim.max
  {
    hide Step, RingSane;
    if o != [] {
      HandedFit(lim, o[..|o| - 1]);
      RunTracks(lim, o[..|o| - 1]);
      StepFit(Run(lim, o[..|o| - 1]), lim, o[|o| - 1]);
    }
  }
}
