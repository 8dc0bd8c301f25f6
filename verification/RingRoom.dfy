/**
 * What the extractor's ring makes of PES units whose packets carry so and so many bytes: how far it grows, and when
 * it overflows.
 */
module RingRoom {
  import opened Reassembly
  import opened Wrappers

  function Total(ws: seq<nat>): nat
  {
    if ws == [] then 0 else Total(ws[..|ws| - 1]) + ws[|ws| - 1]
  }

  /** The allocation once `w` bytes have joined `fill` others; none if they overflow. */
  function Grown(lim: Limits, size: nat, fill: nat, w: nat): Option<nat>
  {
    if fill + w <= size then Some(size)
    else if size + 128 * w <= lim.max then Some(size + 128 * w)
    else None
  }

  /** The allocation once a unit is in, payload by payload; none if one of them overflowed. */
  function Room(lim: Limits, size: nat, ws: seq<nat>): Option<nat>
  {
    if ws == [] then Some(size)
    else
      match Room(lim, size, ws[..|ws| - 1])
      case None => None
      case Some(now) => Grown(lim, now, Total(ws[..|ws| - 1]), ws[|ws| - 1])
  }

  /** The allocation after unit upon unit: emptying the ring does not shrink it. */
  function RoomAll(lim: Limits, units: seq<seq<nat>>): Option<nat>
  {
    if units == [] then Some(lim.initial)
    else
      match RoomAll(lim, units[..|units| - 1])
      case None => None
      case Some(now) => Room(lim, now, units[|units| - 1])
  }

  lemma {:induction false} RoomPrefix(lim: Limits, size: nat, ws: seq<nat>, n: nat)
    requires n <= |ws| && Room(lim, size, ws).Some?
    ensures Room(lim, size, ws[..n]).Some?
    decreases |ws|
  {
    if n < |ws| {
      RoomPrefix(lim, size, ws[..|ws| - 1], n);
      assert ws[..|ws| - 1][..n] == ws[..n];
    } else {
      assert ws[..n] == ws;
    }
  }

  /** Where a unit that does not fit overflows: the payloads before that one fit. */
  lemma {:induction false} FirstOverflow(lim: Limits, size: nat, ws: seq<nat>) returns (n: nat)
    requires Room(lim, size, ws).None?
    ensures n < |ws| && Room(lim, size, ws[..n]).Some?
    ensures Grown(lim, Room(lim, size, ws[..n]).value, Total(ws[..n]), ws[n]).None?
  {
    var m := |ws| - 1;
    if Room(lim, size, ws[..m]).Some? {
      n := m;
    } else {
      n := FirstOverflow(lim, size, ws[..m]);
      assert ws[..m][..n] == ws[..n];
    }
  }

  lemma {:induction false} TotalUp(ws: seq<nat>, n: nat)
    requires n <= |ws|
    ensures Total(ws[..n]) <= Total(ws)
    decreases |ws|
  {
    if n < |ws| {
      TotalUp(ws[..|ws| - 1], n);
      assert ws[..|ws| - 1][..n] == ws[..n];
    } else {
      assert ws[..n] == ws;
    }
  }

  predicate InPackets(ws: seq<nat>)
  {
    forall k :: 0 <= k < |ws| ==> ws[k] <= 184
  }

  /** A unit that fits by its size alone fits however it is cut. */
  lemma {:induction false} FitsHoweverCut(lim: Limits, size: nat, ws: seq<nat>, n: nat)
    requires lim.initial <= size <= lim.max && InPackets(ws) && Total(ws) <= n && FitsRing(lim, n)
    ensures Room(lim, size, ws).Some? && size <= Room(lim, size, ws).value <= lim.max
  {
    if ws != [] {
      FitsHoweverCut(lim, size, ws[..|ws| - 1], n);
    }
  }

  lemma {:induction false} AllFitHoweverCut(lim: Limits, units: seq<seq<nat>>)
    requires UsableLimits(lim)
    requires forall k :: 0 <= k < |units| ==> InPackets(units[k]) && FitsRing(lim, Total(units[k]))
    ensures RoomAll(lim, units).Some? && lim.initial <= RoomAll(lim, units).value <= lim.max
  {
    if units != [] {
      AllFitHoweverCut(lim, units[..|units| - 1]);
      FitsHoweverCut(lim, RoomAll(lim, units[..|units| - 1]).value, units[|units| - 1], Total(units[|units| - 1]));
    }
  }
}
