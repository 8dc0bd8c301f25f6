/**
 * The 60-place reordering list of src/pes-extractor.c: a new PES pushes out the
 * oldest one held and is put in its place in PTS order.
 */
module OrderedOutput {
  import opened Counting
  import opened Wrappers

  const ORDERED_LIST_DEPTH := 60

  /** A list item: a PES and its unwrapped PTS, or no PES and zero. */
  datatype Slot<+T> = Slot(correctedPTS: int, pes: Option<T>)

  /** A PES held. */
  datatype Entry<+T> = Entry(key: int, pes: T)

  // ---------------------------------------------------------------- specification

  /** In order, and no key below zero: the unwrapped clock never is. */
  ghost predicate SortedByKey<T>(held: seq<Entry<T>>)
  {
    && (forall i, j :: 0 <= i < j < |held| ==> held[i].key <= held[j].key)
    && (held != [] ==> held[0].key >= 0)
  }

  /** The list that holds `held`: filled places in order, then empty ones. */
  ghost function Slots<T>(held: seq<Entry<T>>): (list: seq<Slot<T>>)
    ensures |list| == ORDERED_LIST_DEPTH
  {
    seq(ORDERED_LIST_DEPTH, i requires i >= 0 =>
      if i < |held| then Slot(held[i].key, Some(held[i].pes)) else Slot(0, None))
  }

  /** The place of a key among sorted entries: behind all that are not greater. */
  ghost function Position<T>(held: seq<Entry<T>>, key: int): (k: nat)
    ensures k <= |held|
    ensures forall i :: 0 <= i < k ==> held[i].key <= key
    ensures k < |held| ==> key < held[k].key
  {
    if held == [] || key < held[0].key then 0 else 1 + Position(held[1..], key)
  }

  ghost function Inserted<T>(held: seq<Entry<T>>, e: Entry<T>): seq<Entry<T>>
  {
    var k := Position(held, e.key);
    held[..k] + [e] + held[k..]
  }

  /** Does the next arrival push a PES out? */
  ghost predicate Emits<T>(held: seq<Entry<T>>)
  {
    held != [] && (|held| == ORDERED_LIST_DEPTH || held[0].key == 0)
  }

  ghost function After<T>(held: seq<Entry<T>>, e: Entry<T>): seq<Entry<T>>
  {
    Inserted(if Emits(held) then held[1..] else held, e)
  }

  // ---------------------------------------------------------------- the code

  class OrderedList<T> {
    var list: seq<Slot<T>>
    ghost var held: seq<Entry<T>>

    ghost predicate Valid()
      reads this
    {
      && |held| <= ORDERED_LIST_DEPTH
      && SortedByKey(held)
      && list == Slots(held)
    }

    constructor ()
      ensures Valid() && held == []
    {
      list := seq(ORDERED_LIST_DEPTH, _ => Slot(0, None));
      held := [];
    }

    /** The first of the items with the smallest key. */
    static method FindOldest(list: seq<Slot<T>>) returns (oldest: nat)
      requires list != []
      ensures oldest < |list|
      ensures forall k :: 0 <= k < oldest ==> list[oldest].correctedPTS < list[k].correctedPTS
      ensures forall k :: oldest <= k < |list| ==> list[oldest].correctedPTS <= list[k].correctedPTS
    {
      oldest := 0;
      for e := 1 to |list|
        invariant oldest < e
        invariant forall k :: 0 <= k < oldest ==> list[oldest].correctedPTS < list[k].correctedPTS
        invariant forall k :: oldest <= k < e ==> list[oldest].correctedPTS <= list[k].correctedPTS
      {
        if list[e].correctedPTS < list[oldest].correctedPTS {
          oldest := e;
        }
      }
    }

    /** Puts an item in front of the first one that is later or empty. */
    static method ListInsert(list: seq<Slot<T>>, item: Slot<T>) returns (newList: seq<Slot<T>>, ghost at: nat)
      ensures at <= |list| && newList == list[..at] + [item] + list[at..]
      ensures forall k :: 0 <= k < at ==> list[k].correctedPTS <= item.correctedPTS && list[k].pes.Some?
      ensures at < |list| ==> item.correctedPTS < list[at].correctedPTS || list[at].pes.None?
    {
      for e := 0 to |list|
        invariant forall k :: 0 <= k < e ==> list[k].correctedPTS <= item.correctedPTS && list[k].pes.Some?
      {
        if item.correctedPTS < list[e].correctedPTS || list[e].pes.None? {
          return list[..e] + [item] + list[e..], e;
        }
      }
      newList := list + [item];
      at := |list|;
    }

    /** A PES arrives: what is handed to the callback is the smallest PES held, if any has to go. */
    method Arrive(key: int, pes: T) returns (emitted: Option<T>)
      requires Valid() && key >= 0
      modifies this
      ensures Valid() && held == After(old(held), Entry(key, pes))
      ensures emitted == if Emits(old(held)) then Some(old(held)[0].pes) else None
      ensures emitted.Some? ==> forall k :: 0 <= k < |old(held)| ==> old(held)[0].key <= old(held)[k].key
    {
      var item := FindOldest(list);
      emitted := list[item].pes;
      var slot := Slot(key, Some(pes));
      var rest := list[..item] + list[item + 1..];
      ghost var kept := if Emits(held) then held[1..] else held;
      RestHolds(held, item);
      ghost var at;
      list, at := ListInsert(rest, slot);
      InsertHolds(kept, rest, Entry(key, pes), at);
      held := Inserted(kept, Entry(key, pes));
    }

    /** Everything held, smallest first. */
    method FlushOrderedOutput() returns (out: seq<T>)
      requires Valid()
      modifies this`list
      ensures list == []
      ensures out == Pieces(held)
    {
      out := [];
      ghost var left := held;
      ghost var empties: nat := ORDERED_LIST_DEPTH - |held|;
      SlotsSplit(held);
      hide Rest, SortedByKey;
      while list != []
        invariant SortedByKey(left) && list == Rest(left, empties)
        invariant out + Pieces(left) == Pieces(held)
        decreases |list|
      {
        var item := FindOldest(list);
        var slot := list[item];
        OldestOfRest(left, empties, item);
        list := list[..item] + list[item + 1..];
        if slot.pes.Some? {
          out := out + [slot.pes.value];
          left := left[1..];
        } else {
          empties := empties - 1;
        }
      }
    }
  }

  ghost function Pieces<T>(held: seq<Entry<T>>): (r: seq<T>)
    ensures |r| == |held|
  {
    seq(|held|, i requires 0 <= i < |held| => held[i].pes)
  }

  ghost function Filled<T>(held: seq<Entry<T>>): (r: seq<Slot<T>>)
    ensures |r| == |held|
  {
    seq(|held|, i requires 0 <= i < |held| => Slot(held[i].key, Some(held[i].pes)))
  }

  lemma SlotsSplit<T>(held: seq<Entry<T>>)
    requires |held| <= ORDERED_LIST_DEPTH
    ensures Slots(held) == Rest(held, ORDERED_LIST_DEPTH - |held|)
    ensures Rest<T>([], 0) == []
  {
  }

  /** What a flush has still to take: filled places in order, then empty ones. */
  ghost function Rest<T>(left: seq<Entry<T>>, empties: nat): seq<Slot<T>>
  {
    Filled(left) + seq(empties, _ => Slot(0, None))
  }

  /** The oldest item of those is the first filled place, or an empty one in front of none but keys of zero. */
  lemma OldestOfRest<T>(left: seq<Entry<T>>, empties: nat, item: nat)
    requires SortedByKey(left) && item < |Rest(left, empties)|
    requires forall k :: 0 <= k < item ==>
      Rest(left, empties)[item].correctedPTS < Rest(left, empties)[k].correctedPTS
    requires forall k :: item <= k < |Rest(left, empties)| ==>
      Rest(left, empties)[item].correctedPTS <= Rest(left, empties)[k].correctedPTS
    ensures var list := Rest(left, empties); var less := list[..item] + list[item + 1..];
      match list[item].pes
      case Some(p) => SortedByKey(left) && left != [] && p == left[0].pes && less == Rest(left[1..], empties)
                      && SortedByKey(left[1..]) && Pieces(left) == [p] + Pieces(left[1..])
      case None => empties > 0 && less == Rest(left, empties - 1)
  {
    var list := Rest(left, empties);
    if item < |left| {
      assert list[0] == Slot(left[0].key, Some(left[0].pes));
      assert item == 0;
    } else if left != [] {
      assert list[item] == Slot(0, None) && list[0].correctedPTS > 0;
      assert list[|left|] == Slot(0, None);
    }
  }

  /** What taking out the oldest item leaves. */
  lemma RestHolds<T>(held: seq<Entry<T>>, item: nat)
    requires |held| <= ORDERED_LIST_DEPTH && SortedByKey(held) && item < ORDERED_LIST_DEPTH
    requires forall k :: 0 <= k < item ==> Slots(held)[item].correctedPTS < Slots(held)[k].correctedPTS
    requires forall k :: item <= k < ORDERED_LIST_DEPTH ==>
      Slots(held)[item].correctedPTS <= Slots(held)[k].correctedPTS
    ensures Slots(held)[item].pes == if Emits(held) then Some(held[0].pes) else None
    ensures var kept := if Emits(held) then held[1..] else held;
            |kept| < ORDERED_LIST_DEPTH && SortedByKey(kept)
            && Slots(held)[..item] + Slots(held)[item + 1..] == Slots(kept)[..ORDERED_LIST_DEPTH - 1]
  {
    var list := Slots(held);
    if Emits(held) {
      assert list[0].correctedPTS == held[0].key;
      assert item == 0;
    } else if held != [] {
      assert |held| < ORDERED_LIST_DEPTH && list[|held|] == Slot(0, None);
      assert list[0].correctedPTS > 0;
      assert item == |held|;
    }
  }

  lemma InsertHolds<T>(kept: seq<Entry<T>>, rest: seq<Slot<T>>, e: Entry<T>, at: nat)
    requires |kept| < ORDERED_LIST_DEPTH && SortedByKey(kept) && e.key >= 0
    requires rest == Slots(kept)[..ORDERED_LIST_DEPTH - 1] && at <= |rest|
    requires forall k :: 0 <= k < at ==> rest[k].correctedPTS <= e.key && rest[k].pes.Some?
    requires at < |rest| ==> e.key < rest[at].correctedPTS || rest[at].pes.None?
    ensures rest[..at] + [Slot(e.key, Some(e.pes))] + rest[at..] == Slots(Inserted(kept, e))
    ensures SortedByKey(Inserted(kept, e)) && |Inserted(kept, e)| == |kept| + 1
  {
    var p := Position(kept, e.key);
    assert at == p;
  }
}
