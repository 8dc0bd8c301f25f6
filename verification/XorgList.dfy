/**
 * The intrusive circular list of src/xorg-list.h. A ring is a sequence of
 * links that point to each other in a circle; a list is a ring whose first
 * link is the head.
 */
module XorgList {
  import opened Counting

  class Link {
    var next: Link
    var prev: Link

    /** A link by itself, as xorg_list_init leaves it. */
    constructor ()
      ensures Ring([this])
    {
      next, prev := this, this;
    }
  }

  ghost predicate Ring(r: seq<Link>)
    reads r
  {
    && |r| > 0 && NoDuplicates(r)
    && (forall i :: 0 <= i < |r| - 1 ==> r[i].next == r[i + 1])
    && (forall i :: 0 < i < |r| ==> r[i].prev == r[i - 1])
    && r[|r| - 1].next == r[0] && r[0].prev == r[|r| - 1]
  }

  /** A list with a head and the elements behind it. */
  ghost predicate List(head: Link, elements: seq<Link>)
    reads head, elements
  {
    Ring([head] + elements)
  }

  function Reversed<T>(s: seq<T>): seq<T>
  {
    if s == [] then [] else [s[|s| - 1]] + Reversed(s[..|s| - 1])
  }

  // ---------------------------------------------------------------- the operations

  /** xorg_list_init. */
  method Init(list: Link)
    modifies list
    ensures List(list, [])
  {
    list.next, list.prev := list, list;
  }

  /** __xorg_list_add. */
  method AddBetween(entry: Link, prev: Link, next: Link)
    requires entry != prev && entry != next
    modifies entry, prev`next, next`prev
    ensures entry.next == next && entry.prev == prev && prev.next == entry && next.prev == entry
  {
    next.prev := entry;
    entry.next := next;
    entry.prev := prev;
    prev.next := entry;
  }

  /** A ring but for the two pointers between link `at` and the next, which lead through the entry, is a longer ring. */
  lemma Inserted(ring: seq<Link>, entry: Link, at: nat)
    requires NoDuplicates(ring) && at < |ring| && entry !in ring
    requires forall i :: 0 <= i < |ring| - 1 && i != at ==> ring[i].next == ring[i + 1]
    requires forall i :: 0 < i < |ring| && i != at + 1 ==> ring[i].prev == ring[i - 1]
    requires at != |ring| - 1 ==> ring[|ring| - 1].next == ring[0] && ring[0].prev == ring[|ring| - 1]
    requires ring[at].next == entry && entry.prev == ring[at]
    requires var after := if at + 1 < |ring| then ring[at + 1] else ring[0]; entry.next == after && after.prev == entry
    ensures Ring(ring[..at + 1] + [entry] + ring[at + 1..])
  {
    var r := ring[..at + 1] + [entry] + ring[at + 1..];
    assert r[at + 1] == entry;
    forall i | 0 <= i < |r| - 1 ensures r[i].next == r[i + 1] {
      if i <= at {
        assert r[i] == ring[i];
      } else if i > at + 1 {
        assert r[i] == ring[i - 1] && r[i + 1] == ring[i];
      }
    }
    forall i | 0 < i < |r| ensures r[i].prev == r[i - 1] {
      if i <= at {
        assert r[i] == ring[i] && r[i - 1] == ring[i - 1];
      } else if i > at + 2 {
        assert r[i] == ring[i - 1] && r[i - 1] == ring[i - 2];
      }
    }
  }

  /** xorg_list_add: the entry becomes the first element. */
  method Add(entry: Link, head: Link, ghost elements: seq<Link>)
    requires List(head, elements) && entry != head && entry !in elements
    modifies entry, head, head.next
    ensures List(head, [entry] + elements)
  {
    ghost var ring := [head] + elements;
    LinkAt(head, elements, 0);
    assert forall i :: 0 <= i < |ring| && i != 1 && |ring| > 1 ==> ring[i] != ring[1];
    AddBetween(entry, head, head.next);
    Inserted(ring, entry, 0);
    assert ring[..1] + [entry] + ring[1..] == [head] + ([entry] + elements);
  }

  /** xorg_list_append: the entry becomes the last element. */
  method Append(entry: Link, head: Link, ghost elements: seq<Link>)
    requires List(head, elements) && entry != head && entry !in elements
    modifies entry, head, head.prev
    ensures List(head, elements + [entry])
  {
    ghost var ring := [head] + elements;
    LinkAt(head, elements, 0);
    AddBetween(entry, head.prev, head);
    Inserted(ring, entry, |elements|);
    assert ring[..|ring|] + [entry] + ring[|ring|..] == [head] + (elements + [entry]);
  }

  /** A ring but for the pointers around link `at`, which skip it, is a ring without it. */
  lemma Removed(ring: seq<Link>, at: nat)
    requires NoDuplicates(ring) && at < |ring| && |ring| > 1
    requires forall i :: 0 <= i < |ring| - 1 && i != at && i + 1 != at ==> ring[i].next == ring[i + 1]
    requires forall i :: 0 < i < |ring| && i != at && i - 1 != at ==> ring[i].prev == ring[i - 1]
    requires 0 < at < |ring| - 1 ==> ring[|ring| - 1].next == ring[0] && ring[0].prev == ring[|ring| - 1]
    requires var before, after := if at == 0 then ring[|ring| - 1] else ring[at - 1],
        if at + 1 < |ring| then ring[at + 1] else ring[0];
      before.next == after && after.prev == before
    ensures Ring(ring[..at] + ring[at + 1..])
  {
    var r := ring[..at] + ring[at + 1..];
    forall i | 0 <= i < |r| - 1 ensures r[i].next == r[i + 1] {
      if i + 1 < at {
        assert r[i] == ring[i] && r[i + 1] == ring[i + 1];
      } else if i >= at {
        assert r[i] == ring[i + 1] && r[i + 1] == ring[i + 2];
      }
    }
    forall i | 0 < i < |r| ensures r[i].prev == r[i - 1] {
      if i < at {
        assert r[i] == ring[i] && r[i - 1] == ring[i - 1];
      } else if i > at {
        assert r[i] == ring[i + 1] && r[i - 1] == ring[i];
      }
    }
  }

  /** xorg_list_del, of any link of a ring, its head included: it leaves the others a ring and is one by itself. */
  method Del(entry: Link, ghost ring: seq<Link>, ghost at: nat)
    requires Ring(ring) && at < |ring| && ring[at] == entry
    modifies entry, entry.prev`next, entry.next`prev
    ensures Ring([entry])
    ensures |ring| > 1 ==> Ring(ring[..at] + ring[at + 1..])
  {
    ghost var before := if at == 0 then ring[|ring| - 1] else ring[at - 1];
    ghost var after := if at + 1 < |ring| then ring[at + 1] else ring[0];
    assert entry.prev == before && entry.next == after;
    assert forall i :: 0 <= i < |ring| && i != at ==> ring[i] != entry;
    assert forall i :: 0 <= i < |ring| - 1 && i + 1 != at ==> ring[i] != before || at == 0;
    assert forall i :: 0 < i < |ring| && i - 1 != at ==> ring[i] != after || at == |ring| - 1;
    entry.next.prev := entry.prev;
    entry.prev.next := entry.next;
    entry.next, entry.prev := entry, entry;
    if |ring| > 1 {
      Removed(ring, at);
    }
  }

  lemma LinkAt(head: Link, elements: seq<Link>, i: nat)
    requires List(head, elements) && i <= |elements|
    ensures var link := ([head] + elements)[i];
      && link.next == (if i == |elements| then head else elements[i])
      && link.prev == (if i == 0 then ([head] + elements)[|elements|] else ([head] + elements)[i - 1])
      && (link == head <==> i == 0)
  {
    var ring := [head] + elements;
    if i < |elements| {
      assert ring[i].next == ring[i + 1];
    }
    if i > 0 {
      assert ring[0] != ring[i];
    }
  }

  /** Forward walk. */
  method Forward(head: Link, ghost elements: seq<Link>) returns (walked: seq<Link>)
    requires List(head, elements)
    ensures walked == elements
  {
    walked := [];
    var pos := head.next;
    LinkAt(head, elements, 0);
    while pos != head
      invariant |walked| <= |elements| && walked == elements[..|walked|]
      invariant pos == if |walked| == |elements| then head else elements[|walked|]
      decreases |elements| - |walked|
    {
      LinkAt(head, elements, |walked| + 1);
      walked := walked + [pos];
      pos := pos.next;
    }
    if |walked| < |elements| {
      LinkAt(head, elements, |walked| + 1);
    }
  }

  /** Backward walk. */
  method Backward(head: Link, ghost elements: seq<Link>) returns (walked: seq<Link>)
    requires List(head, elements)
    ensures walked == Reversed(elements)
  {
    walked := [];
    ghost var left := |elements|;
    var pos := head.prev;
    LinkAt(head, elements, 0);
    assert elements[..left] == elements;
    while pos != head
      invariant 0 <= left <= |elements|
      invariant Reversed(elements) == walked + Reversed(elements[..left])
      invariant pos == ([head] + elements)[left]
      decreases left
    {
      LinkAt(head, elements, left);
      assert elements[..left][..left - 1] == elements[..left - 1];
      walked := walked + [pos];
      pos := pos.prev;
      left := left - 1;
    }
    LinkAt(head, elements, left);
  }

  // ---------------------------------------------------------------- moving while iterating

  ghost predicate Apart(a: Link, as_: seq<Link>, b: Link, bs: seq<Link>)
  {
    a != b && a !in bs && b !in as_ && forall x :: x in as_ ==> x !in bs
  }

  /** Take an element out of its list. */
  method TakeOut(entry: Link, source: Link, ghost before: seq<Link>, ghost after: seq<Link>)
    requires List(source, before + [entry] + after)
    modifies before, after, entry, source
    ensures List(source, before + after)
    ensures entry != source && entry !in before && entry !in after
  {
    ghost var ring, at := [source] + (before + [entry] + after), |before| + 1;
    EntryApart(source, before, entry, after);
    assert ring[..at] + ring[at + 1..] == [source] + (before + after);
    Neighbours(ring, at);
    Del(entry, ring, at);
  }

  lemma EntryApart(source: Link, before: seq<Link>, entry: Link, after: seq<Link>)
    requires List(source, before + [entry] + after)
    ensures entry != source && entry !in before && entry !in after
    ensures ([source] + (before + [entry] + after))[|before| + 1] == entry
  {
    var ring, at := [source] + (before + [entry] + after), |before| + 1;
    assert forall i :: 0 <= i < |ring| && i != at ==> ring[i] != ring[at];
    assert forall i :: 0 <= i < |before| ==> before[i] == ring[i + 1];
    assert forall i :: 0 <= i < |after| ==> after[i] == ring[at + 1 + i];
    assert ring[0] == source;
  }

  lemma ApartMoved(source: Link, before: seq<Link>, entry: Link, after: seq<Link>, target: Link, held: seq<Link>)
    requires Apart(source, before + [entry] + after, target, held)
    requires entry != source && entry !in before && entry !in after
    ensures Apart(source, before + after, target, held + [entry])
    ensures entry != target && entry !in held
    ensures forall x :: x in before || x in after ==> x != target && x !in held
  {
    assert forall x :: x in before + after || x == entry ==> x in before + [entry] + after;
  }

  /** Take an element out of one list and append it to another. */
  method MoveOne(entry: Link, source: Link, target: Link,
                 ghost before: seq<Link>, ghost after: seq<Link>, ghost held: seq<Link>)
    requires List(source, before + [entry] + after) && List(target, held)
    requires Apart(source, before + [entry] + after, target, held)
    modifies before, after, held, entry, source, target
    ensures List(source, before + after) && List(target, held + [entry])
    ensures Apart(source, before + after, target, held + [entry])
  {
    hide Apart;
    EntryApart(source, before, entry, after);
    ApartMoved(source, before, entry, after, target, held);
    ApartHeads(source, before + after, target, held + [entry]);
    TakeOut(entry, source, before, after);
    assert forall x :: x in [target] + held ==> x.next == old(x.next);
    assert forall x :: x in [target] + held ==> x.prev == old(x.prev);
    LinkAt(target, held, 0);
    label Out:
    Append(entry, target, held);
    assert forall x :: x in [source] + (before + after) ==> x.next == old@Out(x.next);
    assert forall x :: x in [source] + (before + after) ==> x.prev == old@Out(x.prev);
  }

  lemma ApartHeads(source: Link, elements: seq<Link>, target: Link, held: seq<Link>)
    requires Apart(source, elements, target, held)
    ensures source != target && target !in elements && source !in held
  {
  }

  lemma Neighbours(ring: seq<Link>, at: nat)
    requires Ring(ring) && at < |ring|
    ensures ring[at].prev in ring && ring[at].next in ring
  {
    if at < |ring| - 1 {
      assert ring[at].next == ring[at + 1];
    }
    if at > 0 {
      assert ring[at].prev == ring[at - 1];
    }
  }

  /** The elements of `s` inside, or outside, `chosen`, in order. */
  ghost function Only(s: seq<Link>, chosen: set<Link>, inside: bool): seq<Link>
  {
    if s == [] then []
    else
      var last := s[|s| - 1];
      Only(s[..|s| - 1], chosen, inside) + if (last in chosen) == inside then [last] else []
  }

  ghost predicate Within(a: seq<Link>, b: seq<Link>)
  {
    forall i :: 0 <= i < |a| ==> a[i] in b
  }

  lemma {:induction false} OnlyFrom(s: seq<Link>, chosen: set<Link>, inside: bool)
    ensures Within(Only(s, chosen, inside), s)
  {
    if s != [] {
      var init, r := s[..|s| - 1], Only(s, chosen, inside);
      OnlyFrom(init, chosen, inside);
      assert forall i :: 0 <= i < |init| ==> init[i] in s;
      forall i | 0 <= i < |r| ensures r[i] in s {
        if i < |Only(init, chosen, inside)| {
          assert r[i] == Only(init, chosen, inside)[i] && r[i] in init;
        }
      }
    }
  }

  /** What the safe iteration finds `n` elements on: the list's links, and where the saved pointer leads. */
  lemma Onward(source: Link, kept: seq<Link>, elements: seq<Link>, n: nat)
    requires n < |elements| && List(source, kept + elements[n..])
    ensures elements[n] != source
    ensures elements[n].next == if n + 1 == |elements| then source else elements[n + 1]
    ensures kept + elements[n..] == kept + [elements[n]] + elements[n + 1..]
  {
    assert kept + elements[n..] == kept + [elements[n]] + elements[n + 1..];
    LinkAt(source, kept + elements[n..], |kept| + 1);
  }

  lemma TakeWithin(s: seq<Link>, n: nat)
    requires n <= |s|
    ensures Within(s[..n], s) && Within(s[n..], s)
    ensures n < |s| ==> s[n] in s && s[..n] + [s[n]] == s[..n + 1]
  {
  }

  /** What is left behind, and what has arrived, after `n` elements. */
  ghost function Left(elements: seq<Link>, chosen: set<Link>, n: nat): (r: seq<Link>)
    requires n <= |elements|
    ensures Within(r, elements)
  {
    OnlyFrom(elements[..n], chosen, false);
    TakeWithin(elements, n);
    Only(elements[..n], chosen, false)
  }

  ghost function Arrived(elements: seq<Link>, held: seq<Link>, chosen: set<Link>, n: nat): (r: seq<Link>)
    requires n <= |elements|
    ensures Within(r, elements + held)
  {
    OnlyFrom(elements[..n], chosen, true);
    TakeWithin(elements, n);
    held + Only(elements[..n], chosen, true)
  }

  lemma LeftNext(elements: seq<Link>, held: seq<Link>, chosen: set<Link>, n: nat)
    requires n < |elements|
    ensures var e, l, a := elements[n], Left(elements, chosen, n), Arrived(elements, held, chosen, n);
      && Left(elements, chosen, n + 1) == (if e in chosen then l else l + [e])
      && Arrived(elements, held, chosen, n + 1) == (if e in chosen then a + [e] else a)
  {
    assert elements[..n + 1][..n] == elements[..n];
  }

  lemma LeftEnds(elements: seq<Link>, held: seq<Link>, chosen: set<Link>)
    ensures Left(elements, chosen, 0) + elements[0..] == elements
    ensures Arrived(elements, held, chosen, 0) == held
    ensures Left(elements, chosen, |elements|) + elements[|elements|..] == Only(elements, chosen, false)
    ensures Arrived(elements, held, chosen, |elements|) == held + Only(elements, chosen, true)
  {
    assert elements[..|elements|] == elements;
  }

  /** The body: move the element if it is chosen. */
  method Visit(entry: Link, source: Link, target: Link, chosen: set<Link>,
               ghost kept: seq<Link>, ghost after: seq<Link>, ghost held: seq<Link>)
    requires List(source, kept + [entry] + after) && List(target, held)
    requires Apart(source, kept + [entry] + after, target, held)
    modifies kept, after, held, entry, source, target
    ensures var k, h := if entry in chosen then kept else kept + [entry],
        if entry in chosen then held + [entry] else held;
      List(source, k + after) && List(target, h) && Apart(source, k + after, target, h)
  {
    if entry in chosen {
      MoveOne(entry, source, target, kept, after, held);
    }
  }

  /** Both lists after `n` elements. */
  ghost predicate Halfway(source: Link, target: Link, chosen: set<Link>, elements: seq<Link>, held: seq<Link>, n: nat)
    requires n <= |elements|
    reads source, target, elements, held
  {
    var here, there := Left(elements, chosen, n) + elements[n..], Arrived(elements, held, chosen, n);
    TakeWithin(elements, n);
    assert Within(here, elements);
    List(source, here) && List(target, there) && Apart(source, here, target, there)
  }

  method VisitNext(entry: Link, source: Link, target: Link, chosen: set<Link>,
                   ghost elements: seq<Link>, ghost held: seq<Link>, ghost n: nat)
    requires n < |elements| && entry == elements[n] && Halfway(source, target, chosen, elements, held, n)
    modifies elements, held, source, target
    ensures Halfway(source, target, chosen, elements, held, n + 1)
  {
    ghost var kept, rest := Left(elements, chosen, n), elements[n + 1..];
    Onward(source, kept, elements, n);
    hide Ring, List, Apart, Only, Left, Arrived;
    LeftNext(elements, held, chosen, n);
    TakeWithin(elements, n + 1);
    Visit(entry, source, target, chosen, kept, rest, Arrived(elements, held, chosen, n));
  }

  lemma HalfwayOn(source: Link, target: Link, chosen: set<Link>, elements: seq<Link>, held: seq<Link>, n: nat)
    requires n < |elements| && Halfway(source, target, chosen, elements, held, n)
    ensures elements[n] != source && elements[n].next == if n + 1 == |elements| then source else elements[n + 1]
    ensures elements[..n] + [elements[n]] == elements[..n + 1]
  {
    hide Left, Arrived;
    Onward(source, Left(elements, chosen, n), elements, n);
  }

  /**
   * xorg_list_for_each_entry_safe with a body that moves some of the elements to another list: each element is
   * visited once and in order, those moved arrive in order, and the rest stay as they were.
   */
  method MoveChosen(source: Link, target: Link, chosen: set<Link>,
                    ghost elements: seq<Link>, ghost held: seq<Link>) returns (visited: seq<Link>)
    requires List(source, elements) && List(target, held) && Apart(source, elements, target, held)
    modifies elements, held, source, target
    ensures visited == elements
    ensures List(source, Only(elements, chosen, false))
    ensures List(target, held + Only(elements, chosen, true))
  {
    visited := [];
    var pos := source.next;
    LinkAt(source, elements, 0);
    LeftEnds(elements, held, chosen);
    var next := pos.next;
    ghost var n := 0;
    assert Halfway(source, target, chosen, elements, held, 0);
    hide Halfway, Ring, Apart, Only, Left, Arrived;
    while pos != source
      invariant 0 <= n <= |elements| && visited == elements[..n]
      invariant Halfway(source, target, chosen, elements, held, n)
      invariant pos == if n == |elements| then source else elements[n]
      invariant next == pos.next
      decreases |elements| - n
    {
      HalfwayOn(source, target, chosen, elements, held, n);
      VisitNext(pos, source, target, chosen, elements, held, n);
      visited := visited + [pos];
      n := n + 1;
      pos := next;
      next := pos.next;
    }
    if n < |elements| {
      HalfwayOn(source, target, chosen, elements, held, n);
    }
    HalfwayEnd(source, target, chosen, elements, held);
  }

  lemma HalfwayEnd(source: Link, target: Link, chosen: set<Link>, elements: seq<Link>, held: seq<Link>)
    requires Halfway(source, target, chosen, elements, held, |elements|)
    ensures List(source, Only(elements, chosen, false)) && List(target, held + Only(elements, chosen, true))
  {
    LeftEnds(elements, held, chosen);
  }
}
