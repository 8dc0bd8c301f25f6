/** What the reordering list does to a whole run of PES: when its output is a sort of its input. */
module Reordering {
  import opened Counting
  import opened OrderedOutput

  /** A PES is named by its place in the order of arrival. */
  type Arrival = Entry<int>

  /** The PES held once those with `keys` have arrived. */
  ghost function HeldAfter(keys: seq<int>): seq<Arrival>
  {
    if keys == [] then []
    else var n := |keys| - 1; After(HeldAfter(keys[..n]), Entry(keys[n], n))
  }

  /** Those given to the callback by then, in order. */
  ghost function OutAfter(keys: seq<int>): seq<Arrival>
  {
    if keys == [] then []
    else
      var n := |keys| - 1;
      var held := HeldAfter(keys[..n]);
      OutAfter(keys[..n]) + if Emits(held) then [held[0]] else []
  }

  /** The whole output: what was given during the run, then the flush. */
  ghost function Output(keys: seq<int>): seq<Arrival>
  {
    OutAfter(keys) + HeldAfter(keys)
  }

  /** Every arrival exactly once, with its own key. */
  ghost predicate IsPermutation(s: seq<Arrival>, keys: seq<int>)
  {
    && |s| == |keys|
    && NoDuplicates(s)
    && (forall e :: e in s ==> 0 <= e.pes < |keys| && e.key == keys[e.pes])
    && (forall i :: 0 <= i < |keys| ==> Entry(keys[i], i) in s)
  }

  /** In order of key, and for equal keys in order of arrival. */
  ghost predicate StableSorted(s: seq<Arrival>)
  {
    forall i, j :: 0 <= i < j < |s| ==> Before(s[i], s[j])
  }

  predicate Before(a: Arrival, b: Arrival)
  {
    a.key < b.key || (a.key == b.key && a.pes < b.pes)
  }

  ghost function InsertedAt<T>(s: seq<T>, q: nat, e: T): seq<T>
    requires q <= |s|
  {
    s[..q] + [e] + s[q..]
  }

  /** Where in the whole output the next arrival lands. */
  ghost function Landing(keys: seq<int>, key: int): (q: nat)
    ensures q <= |Output(keys)|
  {
    var held := HeldAfter(keys);
    |OutAfter(keys)| + if Emits(held) then 1 + Position(held[1..], key) else Position(held, key)
  }

  lemma RunStep(keys: seq<int>, key: int)
    ensures HeldAfter(keys + [key]) == After(HeldAfter(keys), Entry(key, |keys|))
    ensures OutAfter(keys + [key]) == OutAfter(keys) + if Emits(HeldAfter(keys)) then [HeldAfter(keys)[0]] else []
  {
    hide After, Emits;
    assert (keys + [key])[..|keys|] == keys;
  }

  lemma OutputGrows(keys: seq<int>, key: int)
    ensures Output(keys + [key]) == InsertedAt(Output(keys), Landing(keys, key), Entry(key, |keys|))
  {
    hide HeldAfter, OutAfter, Position, After, Emits;
    RunStep(keys, key);
    var e: Arrival := Entry(key, |keys|);
    GrowsAt(OutAfter(keys), HeldAfter(keys), e);
  }

  /** Pushing out the first and inserting behind is inserting into the whole. */
  lemma GrowsAt(out: seq<Arrival>, held: seq<Arrival>, e: Arrival)
    ensures var out' := out + if Emits(held) then [held[0]] else [];
            var q := |out| + if Emits(held) then 1 + Position(held[1..], e.key) else Position(held, e.key);
            out' + After(held, e) == InsertedAt(out + held, q, e)
  {
    hide Position, InsertedAt;
    var kept: seq<Arrival> := if Emits(held) then held[1..] else held;
    var out': seq<Arrival> := out + if Emits(held) then [held[0]] else [];
    assert out' + kept == out + held;
    InsertBehind(out', kept, Position(kept, e.key), e);
  }

  lemma InsertBehind<T>(a: seq<T>, b: seq<T>, p: nat, e: T)
    requires p <= |b|
    ensures a + (b[..p] + [e] + b[p..]) == InsertedAt(a + b, |a| + p, e)
  {
    assert (a + b)[..|a| + p] == a + b[..p];
    assert (a + b)[|a| + p..] == b[p..];
  }

  lemma PermutationGrows(s: seq<Arrival>, keys: seq<int>, q: nat, key: int)
    requires IsPermutation(s, keys) && q <= |s|
    ensures IsPermutation(InsertedAt(s, q, Entry(key, |keys|)), keys + [key])
  {
    var e: Arrival := Entry(key, |keys|);
    var t, all := InsertedAt(s, q, e), keys + [key];
    assert forall x :: x in t <==> x in s || x == e;
    assert e !in s;
  }

  /** Unwrapped clock values. */
  ghost predicate NonNegative(keys: seq<int>)
  {
    forall i :: 0 <= i < |keys| ==> keys[i] >= 0
  }

  lemma InsertedSorted<T>(kept: seq<Entry<T>>, e: Entry<T>)
    requires SortedByKey(kept) && e.key >= 0
    ensures SortedByKey(Inserted(kept, e)) && |Inserted(kept, e)| == |kept| + 1
  {
    hide Position;
    var p := Position(kept, e.key);
    var t := Inserted(kept, e);
    assert forall i :: 0 <= i < p ==> t[i] == kept[i];
    assert forall i :: p < i < |t| ==> t[i] == kept[i - 1];
    assert t[p] == e;
  }

  /** What is held after one more arrival is in order, and one longer unless something went out. */
  lemma AfterSorted<T>(held: seq<Entry<T>>, e: Entry<T>)
    requires SortedByKey(held) && e.key >= 0
    ensures SortedByKey(After(held, e)) && |After(held, e)| == |held| + (if Emits(held) then 0 else 1)
    ensures |held| <= ORDERED_LIST_DEPTH ==> |After(held, e)| <= ORDERED_LIST_DEPTH
  {
    hide Inserted;
    InsertedSorted(if Emits(held) then held[1..] else held, e);
  }

  lemma NoArrivals(keys: seq<int>)
    requires keys == []
    ensures HeldAfter(keys) == [] && OutAfter(keys) == [] && Output(keys) == []
    ensures IsPermutation(Output(keys), keys) && StableSorted(Output(keys))
    ensures SortedByKey(HeldAfter(keys)) && !Emits(HeldAfter(keys)) && FewOvertaken(keys)
  {
  }

  /** For any keys: nothing is lost, nothing is doubled, what is held is in order and fits the list. */
  lemma {:induction false} NothingLost(keys: seq<int>)
    requires NonNegative(keys)
    ensures IsPermutation(Output(keys), keys)
    ensures SortedByKey(HeldAfter(keys)) && |HeldAfter(keys)| <= ORDERED_LIST_DEPTH
  {
    hide HeldAfter, OutAfter, After, IsPermutation, InsertedAt, Landing, Output, SortedByKey, Emits;
    if keys == [] {
      NoArrivals(keys);
    } else {
      var n := |keys| - 1;
      var init := keys[..n];
      NothingLost(init);
      assert init + [keys[n]] == keys;
      OutputGrows(init, keys[n]);
      PermutationGrows(Output(init), init, Landing(init, keys[n]), keys[n]);
      RunStep(init, keys[n]);
      AfterSorted(HeldAfter(init), Entry(keys[n], n));
    }
  }

  // ---------------------------------------------------------------- when the output is a sort

  ghost predicate Positive(keys: seq<int>)
  {
    forall i :: 0 <= i < |keys| ==> keys[i] > 0
  }

  /** The earlier arrivals that should come after arrival `n`. */
  ghost function Overtaken(keys: seq<int>, n: nat): set<int>
    requires n < |keys|
  {
    set i | 0 <= i < n && keys[i] > keys[n]
  }

  /** Nothing goes out until the list is full. */
  lemma {:induction false} FillsFirst(keys: seq<int>)
    requires Positive(keys)
    ensures |HeldAfter(keys)| == if |keys| <= 60 then |keys| else 60
    ensures Emits(HeldAfter(keys)) <==> |keys| >= 60
    ensures |OutAfter(keys)| == |keys| - |HeldAfter(keys)|
  {
    hide HeldAfter, OutAfter, After, Output;
    HeldArePositive(keys);
    if keys == [] {
      NoArrivals(keys);
    } else {
      var n := |keys| - 1;
      var init := keys[..n];
      assert init + [keys[n]] == keys;
      FillsFirst(init);
      NothingLost(init);
      RunStep(init, keys[n]);
      AfterSorted(HeldAfter(init), Entry(keys[n], n));
    }
  }

  lemma HeldArePositive(keys: seq<int>)
    requires Positive(keys)
    ensures HeldAfter(keys) != [] ==> HeldAfter(keys)[0].key > 0
  {
    hide HeldAfter, OutAfter;
    NothingLost(keys);
    if HeldAfter(keys) != [] {
      assert Output(keys)[|OutAfter(keys)|] == HeldAfter(keys)[0];
      assert HeldAfter(keys)[0] in Output(keys);
    }
  }

  /** As long as the list is not full, only keys of zero have gone out. */
  lemma {:induction false} OnlyZerosOut(keys: seq<int>)
    requires NonNegative(keys)
    ensures |HeldAfter(keys)| < 60 ==> forall e :: e in OutAfter(keys) ==> e.key == 0
  {
    hide HeldAfter, OutAfter, After, Output, IsPermutation, SortedByKey;
    if keys == [] {
      NoArrivals(keys);
    } else {
      var n := |keys| - 1;
      var init := keys[..n];
      assert init + [keys[n]] == keys;
      OnlyZerosOut(init);
      NothingLost(init);
      RunStep(init, keys[n]);
      AfterSorted(HeldAfter(init), Entry(keys[n], n));
    }
  }

  /** Dropping an element of a sorted list leaves it sorted. */
  lemma StillSorted(s: seq<Arrival>, q: nat, e: Arrival)
    requires q <= |s| && StableSorted(InsertedAt(s, q, e))
    ensures StableSorted(s)
  {
    var t := InsertedAt(s, q, e);
    forall i, j | 0 <= i < j < |s|
      ensures Before(s[i], s[j])
    {
      var i' := if i < q then i else i + 1;
      var j' := if j < q then j else j + 1;
      assert t[i'] == s[i] && t[j'] == s[j];
    }
  }

  /**
   * A new largest-numbered entry keeps a sorted list sorted exactly when what precedes it is not greater and what
   * follows is.
   */
  lemma InsertionSorted(s: seq<Arrival>, q: nat, e: Arrival)
    requires q <= |s| && StableSorted(s)
    requires forall x :: x in s ==> x.pes < e.pes
    ensures StableSorted(InsertedAt(s, q, e)) <==>
            (q > 0 ==> s[q - 1].key <= e.key) && (q < |s| ==> e.key < s[q].key)
  {
    var t := InsertedAt(s, q, e);
    assert t[q] == e;
    if StableSorted(t) {
      if q > 0 { assert t[q - 1] == s[q - 1]; }
      if q < |s| { assert t[q + 1] == s[q] && s[q] in s; }
    }
    if (q > 0 ==> s[q - 1].key <= e.key) && (q < |s| ==> e.key < s[q].key) {
      FitsSorted(s, q, e);
    }
  }

  lemma FitsSorted(s: seq<Arrival>, q: nat, e: Arrival)
    requires q <= |s| && StableSorted(s)
    requires forall x :: x in s ==> x.pes < e.pes
    requires (q > 0 ==> s[q - 1].key <= e.key) && (q < |s| ==> e.key < s[q].key)
    ensures StableSorted(InsertedAt(s, q, e))
  {
    var t := InsertedAt(s, q, e);
    forall i | 0 <= i < q ensures Before(s[i], e) {
      assert s[i] in s;
      assert i < q - 1 ==> Before(s[i], s[q - 1]);
    }
    forall i | q <= i < |s| ensures Before(e, s[i]) {
      assert i > q ==> Before(s[q], s[i]);
    }
    hide Before;
    forall i, j | 0 <= i < j < |t| ensures Before(t[i], t[j]) {
      assert i != q ==> t[i] == s[if i < q then i else i - 1];
      assert j != q ==> t[j] == s[if j < q then j else j - 1];
    }
  }

  /** In a sorted output, the overtaken arrivals are the ones behind the split. */
  lemma OvertakenCount(s: seq<Arrival>, keys: seq<int>, key: int, q: nat)
    requires IsPermutation(s, keys) && q <= |s|
    requires forall i :: 0 <= i < q ==> s[i].key <= key
    requires forall i :: q <= i < |s| ==> s[i].key > key
    ensures |Overtaken(keys + [key], |keys|)| == |s| - q
  {
    var tail := s[q..];
    var ids := seq(|tail|, i requires 0 <= i < |tail| => tail[i].pes);
    assert NoDuplicates(ids) by {
      forall i, j | 0 <= i < j < |ids| ensures ids[i] != ids[j] {
        assert s[q + i] in s && s[q + j] in s && s[q + i] != s[q + j];
      }
    }
    ElementsCount(ids);
    forall i ensures i in Elements(ids) <==> i in Overtaken(keys + [key], |keys|) {
      if i in Elements(ids) {
        var k :| 0 <= k < |ids| && ids[k] == i;
        assert s[q + k] in s;
      }
      if i in Overtaken(keys + [key], |keys|) {
        var k :| 0 <= k < |s| && s[k] == Entry(keys[i], i);
        assert k >= q && ids[k - q] == i;
      }
    }
    assert Elements(ids) == Overtaken(keys + [key], |keys|);
  }

  lemma KeysUp(s: seq<Arrival>)
    requires StableSorted(s)
    ensures forall i, j :: 0 <= i <= j < |s| ==> s[i].key <= s[j].key
  {
  }

  /**
   * A sorted output of which the last 59 are still held, or fewer while only keys of zero are gone: an arrival lands
   * behind nothing greater exactly when it overtakes fewer than 60.
   */
  lemma LandingFits(s: seq<Arrival>, keys: seq<int>, key: int, first: nat, p: nat)
    requires IsPermutation(s, keys)
    requires forall i, j :: 0 <= i <= j < |s| ==> s[i].key <= s[j].key
    requires key >= 0 && first <= |s| < first + ORDERED_LIST_DEPTH
    requires |s| - first < ORDERED_LIST_DEPTH - 1 ==> forall i :: 0 <= i < first ==> s[i].key == 0
    requires p == Position(s[first..], key)
    ensures var q := first + p;
            q <= |s| && ((q > 0 ==> s[q - 1].key <= key) && (q < |s| ==> key < s[q].key)
            <==> |Overtaken(keys + [key], |keys|)| < ORDERED_LIST_DEPTH)
  {
    hide Overtaken, IsPermutation;
    var kept, q := s[first..], first + p;
    assert q < |s| ==> s[q] == kept[p];
    if p > 0 {
      assert s[q - 1] == kept[p - 1];
      OvertakenCount(s, keys, key, q);
    } else {
      var m := Position(s, key);
      assert m <= first;
      OvertakenCount(s, keys, key, m);
    }
  }

  lemma LandingIs(keys: seq<int>, key: int) returns (first: nat)
    requires NonNegative(keys)
    ensures first <= |Output(keys)| < first + ORDERED_LIST_DEPTH
    ensures |Output(keys)| - first < ORDERED_LIST_DEPTH - 1 ==> forall i :: 0 <= i < first ==> Output(keys)[i].key == 0
    ensures Landing(keys, key) == first + Position(Output(keys)[first..], key)
  {
    hide HeldAfter, OutAfter, Position, IsPermutation;
    NothingLost(keys);
    OnlyZerosOut(keys);
    var out, held := OutAfter(keys), HeldAfter(keys);
    first := |out| + if Emits(held) then 1 else 0;
    assert Output(keys)[first..] == if Emits(held) then held[1..] else held;
  }

  /** One more arrival keeps the output sorted exactly when it overtakes fewer than 60. */
  lemma SortedStep(keys: seq<int>, key: int)
    requires NonNegative(keys + [key]) && StableSorted(Output(keys))
    ensures StableSorted(Output(keys + [key])) <==> |Overtaken(keys + [key], |keys|)| < ORDERED_LIST_DEPTH
  {
    hide HeldAfter, OutAfter, Output, InsertedAt, Overtaken, StableSorted, Emits, Position, NonNegative,
        IsPermutation, Landing, SortedByKey;
    var s := Output(keys);
    NonNegativePrefix(keys, key);
    NothingLost(keys);
    OutputGrows(keys, key);
    KeysUp(s);
    var first := LandingIs(keys, key);
    LandingFits(s, keys, key, first, Position(s[first..], key));
    BelowAll(s, keys);
    InsertionSorted(s, Landing(keys, key), Entry(key, |keys|));
  }

  lemma NonNegativePrefix(keys: seq<int>, key: int)
    requires NonNegative(keys + [key])
    ensures NonNegative(keys) && key >= 0
  {
    assert forall i :: 0 <= i < |keys| ==> keys[i] == (keys + [key])[i];
    assert (keys + [key])[|keys|] == key;
  }

  lemma BelowAll(s: seq<Arrival>, keys: seq<int>)
    requires IsPermutation(s, keys)
    ensures forall x :: x in s ==> x.pes < |keys|
  {
  }

  /** No arrival overtakes as many as the list holds. */
  ghost predicate FewOvertaken(keys: seq<int>)
  {
    forall n :: 0 <= n < |keys| ==> |Overtaken(keys, n)| < 60
  }

  lemma FewOvertakenSnoc(keys: seq<int>, key: int)
    ensures FewOvertaken(keys + [key]) <==>
            FewOvertaken(keys) && |Overtaken(keys + [key], |keys|)| < ORDERED_LIST_DEPTH
  {
    hide Overtaken;
    forall k | 0 <= k < |keys| ensures Overtaken(keys + [key], k) == Overtaken(keys, k) {
      OvertakenPrefix(keys, key, k);
    }
    if FewOvertaken(keys + [key]) {
      forall k | 0 <= k < |keys| ensures |Overtaken(keys, k)| < ORDERED_LIST_DEPTH {
        assert |Overtaken(keys + [key], k)| < ORDERED_LIST_DEPTH;
      }
    }
  }

  lemma OvertakenPrefix(keys: seq<int>, key: int, n: nat)
    requires n < |keys|
    ensures Overtaken(keys + [key], n) == Overtaken(keys, n)
  {
    assert forall i :: 0 <= i < |keys| ==> (keys + [key])[i] == keys[i];
  }

  lemma SortedIffBoth(keys: seq<int>, key: int)
    requires NonNegative(keys + [key])
    ensures StableSorted(Output(keys + [key])) <==>
            StableSorted(Output(keys)) && |Overtaken(keys + [key], |keys|)| < ORDERED_LIST_DEPTH
  {
    hide Output, Landing, InsertedAt, StableSorted, Overtaken, NonNegative;
    OutputGrows(keys, key);
    if StableSorted(Output(keys + [key])) { StillSorted(Output(keys), Landing(keys, key), Entry(key, |keys|)); }
    if StableSorted(Output(keys)) { SortedStep(keys, key); }
  }

  /**
   * For all keys the clock can give, the PES come out as a stable sort of the order in which they arrived
   * exactly when none of them overtakes 60 or more.
   */
  lemma {:induction false} SortsExactlyWhen(keys: seq<int>)
    requires NonNegative(keys)
    ensures IsPermutation(Output(keys), keys)
    ensures StableSorted(Output(keys)) <==> FewOvertaken(keys)
  {
    hide Output, Landing, InsertedAt, IsPermutation, StableSorted, FewOvertaken, Overtaken, NonNegative, HeldAfter,
        SortedByKey;
    NothingLost(keys);
    if keys == [] {
      NoArrivals(keys);
    } else {
      var n := |keys| - 1;
      var init, key := keys[..n], keys[n];
      assert keys == init + [key];
      NonNegativePrefix(init, key);
      SortsExactlyWhen(init);
      FewOvertakenSnoc(init, key);
      SortedIffBoth(init, key);
    }
  }

  /** In particular when no PES is earlier than one that arrived 60 or more places before it. */
  lemma SortsWhenNearlySorted(keys: seq<int>)
    requires NonNegative(keys)
    requires forall i, j :: 0 <= i && i + 60 <= j < |keys| ==> keys[i] <= keys[j]
    ensures IsPermutation(Output(keys), keys) && StableSorted(Output(keys))
  {
    forall n | 0 <= n < |keys| ensures |Overtaken(keys, n)| < ORDERED_LIST_DEPTH {
      OvertakenNear(keys, n);
    }
    hide Output, IsPermutation, StableSorted, Overtaken;
    SortsExactlyWhen(keys);
  }

  lemma OvertakenNear(keys: seq<int>, n: nat)
    requires n < |keys|
    requires forall i, j :: 0 <= i && i + 60 <= j < |keys| ==> keys[i] <= keys[j]
    ensures |Overtaken(keys, n)| < ORDERED_LIST_DEPTH
  {
    var low := if n < ORDERED_LIST_DEPTH - 1 then 0 else n - (ORDERED_LIST_DEPTH - 1);
    var near := seq(n - low, i requires 0 <= i < n - low => low + i);
    ElementsCount(near);
    forall i | i in Overtaken(keys, n) ensures i in Elements(near) {
      assert near[i - low] == i;
    }
    SubsetSize(Overtaken(keys, n), Elements(near));
  }

  /** A key of zero does not wait: it goes out with the next arrival, however early. */
  lemma ZeroKeyLeavesAtOnce(keys: seq<int>, key: int)
    requires HeldAfter(keys) != [] && HeldAfter(keys)[0].key == 0
    ensures OutAfter(keys + [key]) == OutAfter(keys) + [HeldAfter(keys)[0]]
  {
    assert (keys + [key])[..|keys|] == keys;
  }
}
