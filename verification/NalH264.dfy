/** Splitting a buffer at its start codes, ltn_nal_h264_find_headers of src/nal_h264.c. */
module NalH264 {
  import opened Bytes
  import opened Wrappers
  import opened MemMem

  const START_CODE: Bytes := [0, 0, 1]

  datatype Header = Header(offset: nat, nalType: nat, length: int)

  /** The headers found; or the search reached a start code at the very end and looked at the byte behind it. */
  datatype Found = Headers(list: seq<Header>) | PastEnd

  predicate IsCode(buf: Bytes, i: nat)
  {
    Occurs(buf, START_CODE, i)
  }

  /** The start codes at `from` up to, not including, `end`, in order. */
  function Codes(buf: Bytes, from: nat, end: nat): seq<nat>
    decreases end - from
  {
    if from >= end then []
    else if IsCode(buf, from) then [from] + Codes(buf, from + 1, end)
    else Codes(buf, from + 1, end)
  }

  /** Exactly the start codes, each once, in order. */
  lemma {:induction false} CodesExactly(buf: Bytes, from: nat, end: nat)
    ensures forall i :: i in Codes(buf, from, end) <==> from <= i < end && IsCode(buf, i)
    ensures Increasing(Codes(buf, from, end))
    decreases end - from
  {
    hide IsCode;
    if from < end {
      CodesExactly(buf, from + 1, end);
      var rest := Codes(buf, from + 1, end);
      assert forall k :: 0 <= k < |rest| ==> rest[k] in rest;
    }
  }

  predicate Increasing(s: seq<nat>)
  {
    forall k, l :: 0 <= k < l < |s| ==> s[k] < s[l]
  }

  /** Each with a byte behind it before `end`. */
  predicate Before(codes: seq<nat>, end: nat)
  {
    forall k :: 0 <= k < |codes| ==> codes[k] + 3 < end
  }

  /** One header a start code; each reaches to the next, the last to the end. */
  function Listing(buf: Bytes, codes: seq<nat>): (list: seq<Header>)
    requires Increasing(codes) && Before(codes, |buf|)
    ensures |list| == |codes| && Inside(buf, list)
  {
    seq(|codes|, k requires 0 <= k < |codes| =>
      Header(codes[k], TypeAt(buf, codes[k]), (if k + 1 < |codes| then codes[k + 1] else |buf|) - codes[k]))
  }

  function TypeAt(buf: Bytes, code: nat): nat
    requires code + 3 < |buf|
  {
    buf[code + 3] as int % 0x20
  }

  /** The search reaches a start code at the end of the buffer, unless another ends right before it. */
  predicate ReachesEnd(buf: Bytes)
  {
    |buf| > 3 && IsCode(buf, |buf| - 3) && !(|buf| >= 6 && IsCode(buf, |buf| - 6))
  }

  /** The type is the five low bits of the byte behind the start code. */
  lemma TypesAreLowBits(buf: Bytes, codes: seq<nat>, k: nat)
    requires Increasing(codes) && Before(codes, |buf|) && k < |codes|
    ensures var h := Listing(buf, codes)[k];
      h.offset == codes[k] && h.nalType < 32 && (buf[codes[k] + 3] as int - h.nalType) % 32 == 0
  {
    var b := buf[codes[k] + 3] as int;
    assert b - b % 32 == 32 * (b / 32);
  }

  /** Start codes do not overlap. */
  lemma CodesApart(buf: Bytes, i: nat, j: nat)
    requires IsCode(buf, i) && IsCode(buf, j) && i < j
    ensures i + 3 <= j
  {
    CodeBytes(buf, i);
    CodeBytes(buf, j);
  }

  lemma CodeBytes(buf: Bytes, i: nat)
    requires IsCode(buf, i)
    ensures i + 3 <= |buf| && buf[i] == 0 && buf[i + 1] == 0 && buf[i + 2] == 1
  {
    OccursAt(buf, START_CODE, i, 0);
    OccursAt(buf, START_CODE, i, 1);
    OccursAt(buf, START_CODE, i, 2);
  }

  lemma {:induction false} CodesMore(buf: Bytes, from: nat, middle: nat, code: nat)
    requires from <= middle <= code && IsCode(buf, code) && forall i :: middle <= i < code ==> !IsCode(buf, i)
    ensures Codes(buf, from, code + 3) == Codes(buf, from, middle) + [code]
    decreases code - from
  {
    if from < middle {
      CodesMore(buf, from + 1, middle, code);
    } else if from < code {
      CodesMore(buf, from + 1, from + 1, code);
    } else {
      CodesAfter(buf, code);
    }
  }

  lemma CodesAfter(buf: Bytes, code: nat)
    requires IsCode(buf, code)
    ensures Codes(buf, code, code + 3) == [code]
  {
    CodeBytes(buf, code);
    NotCode(buf, code + 1, 1);
    NotCode(buf, code + 2, 0);
    assert Codes(buf, code + 3, code + 3) == [];
    assert Codes(buf, code + 2, code + 3) == [];
    assert Codes(buf, code + 1, code + 3) == [];
  }

  lemma NotCode(buf: Bytes, i: nat, at: nat)
    requires at < 2 && i + at < |buf| && buf[i + at] == 1
    ensures !IsCode(buf, i)
  {
    OccursAt(buf, START_CODE, i, at);
  }

  lemma {:induction false} CodesNone(buf: Bytes, from: nat, middle: nat, end: nat)
    requires from <= middle <= end && forall i :: middle <= i < end ==> !IsCode(buf, i)
    ensures Codes(buf, from, end) == Codes(buf, from, middle)
    decreases end - from
  {
    if from < end {
      CodesNone(buf, from + 1, if middle > from then middle else from + 1, end);
    }
  }

  function Limit(buf: Bytes): nat
  {
    if |buf| >= 3 then |buf| - 3 else 0
  }

  /** Start codes with a byte behind them. */
  lemma CodesBefore(buf: Bytes)
    ensures Increasing(Codes(buf, 0, Limit(buf))) && Before(Codes(buf, 0, Limit(buf)), |buf|)
  {
    var codes := Codes(buf, 0, Limit(buf));
    CodesExactly(buf, 0, Limit(buf));
    assert forall k :: 0 <= k < |codes| ==> codes[k] in codes;
  }

  /** What is known of the list after a search up to `p`: all but the last length is as it will be. */
  predicate Partial(buf: Bytes, p: nat, list: seq<Header>)
  {
    var codes := Codes(buf, 0, p);
    && p <= |buf| && (p == 0 || (p >= 3 && p < |buf| && IsCode(buf, p - 3)))
    && |list| == |codes| && Before(codes, |buf|)
    && forall k :: 0 <= k < |list| ==>
      list[k].offset == codes[k] && list[k].nalType == TypeAt(buf, codes[k])
      && (k + 1 < |list| ==> codes[k] + list[k].length == codes[k + 1])
  }

  lemma SuffixCode(buf: Bytes, p: nat, j: nat)
    requires p <= |buf|
    ensures Occurs(buf[p..], START_CODE, j) <==> IsCode(buf, p + j)
  {
    if p + j + 3 <= |buf| {
      assert buf[p..][j..j + 3] == buf[p + j..p + j + 3];
    }
  }

  /** A start code found at the very end means the search reaches the end. */
  lemma FoundAtEnd(buf: Bytes, p: nat)
    requires p < |buf| - 3 && (p == 0 || (p >= 3 && IsCode(buf, p - 3)))
    requires IsCode(buf, |buf| - 3) && forall i :: p <= i < |buf| - 3 ==> !IsCode(buf, i)
    ensures ReachesEnd(buf)
  {
    if |buf| >= 6 && IsCode(buf, |buf| - 6) {
      CodesApart(buf, p - 3, |buf| - 6);
    }
  }

  lemma BeforeAll(codes: seq<nat>, end: nat)
    requires Before(codes, end)
    ensures forall i :: i in codes ==> i + 3 < end
  {
  }

  /** Leaving the loop leaves nothing out, and means the search has not reached the end. */
  lemma SearchedAll(buf: Bytes, p: nat, list: seq<Header>)
    requires Partial(buf, p, list)
    requires p >= |buf| - 3 || forall i :: p <= i ==> !IsCode(buf, i)
    ensures !ReachesEnd(buf) && Codes(buf, 0, p) == Codes(buf, 0, Limit(buf))
  {
    if p >= |buf| - 3 {
      if |buf| > 3 && IsCode(buf, |buf| - 3) && p - 3 < |buf| - 3 {
        CodesApart(buf, p - 3, |buf| - 3);
      }
      CodesExactly(buf, 0, p);
      BeforeAll(Codes(buf, 0, p), |buf|);
      CodesNone(buf, 0, Limit(buf), p);
    } else {
      CodesNone(buf, 0, p, Limit(buf));
    }
  }

  lemma OneMore(buf: Bytes, p: nat, list: seq<Header>, code: nat)
    requires Partial(buf, p, list) && p <= code && code + 3 < |buf|
    requires IsCode(buf, code) && forall i :: p <= i < code ==> !IsCode(buf, i)
    ensures var patched := if list == [] then [] else
        list[|list| - 1 := list[|list| - 1].(length := code - list[|list| - 1].offset)];
      Partial(buf, code + 3, patched + [Header(code, TypeAt(buf, code), 0)])
  {
    CodesMore(buf, 0, p, code);
  }

  /** ltn_nal_h264_find_headers. */
  method FindHeaders(buf: Bytes) returns (found: Found)
    ensures Increasing(Codes(buf, 0, Limit(buf))) && Before(Codes(buf, 0, Limit(buf)), |buf|)
    ensures found == if ReachesEnd(buf) then PastEnd else Headers(Listing(buf, Codes(buf, 0, Limit(buf))))
  {
    hide Codes, Occurs, IsCode, ReachesEnd, Partial, Increasing, Before;
    CodesBefore(buf);
    var list: seq<Header> := [];
    var p := 0;
    Nothing(buf);
    while p < |buf| - 3
      invariant 0 <= p && Partial(buf, p, list)
      decreases |buf| - p
    {
      PartialBounds(buf, p, list);
      var at := Search(buf[p..], START_CODE);
      InBuffer(buf, p, at);
      if at == None {
        break;
      }
      var code := p + at.value;
      if code + 3 == |buf| {
        FoundAtEnd(buf, p);
        return PastEnd;
      }
      OneMore(buf, p, list, code);
      if list != [] {
        var last := list[|list| - 1];
        list := list[|list| - 1 := last.(length := code - last.offset)];
      }
      list := list + [Header(code, TypeAt(buf, code), 0)];
      p := code + 3;
    }
    SearchedAll(buf, p, list);
    Finished(buf, p, list);
    if list != [] {
      var last := list[|list| - 1];
      list := list[|list| - 1 := last.(length := |buf| - last.offset)];
    }
    found := Headers(list);
  }

  lemma PartialBounds(buf: Bytes, p: nat, list: seq<Header>)
    requires Partial(buf, p, list)
    ensures p <= |buf| && (p == 0 || (p >= 3 && IsCode(buf, p - 3)))
  {
  }

  /** What a search of the rest of the buffer finds is a start code of the buffer. */
  lemma InBuffer(buf: Bytes, p: nat, at: Option<nat>)
    requires p <= |buf|
    requires at.Some? ==> Occurs(buf[p..], START_CODE, at.value)
    requires at.Some? ==> forall k :: 0 <= k < at.value ==> !Occurs(buf[p..], START_CODE, k)
    requires at.None? ==> forall k :: 0 <= k ==> !Occurs(buf[p..], START_CODE, k)
    ensures at.Some? ==> p + at.value + 3 <= |buf| && IsCode(buf, p + at.value)
    ensures at.Some? ==> forall i :: p <= i < p + at.value ==> !IsCode(buf, i)
    ensures at.None? ==> forall i :: p <= i ==> !IsCode(buf, i)
  {
    forall i | p <= i ensures Occurs(buf[p..], START_CODE, i - p) <==> IsCode(buf, i) {
      SuffixCode(buf, p, i - p);
    }
  }

  lemma Finished(buf: Bytes, p: nat, list: seq<Header>)
    requires Partial(buf, p, list) && Increasing(Codes(buf, 0, p)) && Before(Codes(buf, 0, p), |buf|)
    ensures Listing(buf, Codes(buf, 0, p))
            == if list == [] then [] else
                list[|list| - 1 := list[|list| - 1].(length := |buf| - list[|list| - 1].offset)]
  {
    hide Codes, IsCode, Increasing;
  }

  lemma Nothing(buf: Bytes)
    ensures Partial(buf, 0, [])
  {
  }

  // ---------------------------------------------------------------- what the list means

  /** A buffer of three bytes or more that does not end in a start code: every start code of it is listed. */
  lemma ListsEveryCode(buf: Bytes)
    requires |buf| >= 3 && !IsCode(buf, |buf| - 3)
    ensures !ReachesEnd(buf)
    ensures forall i: nat :: i in Codes(buf, 0, Limit(buf)) <==> IsCode(buf, i)
  {
    hide Codes;
    CodesExactly(buf, 0, Limit(buf));
    forall i: nat ensures IsCode(buf, i) ==> i < Limit(buf) {
    }
  }

  predicate Inside(buf: Bytes, list: seq<Header>)
  {
    forall k :: 0 <= k < |list| ==> 0 <= list[k].offset <= list[k].offset + list[k].length <= |buf|
  }

  function Slices(buf: Bytes, list: seq<Header>): (slices: seq<Bytes>)
    requires Inside(buf, list)
    ensures |slices| == |list|
  {
    seq(|list|, k requires 0 <= k < |list| => buf[list[k].offset..list[k].offset + list[k].length])
  }

  function EndOf(buf: Bytes, codes: seq<nat>, k: nat): nat
  {
    if k < |codes| then codes[k] else |buf|
  }

  lemma SliceAt(buf: Bytes, codes: seq<nat>, k: nat)
    requires Increasing(codes) && Before(codes, |buf|) && k < |codes|
    ensures codes[0] <= codes[k] <= EndOf(buf, codes, k + 1) <= |buf|
    ensures Slices(buf, Listing(buf, codes))[k] == buf[codes[k]..EndOf(buf, codes, k + 1)]
  {
  }

  lemma Join(buf: Bytes, a: nat, b: nat, c: nat)
    requires a <= b <= c <= |buf|
    ensures buf[a..b] + buf[b..c] == buf[a..c]
  {
  }

  lemma FlattenTake(slices: seq<Bytes>, k: nat)
    requires k < |slices|
    ensures Flatten(slices[..k + 1]) == Flatten(slices[..k]) + slices[k]
  {
    assert slices[..k + 1] == slices[..k] + [slices[k]];
    FlattenSnoc(slices[..k], slices[k]);
  }

  lemma {:induction false} TilesUpTo(buf: Bytes, codes: seq<nat>, k: nat)
    requires Increasing(codes) && Before(codes, |buf|) && 0 < k <= |codes|
    ensures codes[0] <= EndOf(buf, codes, k) <= |buf|
    ensures Flatten(Slices(buf, Listing(buf, codes))[..k]) == buf[codes[0]..EndOf(buf, codes, k)]
  {
    hide Increasing, Before, EndOf, Flatten, Listing, Slices;
    var slices := Slices(buf, Listing(buf, codes));
    SliceAt(buf, codes, k - 1);
    FlattenTake(slices, k - 1);
    if k > 1 {
      TilesUpTo(buf, codes, k - 1);
      EndIs(buf, codes, k - 1);
      Join(buf, codes[0], codes[k - 1], EndOf(buf, codes, k));
    } else {
      FlattenNothing(slices);
    }
  }

  lemma EndIs(buf: Bytes, codes: seq<nat>, k: nat)
    requires k < |codes|
    ensures EndOf(buf, codes, k) == codes[k]
  {
  }

  lemma FlattenNothing(slices: seq<Bytes>)
    ensures Flatten(slices[..0]) == []
  {
  }

  /** The slices tile the buffer from the first start code to the end. */
  lemma SlicesTile(buf: Bytes, codes: seq<nat>)
    requires Increasing(codes) && Before(codes, |buf|) && codes != []
    ensures Flatten(Slices(buf, Listing(buf, codes))) == buf[codes[0]..]
  {
    var slices := Slices(buf, Listing(buf, codes));
    TilesUpTo(buf, codes, |codes|);
    assert slices[..|codes|] == slices;
  }
}
