/** The "Not So Naive" search of src/memmem.h. */
module MemMem {
  import opened Bytes
  import opened Wrappers

  predicate Occurs(haystack: Bytes, needle: Bytes, j: nat)
  {
    j + |needle| <= |haystack| && haystack[j..j + |needle|] == needle
  }

  lemma OccursAt(haystack: Bytes, needle: Bytes, j: nat, i: nat)
    requires i < |needle|
    ensures Occurs(haystack, needle, j) ==> j + i < |haystack| && haystack[j + i] == needle[i]
  {
    if Occurs(haystack, needle, j) {
      assert haystack[j..j + |needle|][i] == needle[i];
    }
  }

  /** memchr. */
  method MemChr(haystack: Bytes, b: byte) returns (r: Option<nat>)
    ensures match r
      case Some(j) => j < |haystack| && haystack[j] == b && b !in haystack[..j]
      case None => b !in haystack
  {
    for i := 0 to |haystack|
      invariant b !in haystack[..i]
    {
      if haystack[i] == b {
        return Some(i);
      }
    }
    r := None;
  }

  /** The comparison at `j`: the needle's first byte, and all from its third byte on. */
  predicate Matches(haystack: Bytes, needle: Bytes, j: nat)
    requires |needle| >= 2 && j + |needle| <= |haystack|
  {
    haystack[j + 2..j + |needle|] == needle[2..] && haystack[j] == needle[0]
  }

  lemma MatchesOccurs(haystack: Bytes, needle: Bytes, j: nat)
    requires |needle| >= 2 && j + |needle| <= |haystack|
    ensures Matches(haystack, needle, j) && haystack[j + 1] == needle[1] <==> Occurs(haystack, needle, j)
  {
    var window := haystack[j..j + |needle|];
    assert window[2..] == haystack[j + 2..j + |needle|];
    if Matches(haystack, needle, j) && haystack[j + 1] == needle[1] {
      assert window == [window[0], window[1]] + window[2..];
      assert needle == [needle[0], needle[1]] + needle[2..];
    }
  }

  /** ltn_memmem: the first occurrence, if there is one, of a needle that is not empty. */
  method Search(haystack: Bytes, needle: Bytes) returns (r: Option<nat>)
    ensures needle == [] ==> r == None
    ensures r.Some? ==> Occurs(haystack, needle, r.value)
    ensures r.Some? ==> forall k :: 0 <= k < r.value ==> !Occurs(haystack, needle, k)
    ensures r.None? && needle != [] ==> forall k :: 0 <= k ==> !Occurs(haystack, needle, k)
  {
    var n, m := |haystack|, |needle|;
    if m > n || m == 0 || n == 0 {
      return None;
    }
    if m > 1 {
      var j, k, l := 0, 1, 2;
      if needle[0] == needle[1] {
        k, l := 2, 1;
      }
      while j <= n - m
        invariant 0 <= j <= n - m + 2
        invariant forall i :: 0 <= i < j ==> !Occurs(haystack, needle, i)
      {
        MatchesOccurs(haystack, needle, j);
        if needle[1] != haystack[j + 1] {
          SkipMismatch(haystack, needle, j);
          j := j + k;
        } else {
          if Matches(haystack, needle, j) {
            return Some(j);
          }
          SkipMatch(haystack, needle, j);
          j := j + l;
        }
      }
    } else {
      r := MemChr(haystack, needle[0]);
      OneByte(haystack, needle);
      return;
    }
    r := None;
  }

  /** With two equal first bytes, a second byte that differs rules out the next place too. */
  lemma SkipMismatch(haystack: Bytes, needle: Bytes, j: nat)
    requires |needle| >= 2 && j + |needle| <= |haystack| && haystack[j + 1] != needle[1]
    ensures !Occurs(haystack, needle, j)
    ensures needle[0] == needle[1] ==> !Occurs(haystack, needle, j + 1)
  {
    OccursAt(haystack, needle, j, 1);
    OccursAt(haystack, needle, j + 1, 0);
  }

  /** With two different first bytes, a second byte that agrees rules out the next place. */
  lemma SkipMatch(haystack: Bytes, needle: Bytes, j: nat)
    requires |needle| >= 2 && j + |needle| <= |haystack| && haystack[j + 1] == needle[1]
    ensures needle[0] != needle[1] ==> !Occurs(haystack, needle, j + 1)
  {
    OccursAt(haystack, needle, j + 1, 0);
  }

  lemma OneByte(haystack: Bytes, needle: Bytes)
    requires |needle| == 1
    ensures forall j :: 0 <= j ==> (Occurs(haystack, needle, j) <==> j < |haystack| && haystack[j] == needle[0])
  {
    forall j | 0 <= j < |haystack| ensures Occurs(haystack, needle, j) <==> haystack[j] == needle[0] {
      assert haystack[j..j + 1] == [haystack[j]];
      assert needle == [needle[0]];
    }
  }
}
