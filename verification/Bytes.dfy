/** Bytes, and the flattening of a list of pieces into one string. */
module Bytes {

  type byte = b: int | 0 <= b < 0x100

  type Bytes = seq<byte>

  /** All the pieces of `ss`, end to end. */
  function Flatten<T>(ss: seq<seq<T>>): (r: seq<T>)
  {
    if ss == [] then [] else Flatten(ss[..|ss| - 1]) + ss[|ss| - 1]
  }

  lemma FlattenSnoc<T>(ss: seq<seq<T>>, s: seq<T>)
    ensures Flatten(ss + [s]) == Flatten(ss) + s
  {
    assert (ss + [s])[..|ss|] == ss;
  }

  lemma {:induction false} FlattenAppend<T>(ss: seq<seq<T>>, tt: seq<seq<T>>)
    ensures Flatten(ss + tt) == Flatten(ss) + Flatten(tt)
  {
    if tt == [] {
      assert ss + tt == ss;
    } else {
      var init, last := tt[..|tt| - 1], tt[|tt| - 1];
      assert ss + tt == (ss + init) + [last];
      FlattenSnoc(ss + init, last);
      FlattenAppend(ss, init);
    }
  }
}
