/** The growing ring buffer, src/klringbuffer.c. */
module KLRingBuffer {
  import opened Bytes

  /** Position `n` of a buffer of `size` bytes that is walked round at most once. */
  function Wrap(n: nat, size: nat): (r: nat)
    requires n < 2 * size
    ensures r == if n < size then n else n - size
  {
    WrapIs(n, size);
    n % size
  }

  lemma WrapIs(n: nat, size: nat)
    requires n < 2 * size
    ensures n % size == if n < size then n else n - size
  {
    if n >= size { assert n == size + (n - size); }
  }

  /** `fill` bytes of `data` from `head`, walking round its end. */
  function View(data: Bytes, head: nat, fill: nat): (s: Bytes)
    requires head < |data| && fill <= |data|
    ensures |s| == fill
    ensures forall k :: 0 <= k < fill ==> s[k] == data[Wrap(head + k, |data|)]
  {
    if head + fill <= |data| then data[head..head + fill] else data[head..] + data[..head + fill - |data|]
  }

  /** Index `i` is one of the `fill` from `head`. */
  predicate Held(i: nat, head: nat, fill: nat, size: nat)
  {
    head <= i < head + fill || i + size < head + fill
  }

  /** The oldest `n` bytes, in one piece or two. */
  lemma ReadIs(data: Bytes, head: nat, fill: nat, n: nat)
    requires head < |data| && 0 < n <= fill <= |data|
    ensures var end := Wrap(head + n, |data|);
      View(data, head, fill)[..n]
      == if end <= head then data[head..] + data[..n - (|data| - head)] else data[head..head + n]
  {
  }

  /** Bytes stored behind a view, and nothing else touched, extend it. */
  lemma ViewExtends(before: Bytes, after: Bytes, head: nat, fill: nat, from: Bytes)
    requires |before| == |after| && head < |before| && fill + |from| <= |before|
    requires forall i :: 0 <= i < |after| && Held(i, head, fill, |after|) ==> after[i] == before[i]
    requires forall k :: 0 <= k < |from| ==> after[Wrap(head + fill + k, |after|)] == from[k]
    ensures View(after, head, fill + |from|) == View(before, head, fill) + from
  {
    hide View;
    forall k | 0 <= k < fill + |from|
      ensures View(after, head, fill + |from|)[k] == (View(before, head, fill) + from)[k]
    {
      if k >= fill {
        assert after[Wrap(head + fill + (k - fill), |after|)] == from[k - fill];
      } else {
        assert Held(Wrap(head + k, |after|), head, fill, |after|);
      }
    }
  }

  class RingBuffer {
    var data: array<byte>
    var size: nat
    const sizeInitial: nat
    const sizeMax: nat
    var head: nat
    var fill: nat

    ghost predicate Valid()
      reads this
    {
      && 0 < sizeInitial <= size <= sizeMax
      && data.Length == size
      && head < size
      && fill <= size
    }

    /** The bytes held, oldest first. */
    ghost function Contents(): (s: Bytes)
      requires Valid()
      reads this, data
      ensures |s| == fill
    {
      View(data[..], head, fill)
    }

    predicate Wrapped()
      reads this
    {
      head + fill > size
    }

    constructor (size: nat, sizeMax: nat)
      requires 0 < size <= sizeMax
      ensures Valid() && Contents() == [] && fresh(data)
      ensures this.sizeInitial == size && this.sizeMax == sizeMax && this.size == size && head == 0
    {
      this.data := new byte[size](_ => 0);
      this.size := size;
      this.sizeInitial := size;
      this.sizeMax := sizeMax;
      this.head, this.fill := 0, 0;
    }

    /** rb_new: nothing of no size, or of more than the limit. */
    static method New(size: nat, sizeMax: nat) returns (rb: RingBuffer?)
      ensures rb == null <==> size == 0 || size > sizeMax
      ensures rb != null ==> fresh(rb) && fresh(rb.data) && rb.Valid() && rb.Contents() == [] && rb.head == 0
      ensures rb != null ==> rb.sizeInitial == rb.size == size && rb.sizeMax == sizeMax
    {
      if size == 0 || size > sizeMax {
        return null;
      }
      rb := new RingBuffer(size, sizeMax);
    }

    method Empty()
      requires Valid()
      modifies this`head, this`fill
      ensures Valid() && Contents() == [] && head == 0
    {
      head, fill := 0, 0;
    }

    /** A larger allocation with the old bytes where they were; the rest of it is not initialised. */
    method Grow(increment: nat) returns (ok: bool)
      requires Valid()
      modifies this`data, this`size
      ensures Valid()
      ensures ok <==> old(size) + increment <= sizeMax
      ensures !ok ==> data == old(data) && size == old(size)
      ensures ok ==> size == old(size) + increment && fresh(data)
      ensures ok ==> data[..old(size)] == old(data[..])
      ensures !ok || !old(Wrapped()) ==> Contents() == old(Contents())
    {
      if size + increment > sizeMax {
        return false;
      }
      var bigger := new byte[size + increment];
      forall i | 0 <= i < size { bigger[i] := data[i]; }
      assert bigger[..size] == data[..];
      assert head + fill <= size ==> bigger[head..head + fill] == data[head..head + fill];
      data, size := bigger, size + increment;
      ok := true;
    }

    method ShrinkReset()
      requires Valid()
      modifies this`data, this`size, this`head, this`fill
      ensures Valid() && Contents() == [] && size == sizeInitial && head == 0 && fresh(data)
    {
      data := new byte[sizeInitial](_ => 0);
      size := sizeInitial;
      head, fill := 0, 0;
    }

    method AdvanceHead(bytes: nat)
      requires Valid() && bytes <= fill
      modifies this`head, this`fill
      ensures Valid() && Contents() == old(Contents())[bytes..]
    {
      hide Wrap;
      ghost var was := Contents();
      head := Wrap(head + bytes, size);
      fill := fill - bytes;
      assert Contents() == was[bytes..];
    }

    method Discard(bytes: nat)
      requires Valid() && bytes <= fill
      modifies this`head, this`fill
      ensures Valid() && Contents() == old(Contents())[bytes..]
    {
      AdvanceHead(bytes);
    }

    /** Copies `from` in behind the contents; there is room for it. */
    method Store(from: Bytes)
      requires Valid() && |from| < size && fill + |from| <= size
      modifies this`fill, data
      ensures Valid() && Contents() == old(Contents()) + from
    {
      hide Wrap, View;
      var bytes := |from|;
      var tail := Wrap(head + fill, size);
      var writeEnd := Wrap(head + fill + bytes, size);
      ghost var before := data[..];
      if tail <= writeEnd {
        forall i | tail <= i < tail + bytes { data[i] := from[i - tail]; }
      } else {
        var firstWrite := size - tail;
        forall i | tail <= i < size { data[i] := from[i - tail]; }
        var secondWrite := bytes - firstWrite;
        forall i | 0 <= i < secondWrite { data[i] := from[i + firstWrite]; }
      }
      ViewExtends(before, data[..], head, fill, from);
      fill := fill + bytes;
    }

    /** A write finds too little room and the allocation may not grow by 128 times its length. */
    predicate Overflows(bytes: nat)
      reads this
    {
      bytes > size - fill && size + bytes * 128 > sizeMax
    }

    predicate Grows(bytes: nat)
      reads this
    {
      bytes > size - fill && size + bytes * 128 <= sizeMax
    }

    /**
     * Appends. On overflow exactly |from| of the oldest bytes go. Growth keeps the contents unless
     * they are wrapped round the end of the old allocation.
     */
    method WriteWithState(from: Bytes) returns (didOverflow: bool)
      requires Valid() && |from| < size
      requires Overflows(|from|) ==> |from| <= fill
      modifies this`data, this`size, this`head, this`fill, data
      ensures Valid() && (data == old(data) || fresh(data))
      ensures didOverflow == old(Overflows(|from|))
      ensures size == old(size) + if old(Grows(|from|)) then |from| * 128 else 0
      ensures fill == if didOverflow then old(fill) else old(fill) + |from|
      ensures didOverflow ==> Contents() == old(Contents())[|from|..] + from
      ensures !didOverflow && !(old(Grows(|from|)) && old(Wrapped())) ==> Contents() == old(Contents()) + from
      ensures !didOverflow ==> head == old(head)
    {
      didOverflow := false;
      if |from| > size - fill {
        var grown := Grow(|from| * 128);
        if !grown {
          Discard(|from|);
          didOverflow := true;
        }
      }
      Store(from);
    }

    /** The oldest `n` bytes, in one copy or two. */
    method CopyOut(n: nat) returns (to: Bytes)
      requires Valid() && 0 < n <= fill
      ensures to == Contents()[..n]
    {
      hide Wrap, View;
      ReadIs(data[..], head, fill, n);
      var endRead := Wrap(head + n, size);
      if endRead <= head {
        var secondRead := n - (size - head);
        to := data[head..size] + data[..secondRead];
      } else {
        to := data[head..head + n];
      }
    }

    /** rb_read and rb_peek: up to `bytes` of the oldest bytes. */
    method Reader(bytes: nat, advanceReadHead: bool) returns (to: Bytes)
      requires Valid()
      modifies this`data, this`size, this`head, this`fill
      ensures Valid() && (data == old(data) || fresh(data))
      ensures to == old(Contents())[..if bytes <= old(fill) then bytes else old(fill)]
      ensures Contents() == if advanceReadHead then old(Contents())[|to|..] else old(Contents())
      ensures size == if advanceReadHead && fill == 0 && to != [] then sizeInitial else old(size)
      ensures !advanceReadHead ==> data == old(data) && head == old(head) && fill == old(fill)
    {
      hide Wrap, View;
      var n := if bytes > fill then fill else bytes;
      if n == 0 {
        return [];
      }
      to := CopyOut(n);
      if advanceReadHead {
        AdvanceHead(n);
      }
      if fill == 0 && size > sizeInitial {
        ShrinkReset();
      }
    }
  }
}
