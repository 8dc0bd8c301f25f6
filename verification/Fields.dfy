/** Lists of (value, width) fields written one after the other, and what is read back. */
module Fields {
  import opened Bits
  import opened Bitstream
  import opened Bytes

  datatype Field = Field(value: nat, width: nat)

  /** The number in `n` bits from `pos`. */
  function At(bits: seq<bit>, pos: nat, n: nat): nat
    requires pos + n <= |bits|
  {
    FromBits(bits[pos..pos + n])
  }

  /** Where field `k` starts. */
  function Offset(fs: seq<Field>, k: nat): nat
    requires k <= |fs|
  {
    if k == 0 then 0 else Offset(fs, k - 1) + fs[k - 1].width
  }

  function FieldBits(fs: seq<Field>): (s: seq<bit>)
    ensures |s| == Offset(fs, |fs|)
  {
    if fs == [] then []
    else
      var n := |fs| - 1;
      OffsetPrefix(fs, n, n);
      FieldBits(fs[..n]) + ToBits(fs[n].value, fs[n].width)
  }

  lemma {:induction false} OffsetPrefix(fs: seq<Field>, n: nat, k: nat)
    requires k <= n <= |fs|
    ensures Offset(fs[..n], k) == Offset(fs, k)
  {
    if k > 0 { OffsetPrefix(fs, n, k - 1); }
  }

  lemma {:induction false} OffsetUp(fs: seq<Field>, k: nat, n: nat)
    requires k <= n <= |fs|
    ensures Offset(fs, k) <= Offset(fs, n)
  {
    if k < n { OffsetUp(fs, k, n - 1); }
  }

  /** A field's bits, wherever its list lies. */
  lemma {:induction false} FieldAt(before: seq<bit>, fs: seq<Field>, after: seq<bit>, k: nat)
    requires k < |fs|
    ensures var pos := |before| + Offset(fs, k);
            pos + fs[k].width <= |before + FieldBits(fs) + after|
            && At(before + FieldBits(fs) + after, pos, fs[k].width) == fs[k].value % Pow2(fs[k].width)
  {
    var n := |fs| - 1;
    var f := fs[n];
    var bits := before + FieldBits(fs) + after;
    OffsetPrefix(fs, n, n);
    OffsetPrefix(fs, n, k);
    var last := ToBits(f.value, f.width);
    assert FieldBits(fs) == FieldBits(fs[..n]) + last;
    hide FieldBits, ToBits, Offset;
    if k == n {
      BitsRoundTrip(f.value, f.width);
      assert bits == (before + FieldBits(fs[..n])) + last + after;
      Middle(before + FieldBits(fs[..n]), last, after);
    } else {
      hide At;
      FieldAt(before, fs[..n], last + after, k);
      assert bits == before + FieldBits(fs[..n]) + (last + after);
    }
  }

  lemma FieldBitsSnoc(fs: seq<Field>, f: Field)
    ensures FieldBits(fs + [f]) == FieldBits(fs) + ToBits(f.value, f.width)
  {
    assert (fs + [f])[..|fs|] == fs;
  }

  lemma {:induction false} FieldBitsAppend(a: seq<Field>, b: seq<Field>)
    ensures FieldBits(a + b) == FieldBits(a) + FieldBits(b)
  {
    if b == [] {
      assert a + b == a;
    } else {
      var n := |b| - 1;
      assert a + b == (a + b[..n]) + [b[n]];
      assert b == b[..n] + [b[n]];
      FieldBitsSnoc(a + b[..n], b[n]);
      FieldBitsSnoc(b[..n], b[n]);
      FieldBitsAppend(a, b[..n]);
    }
  }

  /** Writes the fields in order and completes the buffer. */
  method WriteAll(fields: seq<Field>, buf: array<byte>) returns (ghost rest: seq<bit>)
    requires Offset(fields, |fields|) <= 8 * buf.Length
    modifies buf
    ensures BytesBits(buf[..]) == FieldBits(fields) + rest
  {
    hide BytesBits, ToBits, Pow2, FromBits;
    var w := new BitStream(buf);
    NoBits(w.reg);
    NothingWritten();
    assert fields[..0] == [] && w.Written() == [];
    for i := 0 to |fields|
      invariant w.WriteValid() && w.buf == buf && fresh(w)
      invariant w.Written() == FieldBits(fields[..i])
    {
      OffsetPrefix(fields, i, i);
      OffsetPrefix(fields, i + 1, i + 1);
      OffsetUp(fields, i + 1, |fields|);
      assert fields[..i + 1] == fields[..i] + [fields[i]];
      FieldBitsSnoc(fields[..i], fields[i]);
      w.WriteBits(fields[i].value, fields[i].width);
    }
    assert fields[..|fields|] == fields;
    ghost var pad := Zeros(if w.regUsed > 0 then 8 - w.regUsed else 0);
    w.WriteBufferComplete();
    BytesBitsAppend(buf[..w.used], buf[w.used..]);
    assert buf[..] == buf[..w.used] + buf[w.used..];
    rest := pad + BytesBits(buf[w.used..]);
  }

  /** Reads fields of the same widths. */
  method ReadAll(buf: array<byte>, widths: seq<nat>, ghost fields: seq<Field>, ghost rest: seq<bit>)
    returns (values: seq<nat>)
    requires |widths| == |fields| && forall k :: 0 <= k < |fields| ==> widths[k] == fields[k].width
    requires BytesBits(buf[..]) == FieldBits(fields) + rest
    ensures |values| == |widths|
    ensures forall k :: 0 <= k < |fields| ==> values[k] == fields[k].value % Pow2(widths[k])
  {
    hide BytesBits, ToBits, Pow2, FromBits, FieldBits;
    var r := new BitStream(buf);
    values := [];
    ghost var all := r.AllBits();
    assert [] + FieldBits(fields) + rest == all;
    for i := 0 to |widths|
      invariant r.ReadValid() && r.buf == buf && fresh(r)
      invariant r.Position() == Offset(fields, i)
      invariant |values| == i
      invariant forall k :: 0 <= k < i ==> values[k] == fields[k].value % Pow2(widths[k])
    {
      FieldAt([], fields, rest, i);
      var v := r.ReadBits(widths[i]);
      values := values + [v];
    }
  }

  /**
   * Writing any list of fields that fits, completing the buffer, and reading the same widths
   * gives each value modulo two to the power of its width.
   */
  method WriteThenRead(fields: seq<Field>, buf: array<byte>) returns (values: seq<nat>)
    requires Offset(fields, |fields|) <= 8 * buf.Length
    modifies buf
    ensures |values| == |fields|
    ensures forall k :: 0 <= k < |fields| ==> values[k] == fields[k].value % Pow2(fields[k].width)
  {
    ghost var rest := WriteAll(fields, buf);
    var widths := seq(|fields|, i requires 0 <= i < |fields| => fields[i].width);
    values := ReadAll(buf, widths, fields, rest);
  }

  lemma NothingWritten()
    ensures BytesBits([]) == [] && FieldBits([]) == []
  {
  }
}
