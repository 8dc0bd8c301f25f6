/** The accessors of a transport packet against the syntax tables of sections 2.4.3.2 and 2.4.3.4 of ISO/IEC 13818-1. */
module TsSyntax {
  import opened Bits
  import opened Bytes
  import opened Fields
  import opened Packetizer
  import opened TsPacket
  import opened Wrappers

  // ---------------------------------------------------------------- reading bits

  /** The upper and the lower bits of a number. */
  lemma {:induction false} SplitBits(v: nat, a: nat, b: nat)
    ensures ToBits(v, a + b) == ToBits(Shifted(v, b), a) + ToBits(v, b)
  {
    if b > 0 {
      SplitBits(v / 2, a, b - 1);
    }
  }

  function Shifted(v: nat, i: nat): nat
  {
    if i == 0 then v else Shifted(v / 2, i - 1)
  }

  lemma {:induction false} ValueOfTwo(a: seq<bit>, b: seq<bit>)
    ensures FromBits(a + b) == FromBits(a) * Pow2(|b|) + FromBits(b)
  {
    if b == [] {
      assert a + b == a;
    } else {
      var init, last := b[..|b| - 1], b[|b| - 1];
      DoublePower(FromBits(a), |init|);
      hide FromBits, Pow2;
      assert a + b == (a + init) + [last] && b == init + [last];
      ValueOfTwo(a, init);
      FromBitsSnoc(a + init, last);
      FromBitsSnoc(init, last);
    }
  }

  lemma DoublePower(v: nat, n: nat)
    ensures v * Pow2(n + 1) == 2 * (v * Pow2(n))
  {
  }

  /** `n` bits and the `m` behind them. */
  lemma AtTwo(bits: seq<bit>, pos: nat, n: nat, m: nat)
    requires pos + n + m <= |bits|
    ensures At(bits, pos, n + m) == At(bits, pos, n) * Pow2(m) + At(bits, pos + n, m)
  {
    assert bits[pos..pos + n + m] == bits[pos..pos + n] + bits[pos + n..pos + n + m];
    ValueOfTwo(bits[pos..pos + n], bits[pos + n..pos + n + m]);
  }

  lemma SubSlice<T>(s: seq<T>, a: nat, n: nat, k: nat, w: nat)
    requires a + n <= |s| && k + w <= n
    ensures s[a..a + n][k..k + w] == s[a + k..a + k + w]
  {
    var x := s[a..a + n];
    var l, r := x[k..k + w], s[a + k..a + k + w];
    forall j | 0 <= j < w ensures l[j] == r[j] {
      assert l[j] == x[k + j] && x[k + j] == s[a + (k + j)];
    }
  }

  /** `w` bits of a byte from its bit `k`, the first being the highest. */
  lemma InByte(s: Bytes, i: nat, k: nat, w: nat)
    requires i < |s| && k + w <= 8
    ensures At(BytesBits(s), 8 * i + k, w) == Shifted(s[i], 8 - k - w) % Pow2(w)
  {
    hide BytesBits, ToBits, FromBits, Pow2, Shifted;
    var r, bits := 8 - k - w, ToBits(s[i], 8);
    BitsOfByteAt(s, i);
    SplitBits(s[i], k + w, r);
    SplitBits(Shifted(s[i], r), k, w);
    Middle(ToBits(Shifted(Shifted(s[i], r), w), k), ToBits(Shifted(s[i], r), w), ToBits(s[i], r));
    assert bits == ToBits(Shifted(Shifted(s[i], r), w), k) + ToBits(Shifted(s[i], r), w) + ToBits(s[i], r);
    SubSlice(BytesBits(s), 8 * i, 8, k, w);
    BitsRoundTrip(Shifted(s[i], r), w);
  }

  lemma {:induction false} ShiftTwice(v: nat, i: nat, j: nat)
    ensures Shifted(v, i + j) == Shifted(Shifted(v, i), j)
  {
    if i > 0 {
      ShiftTwice(v / 2, i - 1, j);
    }
  }

  lemma UpToThree(v: nat)
    ensures Shifted(v, 0) == v && Shifted(v, 1) == v / 2 && Shifted(v, 2) == v / 2 / 2 && Shifted(v, 3) == v / 2 / 2 / 2
  {
  }

  lemma ShiftedIs(v: byte)
    ensures Shifted(v, 0) == v && Shifted(v, 1) == v / 2 && Shifted(v, 4) == v / 0x10
    ensures Shifted(v, 5) == v / 0x20 && Shifted(v, 6) == v / 0x40 && Shifted(v, 7) == v / 0x80
  {
    var d := v / 2 / 2 / 2 / 2;
    assert Shifted(v, 4) == Shifted(v / 2, 3) == Shifted(v / 2 / 2, 2) == Shifted(v / 2 / 2 / 2, 1) == Shifted(d,
        0) == d;
    ShiftTwice(v, 4, 1);
    ShiftTwice(v, 4, 2);
    ShiftTwice(v, 4, 3);
    UpToThree(d);
    UpToThree(v);
  }

  lemma Powers()
    ensures Pow2(1) == 2 && Pow2(2) == 4 && Pow2(4) == 0x10 && Pow2(5) == 0x20 && Pow2(6) == 0x40 && Pow2(8) == 0x100
  {
    assert Pow2(3) == 8;
  }

  /** The bits of one byte, alone and in the groups that the tables have. */
  lemma OctetBits(s: Bytes, i: nat)
    requires i < |s|
    ensures var b, v, k := BytesBits(s), s[i] as int, 8 * i;
      && At(b, k, 8) == v && At(b, k, 1) == v / 0x80 && At(b, k + 1, 1) == v / 0x40 % 2
      && At(b, k + 2, 1) == v / 0x20 % 2 && At(b, k + 3, 1) == v / 0x10 % 2 && At(b, k + 7, 1) == v % 2
      && At(b, k, 2) == v / 0x40 && At(b, k + 2, 2) == v / 0x10 % 4 && At(b, k + 4, 4) == v % 0x10
      && At(b, k + 3, 5) == v % 0x20 && At(b, k + 1, 6) == v / 2 % 0x40
  {
    hide BytesBits, At, Pow2, Shifted;
    Powers();
    ShiftedIs(s[i]);
    InByte(s, i, 0, 8);
    InByte(s, i, 0, 1);
    InByte(s, i, 1, 1);
    InByte(s, i, 2, 1);
    InByte(s, i, 3, 1);
    InByte(s, i, 7, 1);
    InByte(s, i, 0, 2);
    InByte(s, i, 2, 2);
    InByte(s, i, 4, 4);
    InByte(s, i, 3, 5);
    InByte(s, i, 1, 6);
  }

  // ---------------------------------------------------------------- the header

  /** Bit by bit: sync byte 8, error 1, start 1, priority 1, PID 13, scrambling 2, adaptation 2, counter 4. */
  ghost predicate HeaderSyntax(p: Packet)
  {
    var b := BytesBits(p);
    && (SyncPresent(p) <==> At(b, 0, 8) == 0x47)
    && (Tei(p) <==> At(b, 8, 1) == 1)
    && (Pusi(p) <==> At(b, 9, 1) == 1)
    && Pid(p) == At(b, 11, 13)
    && ScramblingControl(p) == At(b, 24, 2)
    && AdaptionFieldControl(p) == At(b, 26, 2)
    && ContinuityCounter(p) == At(b, 28, 4)
    && (HasAdaption(p) <==> At(b, 26, 1) == 1)
    && (AdaptionOnly(p) <==> At(b, 26, 2) == 2)
  }

  lemma HeaderByTable(p: Packet)
    ensures HeaderSyntax(p)
  {
    hide BytesBits, At;
    OctetBits(p, 0);
    OctetBits(p, 1);
    OctetBits(p, 3);
    PidBits(p);
    ControlBits(p);
  }

  lemma PidBits(p: Packet)
    ensures Pid(p) == At(BytesBits(p), 11, 13)
  {
    hide BytesBits, At, Pow2;
    EightPower();
    OctetBits(p, 1);
    OctetBits(p, 2);
    AtTwo(BytesBits(p), 11, 5, 8);
  }

  lemma ControlBits(p: Packet)
    ensures AdaptionFieldControl(p) == At(BytesBits(p), 26, 2) && ContinuityCounter(p) == At(BytesBits(p), 28, 4)
    ensures HasAdaption(p) <==> At(BytesBits(p), 26, 1) == 1
  {
    hide BytesBits, At;
    OctetBits(p, 3);
    TopOfTwo(p[3]);
  }

  lemma TopOfTwo(v: byte)
    ensures v / 0x20 % 2 == v / 0x10 % 4 / 2
  {
  }

  lemma EightPower()
    ensures Pow2(8) == 0x100 && Pow2(1) == 2
  {
    Powers();
  }

  /** Payload begins behind the four bytes, or behind the adaptation field of its own length. */
  lemma PayloadByTable(p: Packet)
    ensures var b := BytesBits(p); PayloadOffset(p) == if At(b, 26, 1) == 1 then 4 + 1 + At(b, 32, 8) else 4
    ensures AdaptionFits(p) ==> PayloadOffset(p) <= PACKET_SIZE && Payload(p) == p[PayloadOffset(p)..]
  {
    hide BytesBits, At, AdaptionFieldControl;
    ControlBits(p);
    OctetBits(p, 4);
  }

  // ---------------------------------------------------------------- the adaptation field

  /** Length 8; then discontinuity 1, random access 1, priority 1, PCR flag 1, and four more flags. */
  lemma FlagsByTable(p: Packet)
    requires At(BytesBits(p), 26, 1) == 1 && At(BytesBits(p), 32, 8) > 0
    ensures var b := BytesBits(p);
      && (RandomAccess(p) <==> At(b, 41, 1) == 1)
      && (Priority(p) <==> At(b, 42, 1) == 1)
      && (CarriesPcr(p) <==> At(b, 43, 1) == 1)
  {
    hide BytesBits, At, HasAdaption;
    ControlBits(p);
    OctetBits(p, 4);
    OctetBits(p, 5);
  }

  /** A PCR: 33 bits of base, 6 reserved, 9 of extension; base times 300 and extension. */
  lemma PcrByTable(p: Packet)
    ensures var b := BytesBits(p);
      Scr(p) == if At(b, 0, 8) == 0x47 && At(b, 26, 1) == 1 && At(b, 32, 8) > 0 && At(b, 43, 1) == 1
                then Some(At(b, 48, 33) * 300 + At(b, 87, 9)) else None
  {
    hide BytesBits, At, PcrToScr;
    PcrBits(p);
    OctetBits(p, 0);
    ControlBits(p);
    OctetBits(p, 4);
    OctetBits(p, 5);
  }

  lemma PcrBits(p: Packet)
    ensures var b := BytesBits(p); PcrToScr(p[6..12]) == At(b, 48, 33) * 300 + At(b, 87, 9)
  {
    hide BytesBits, At;
    BaseBits(p, 6);
    BaseInRange(p);
    var f := p[6..12];
    assert f[0] == p[6] && f[1] == p[7] && f[2] == p[8] && f[3] == p[9] && f[4] == p[10] && f[5] == p[11];
  }

  lemma BaseInRange(p: Packet)
    ensures p[6] as int * 0x200_0000 + p[7] as int * 0x2_0000 + p[8] as int * 0x200 + p[9] as int * 2
        + p[10] as int / 0x80
            < 0x2_0000_0000
  {
  }

  lemma BaseBits(s: Bytes, i: nat)
    requires i + 6 <= |s|
    ensures var b := BytesBits(s);
      && At(b, 8 * i, 33) == s[i] as int * 0x200_0000 + s[i + 1] as int * 0x2_0000 + s[i + 2] as int * 0x200
                             + s[i + 3] as int * 2 + s[i + 4] as int / 0x80
      && At(b, 8 * i + 33, 6) == s[i + 4] as int / 2 % 0x40
      && At(b, 8 * i + 39, 9) == s[i + 4] as int % 2 * 0x100 + s[i + 5]
  {
    hide BytesBits, At, Pow2;
    var b := BytesBits(s);
    EightPower();
    OctetBits(s, i);
    OctetBits(s, i + 1);
    OctetBits(s, i + 2);
    OctetBits(s, i + 3);
    OctetBits(s, i + 4);
    OctetBits(s, i + 5);
    AtTwo(b, 8 * i, 8, 8);
    AtTwo(b, 8 * i, 16, 8);
    AtTwo(b, 8 * i, 24, 8);
    AtTwo(b, 8 * i, 32, 1);
    AtTwo(b, 8 * i + 39, 1, 8);
  }

  /** The six bytes written for a PCR: base and extension in their bits, the reserved ones set. */
  lemma FieldByTable(base: nat, ext: nat)
    requires ext < 0x200
    ensures var b := BytesBits(PcrField(base, ext));
      At(b, 0, 33) == base % 0x2_0000_0000 && At(b, 33, 6) == 0x3f && At(b, 39, 9) == ext
  {
    hide BytesBits, At;
    var f := PcrField(base, ext);
    BaseBits(f, 0);
    ExtensionByte(base % 2, ext / 0x100);
    BaseBytes(base);
    assert f[4] as int == base % 2 * 0x80 + 0x7e + ext / 0x100;
    assert (base % 2 * 0x80 + 0x7e + ext / 0x100) / 2 % 0x40 == 0x3f;
  }
}
