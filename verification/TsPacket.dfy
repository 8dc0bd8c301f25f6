/**
 * Transport packets: the header accessors of src/libltntstools/ts.h and the
 * PCR field of src/ts.c. Bit masks and shifts are written as remainders and
 * quotients by powers of two.
 */
module TsPacket {
  import opened Bytes
  import opened Wrappers

  const PACKET_SIZE := 188
  const SYNC_BYTE: byte := 0x47

  /** Wrap of the 27 MHz clock: 2^33 * 300. */
  const MAX_SCR_VALUE := 2576980377600

  type Packet = p: Bytes | |p| == PACKET_SIZE witness seq(PACKET_SIZE, _ => 0)

  predicate SyncPresent(p: Packet) { p[0] == SYNC_BYTE }

  predicate Tei(p: Packet) { p[1] / 0x80 == 1 }

  predicate Pusi(p: Packet) { p[1] / 0x40 % 2 == 1 }

  function Pid(p: Packet): (pid: nat)
    ensures pid < 0x2000
  {
    p[1] as int % 0x20 * 0x100 + p[2]
  }

  function ScramblingControl(p: Packet): nat { p[3] / 0x40 }

  function AdaptionFieldControl(p: Packet): nat { p[3] / 0x10 % 4 }

  predicate HasAdaption(p: Packet) { AdaptionFieldControl(p) in {2, 3} }

  function AdaptionFieldLength(p: Packet): byte { p[4] }

  function ContinuityCounter(p: Packet): nat { p[3] % 0x10 }

  /** Adaptation only, no payload: the packets the extractor skips. */
  predicate AdaptionOnly(p: Packet) { AdaptionFieldControl(p) == 2 }

  /** Where the extractor starts reading payload. */
  function PayloadOffset(p: Packet): nat
  {
    if HasAdaption(p) then 5 + AdaptionFieldLength(p) else 4
  }

  /** The adaptation field, if there is one, ends inside the packet. */
  predicate AdaptionFits(p: Packet)
  {
    HasAdaption(p) ==> AdaptionFieldLength(p) <= 183
  }

  /** What follows the adaptation field. */
  function Payload(p: Packet): (r: Bytes)
    ensures |r| <= PACKET_SIZE - 4
  {
    if PayloadOffset(p) <= PACKET_SIZE then p[PayloadOffset(p)..] else []
  }

  /** Six PCR bytes: 33 bits of base, 6 reserved bits set to one, 9 bits of extension. */
  function PcrField(base: nat, ext: nat): (f: Bytes)
    ensures |f| == 6
  {
    [base / 0x200_0000 % 0x100,
     base / 0x2_0000 % 0x100,
     base / 0x200 % 0x100,
     base / 2 % 0x100,
     base % 2 * 0x80 + 0x7e + ext / 0x100 % 2,
     ext % 0x100]
  }

  /** 27 MHz value of six PCR bytes. */
  function PcrToScr(f: Bytes): nat
    requires |f| == 6
  {
    var base := f[0] as int * 0x200_0000 + f[1] as int * 0x2_0000 + f[2] as int * 0x200 + f[3] as int * 2
        + f[4] as int / 0x80;
    var ext := f[4] as int % 2 * 0x100 + f[5];
    base % 0x2_0000_0000 * 300 + ext
  }

  /** The PCR carried by a packet, if any. */
  function Scr(p: Packet): Option<nat>
  {
    if !SyncPresent(p) then None
    else if AdaptionFieldControl(p) < 2 then None
    else if AdaptionFieldLength(p) == 0 then None
    else if p[5] / 0x10 % 2 == 0 then None
    else Some(PcrToScr(p[6..12]))
  }

  lemma BaseBytes(base: nat)
    ensures base / 0x200_0000 % 0x100 * 0x200_0000 + base / 0x2_0000 % 0x100 * 0x2_0000
            + base / 0x200 % 0x100 * 0x200 + base / 2 % 0x100 * 2 + base % 2
            == base % 0x2_0000_0000
  {
    var b0, q1 := base % 2, base / 2;
    var d1, q2 := q1 % 0x100, q1 / 0x100;
    var d2, q3 := q2 % 0x100, q2 / 0x100;
    var d3, q4 := q3 % 0x100, q3 / 0x100;
    var d4, q5 := q4 % 0x100, q4 / 0x100;
    Quotient9(base, q2, d1 * 2 + b0);
    Quotient17(base, q3, d2 * 0x200 + d1 * 2 + b0);
    Quotient25(base, q4, d3 * 0x2_0000 + d2 * 0x200 + d1 * 2 + b0);
    Remainder33(base, q5, d4 * 0x200_0000 + d3 * 0x2_0000 + d2 * 0x200 + d1 * 2 + b0);
  }

  lemma Quotient9(n: nat, q: nat, r: nat)
    requires n == q * 0x200 + r && r < 0x200
    ensures n / 0x200 == q
  {
  }

  lemma Quotient17(n: nat, q: nat, r: nat)
    requires n == q * 0x2_0000 + r && r < 0x2_0000
    ensures n / 0x2_0000 == q
  {
  }

  lemma Quotient25(n: nat, q: nat, r: nat)
    requires n == q * 0x200_0000 + r && r < 0x200_0000
    ensures n / 0x200_0000 == q
  {
  }

  lemma Remainder33(n: nat, q: nat, r: nat)
    requires n == q * 0x2_0000_0000 + r && r < 0x2_0000_0000
    ensures n % 0x2_0000_0000 == r
  {
  }

  lemma ExtensionByte(low: nat, high: nat)
    requires low < 2 && high < 2
    ensures (low * 0x80 + 0x7e + high) / 0x80 == low && (low * 0x80 + 0x7e + high) % 2 == high
  {
  }

  lemma SplitByWrap(base: nat, ext: nat)
    requires ext < 300
    ensures (base * 300 + ext) % MAX_SCR_VALUE == base % 0x2_0000_0000 * 300 + ext
  {
    var wraps, low := base / 0x2_0000_0000, base % 0x2_0000_0000 * 300 + ext;
    assert base * 300 + ext == MAX_SCR_VALUE * wraps + low;
    RemainderIs(base * 300 + ext, wraps, low);
  }

  lemma RemainderIs(n: nat, q: nat, r: nat)
    requires n == MAX_SCR_VALUE * q + r && r < MAX_SCR_VALUE
    ensures n % MAX_SCR_VALUE == r
  {
  }

  /** Writing a PCR and reading it back gives the value modulo the clock's wrap. */
  lemma PcrRoundTrip(pcr: nat)
    ensures PcrToScr(PcrField(pcr / 300, pcr % 300)) == pcr % MAX_SCR_VALUE
  {
    var base, ext := pcr / 300, pcr % 300;
    FieldRoundTrip(base, ext);
    SplitByWrap(base, ext);
  }

  lemma FieldRoundTrip(base: nat, ext: nat)
    requires ext < 300
    ensures PcrToScr(PcrField(base, ext)) == base % 0x2_0000_0000 * 300 + ext
  {
    var f := PcrField(base, ext);
    ExtensionByte(base % 2, ext / 0x100 % 2);
    assert f[4] as int / 0x80 == base % 2;
    BaseBytes(base);
    assert f[0] as int * 0x200_0000 + f[1] as int * 0x2_0000 + f[2] as int * 0x200 + f[3] as int * 2 + base % 2
           == base % 0x2_0000_0000;
    assert f[4] as int % 2 * 0x100 + f[5] == ext;
  }

  // ---------------------------------------------------------------- packets in a buffer

  function Packets(buf: Bytes): nat
  {
    |buf| / PACKET_SIZE
  }

  function PacketAt(buf: Bytes, i: nat): Packet
    requires i < Packets(buf)
  {
    buf[PACKET_SIZE * i..PACKET_SIZE * i + PACKET_SIZE]
  }

  /** A packet of a buffer and a PCR that goes with it. */
  datatype PcrPosition = PcrPosition(pid: nat, offset: nat, pcr: int)
}
