/** Cutting a PES into transport packets: src/ts_packetizer.c. */
module Packetizer {
  import opened Bytes
  import opened CArith
  import opened TsPacket
  import opened Wrappers

  const UINT64_RANGE := 0x1_0000_0000_0000_0000

  // ---------------------------------------------------------------- specification

  /** Room left for payload in the first packet. */
  function FirstCapacity(pcr: int, rai: bool, priority: bool): nat
  {
    if pcr != -1 then 176 else if rai || priority then 182 else 184
  }

  /** How many packets `n` bytes take when the first one holds `first` bytes and the rest 184. */
  function PacketCount(n: nat, first: nat): nat
  {
    if n <= first then 1 else 1 + (n - first + 183) / 184
  }

  /** What packet `i` carries of `n` bytes: all it has room for, or what is left. */
  function PieceSize(n: nat, first: nat, i: nat): nat
  {
    var start := if i == 0 then 0 else first + 184 * (i - 1);
    var room := if i == 0 then first else 184;
    if n < start then 0 else if n - start < room then n - start else room
  }

  function AdaptionFlags(p: Packet): byte
  {
    if HasAdaption(p) && AdaptionFieldLength(p) > 0 then p[5] else 0
  }

  predicate RandomAccess(p: Packet) { AdaptionFlags(p) / 0x40 % 2 == 1 }

  predicate Priority(p: Packet) { AdaptionFlags(p) / 0x20 % 2 == 1 }

  predicate CarriesPcr(p: Packet) { AdaptionFlags(p) / 0x10 % 2 == 1 }

  /** First stuffing byte: after the PCR, the flags byte, the length byte or the header. */
  function StuffingStart(p: Packet): nat
  {
    if CarriesPcr(p) then 12
    else if HasAdaption(p) && AdaptionFieldLength(p) > 0 then 6
    else if HasAdaption(p) then 5
    else 4
  }

  /** A clean payload-bearing packet of `pid`, its stuffing all ones. */
  predicate CleanPacket(p: Packet, pid: nat, cc: nat, first: bool)
  {
    && SyncPresent(p) && !Tei(p) && ScramblingControl(p) == 0
    && Pid(p) == pid
    && ContinuityCounter(p) == cc % 16
    && (Pusi(p) <==> first)
    && AdaptionFieldControl(p) in {1, 3}
    && AdaptionFits(p)
    && StuffingStart(p) <= PayloadOffset(p)
    && Payload(p) != []
    && (forall i :: StuffingStart(p) <= i < PayloadOffset(p) ==> p[i] == 0xff)
  }

  /** The payloads of `pkts`, end to end. */
  function PayloadBytes(pkts: seq<Packet>): Bytes
  {
    if pkts == [] then [] else PayloadBytes(pkts[..|pkts| - 1]) + Payload(pkts[|pkts| - 1])
  }

  predicate PcrIs(p: Packet, pcr: int)
  {
    && (pcr == -1 ==> Scr(p) == None)
    && (pcr >= 0 ==> Scr(p) == Some(pcr % MAX_SCR_VALUE))
  }

  /** The indicators and the PCR asked for, on the first packet and on no other. */
  predicate FirstOnly(p: Packet, first: bool, pcr: int, rai: bool, priority: bool)
  {
    && (RandomAccess(p) <==> first && rai)
    && (Priority(p) <==> first && priority)
    && PcrIs(p, if first then pcr else -1)
  }

  /** What a packetization of `buf` on `pid`, from counter `cc`, has to be. */
  ghost predicate IsPacketization(pkts: seq<Packet>, buf: Bytes, pid: nat, cc: nat,
                                  pcr: int, rai: bool, priority: bool)
  {
    && pkts != []
    && (forall i :: 0 <= i < |pkts| ==> CleanPacket(pkts[i], pid, cc + i, i == 0))
    && (forall i :: 0 <= i < |pkts| ==> FirstOnly(pkts[i], i == 0, pcr, rai, priority))
    && (forall i :: 0 <= i < |pkts| - 1 ==> StuffingStart(pkts[i]) == PayloadOffset(pkts[i]))
    && PayloadBytes(pkts) == buf
  }

  function PacketIn(data: Bytes, i: nat): Packet
    requires (i + 1) * PACKET_SIZE <= |data|
  {
    data[i * PACKET_SIZE..(i + 1) * PACKET_SIZE]
  }

  /** The first `n` packets of a buffer. */
  function PacketsOf(data: Bytes, n: nat): (pkts: seq<Packet>)
    requires n * PACKET_SIZE <= |data|
    ensures |pkts| == n
  {
    if n == 0 then [] else PacketsOf(data, n - 1) + [PacketIn(data, n - 1)]
  }

  lemma {:induction false} PacketsOfPrefix(before: Bytes, after: Bytes, n: nat)
    requires n * PACKET_SIZE <= |before| && n * PACKET_SIZE <= |after|
    requires after[..n * PACKET_SIZE] == before[..n * PACKET_SIZE]
    ensures PacketsOf(after, n) == PacketsOf(before, n)
  {
    if n > 0 {
      var k := n * PACKET_SIZE;
      var j := (n - 1) * PACKET_SIZE;
      assert after[..j] == after[..k][..j] && before[..j] == before[..k][..j];
      assert PacketIn(after, n - 1) == after[..k][j..k] && PacketIn(before, n - 1) == before[..k][j..k];
      PacketsOfPrefix(before, after, n - 1);
    }
  }

  // ---------------------------------------------------------------- the code

  lemma HeaderBytes(pid: nat, start: bool, control: nat, cc: nat)
    requires pid <= 0x1fff && control in {0x10, 0x30}
    ensures var b1 := pid / 0x100 + if start then 0x40 else 0;
            && b1 / 0x80 == 0 && (b1 / 0x40 % 2 == 1 <==> start) && b1 % 0x20 == pid / 0x100
    ensures var b3 := cc % 0x10 + control;
            && b3 / 0x40 == 0 && b3 / 0x10 % 4 == control / 0x10 && b3 % 0x10 == cc % 0x10
  {
  }

  function FlagsByte(first: bool, pcr: int, rai: bool, priority: bool): byte
  {
    (if first && pcr != -1 then 0x10 else 0) + (if first && rai then 0x40 else 0)
    + (if first && priority then 0x20 else 0)
  }

  /** The bytes in front of the payload. */
  predicate IsHeader(header: Bytes, pid: nat, cc: nat, first: bool, pcr: int, rai: bool, priority: bool)
  {
    && |header| >= (if first then PACKET_SIZE - FirstCapacity(pcr, rai, priority) else 4)
    && header[0] == SYNC_BYTE
    && header[1] == pid / 0x100 + (if first then 0x40 else 0)
    && header[2] == pid % 0x100
    && header[3] == cc % 0x10 + (if |header| == 4 then 0x10 else 0x30)
    && (|header| > 4 ==> header[4] == |header| - 5)
    && (|header| > 5 ==> header[5] == FlagsByte(first, pcr, rai, priority))
    && (first && pcr != -1 ==> header[6..12] == SourcePcrField(pcr))
    && (forall i :: (if first && pcr != -1 then 12 else 6) <= i < |header| ==> header[i] == 0xff)
  }

  /** The PCR bytes as the code computes them, in unsigned 64-bit arithmetic. */
  function SourcePcrField(pcr: int): (f: Bytes)
    ensures |f| == 6
  {
    PcrField(CDiv(pcr, 300) % UINT64_RANGE, CRem(pcr, 300) % UINT64_RANGE)
  }

  /** IsHeader, of the bytes of `arr` from `at`. */
  ghost predicate HeaderAt(arr: array<byte>, at: nat, len: nat, pid: nat, cc: nat,
                           first: bool, pcr: int, rai: bool, priority: bool)
    requires at + PACKET_SIZE <= arr.Length
    requires 4 <= len <= PACKET_SIZE
    reads arr
  {
    && len >= (if first then PACKET_SIZE - FirstCapacity(pcr, rai, priority) else 4)
    && arr[at] == SYNC_BYTE
    && arr[at + 1] == pid / 0x100 + (if first then 0x40 else 0)
    && arr[at + 2] == pid % 0x100
    && arr[at + 3] == cc % 0x10 + (if len == 4 then 0x10 else 0x30)
    && (len > 4 ==> arr[at + 4] == len - 5)
    && (len > 5 ==> arr[at + 5] == FlagsByte(first, pcr, rai, priority))
    && (first && pcr != -1 ==> arr[at + 6..at + 12] == SourcePcrField(pcr))
    && (forall i :: at + (if first && pcr != -1 then 12 else 6) <= i < at + len ==> arr[i] == 0xff)
  }

  /** A packet made of such a header and its payload is what was asked for. */
  lemma WellMade(p: Packet, header: Bytes, payload: Bytes, pid: nat, cc: nat,
                 first: bool, pcr: int, rai: bool, priority: bool)
    requires p == header + payload && payload != []
    requires pid <= 0x1fff
    requires IsHeader(header, pid, cc, first, pcr, rai, priority)
    ensures CleanPacket(p, pid, cc, first)
    ensures FirstOnly(p, first, pcr, rai, priority)
    ensures Payload(p) == payload
    ensures StuffingStart(p) == if |header| <= 5 then |header| else if first && pcr != -1 then 12 else 6
  {
    HeaderBytes(pid, first, if |header| == 4 then 0x10 else 0x30, cc);
    assert p[..|header|] == header && p[|header|..] == payload;
    assert p[0] == header[0] && p[1] == header[1] && p[2] == header[2] && p[3] == header[3];
    if first && pcr >= 0 {
      assert p[6..12] == header[6..12];
      PcrModulo(pcr);
    }
  }

  lemma KeepsLowBits(base: nat)
    ensures base % UINT64_RANGE % 0x2_0000_0000 == base % 0x2_0000_0000
  {
    var q := base / UINT64_RANGE;
    assert base == q * UINT64_RANGE + base % UINT64_RANGE;
    assert base == (q * 0x8000_0000) * 0x2_0000_0000 + base % UINT64_RANGE;
  }

  /** 64-bit arithmetic on the base does not reach the 33 bits that are kept. */
  lemma PcrModulo(pcr: nat)
    ensures PcrToScr(SourcePcrField(pcr)) == pcr % MAX_SCR_VALUE
  {
    var base, ext := pcr / 300, pcr % 300;
    assert CDiv(pcr, 300) == base && CRem(pcr, 300) == ext && ext % UINT64_RANGE == ext;
    KeepsLowBits(base);
    FieldRoundTrip(base % UINT64_RANGE, ext);
    FieldRoundTrip(base, ext);
    PcrRoundTrip(pcr);
  }

  /** Copies `s` to `arr` at `at`. */
  method WriteBytes(arr: array<byte>, at: nat, s: Bytes)
    requires at + |s| <= arr.Length
    modifies arr
    ensures arr[at..at + |s|] == s
    ensures forall i :: 0 <= i < arr.Length && !(at <= i < at + |s|) ==> arr[i] == old(arr[i])
  {
    forall i | at <= i < at + |s| { arr[i] := s[i - at]; }
  }

  /** Four header bytes and 184 bytes of stuffing. */
  ghost predicate Prepared(arr: array<byte>, at: nat, pid: nat, cc: nat, first: bool)
    requires at + PACKET_SIZE <= arr.Length
    reads arr
  {
    && arr[at] == SYNC_BYTE
    && arr[at + 1] == pid / 0x100 + (if first then 0x40 else 0)
    && arr[at + 2] == pid % 0x100
    && arr[at + 3] == cc % 0x10
    && (forall i :: at + 4 <= i < at + PACKET_SIZE ==> arr[i] == 0xff)
  }

  function Taken(rem: nat, room: nat): nat
  {
    if rem >= room then room else rem
  }

  /** First packet, with a PCR. The stuffing is already in place. */
  method AddPcr(arr: array<byte>, at: nat, rem: nat, ghost pid: nat, ghost cc: nat,
                afFlags: byte, pcr: int, ghost rai: bool, ghost priority: bool)
    returns (cpy: nat, payloadOffset: nat)
    requires at + PACKET_SIZE <= arr.Length && rem > 0
    requires Prepared(arr, at, pid, cc, true)
    requires pcr != -1 && afFlags == FlagsByte(true, pcr, rai, priority)
    modifies arr
    ensures forall i :: 0 <= i < arr.Length && !(at <= i < at + PACKET_SIZE) ==> arr[i] == old(arr[i])
    ensures cpy == Taken(rem, 176) && payloadOffset + cpy == PACKET_SIZE
    ensures HeaderAt(arr, at, payloadOffset, pid, cc, true, pcr, rai, priority)
  {
    arr[at + 3] := arr[at + 3] + 0x30;
    if rem >= 176 {
      arr[at + 4] := 7;
      arr[at + 5] := afFlags;
      cpy := 176;
      payloadOffset := 12;
    } else {
      arr[at + 4] := 183 - rem;
      arr[at + 5] := afFlags;
      cpy := rem;
      payloadOffset := 4 + 1 + (183 - rem);
    }
    WriteBytes(arr, at + 6, SourcePcrField(pcr));
  }

  /** First packet, no PCR, but indicators. */
  method AddIndicators(arr: array<byte>, at: nat, rem: nat, ghost pid: nat, ghost cc: nat,
                       afFlags: byte, ghost rai: bool, ghost priority: bool)
    returns (cpy: nat, payloadOffset: nat)
    requires at + PACKET_SIZE <= arr.Length && rem > 0
    requires Prepared(arr, at, pid, cc, true)
    requires (rai || priority) && afFlags == FlagsByte(true, -1, rai, priority)
    modifies arr
    ensures forall i :: 0 <= i < arr.Length && !(at <= i < at + PACKET_SIZE) ==> arr[i] == old(arr[i])
    ensures cpy == Taken(rem, 182) && payloadOffset + cpy == PACKET_SIZE
    ensures HeaderAt(arr, at, payloadOffset, pid, cc, true, -1, rai, priority)
  {
    arr[at + 3] := arr[at + 3] + 0x30;
    if rem >= 182 {
      arr[at + 4] := 1;
      arr[at + 5] := afFlags;
      cpy := 182;
      payloadOffset := 6;
    } else {
      arr[at + 4] := 183 - rem;
      arr[at + 5] := afFlags;
      cpy := rem;
      payloadOffset := 4 + 1 + (183 - rem);
    }
  }

  /** Any other packet: payload only, or stuffing without flags. */
  method AddPlain(arr: array<byte>, at: nat, rem: nat, ghost pid: nat, ghost cc: nat, ghost first: bool,
                  ghost pcr: int, ghost rai: bool, ghost priority: bool)
    returns (cpy: nat, payloadOffset: nat)
    requires at + PACKET_SIZE <= arr.Length && rem > 0
    requires Prepared(arr, at, pid, cc, first)
    requires first ==> pcr == -1 && !rai && !priority
    modifies arr
    ensures forall i :: 0 <= i < arr.Length && !(at <= i < at + PACKET_SIZE) ==> arr[i] == old(arr[i])
    ensures cpy == Taken(rem, 184) && payloadOffset + cpy == PACKET_SIZE
    ensures HeaderAt(arr, at, payloadOffset, pid, cc, first, pcr, rai, priority)
  {
    if rem >= 184 {
      arr[at + 3] := arr[at + 3] + 0x10;
      cpy := 184;
      payloadOffset := 4;
    } else {
      arr[at + 3] := arr[at + 3] + 0x30;
      arr[at + 4] := 183 - rem;
      cpy := rem;
      payloadOffset := 4 + 1 + (183 - rem);
      if 183 - rem > 0 {
        arr[at + 5] := 0x00;
      }
    }
  }

  /** The header and adaptation field: how much payload fits behind them, and where it goes. */
  method WriteHeader(arr: array<byte>, at: nat, rem: nat, cc: byte, pid: nat,
                     firstPacket: bool, pcr: int, rai: bool, priority: bool)
    returns (cpy: nat, payloadOffset: nat)
    requires at + PACKET_SIZE <= arr.Length
    requires rem > 0 && pid <= 0x1fff
    modifies arr
    ensures forall i :: 0 <= i < arr.Length && !(at <= i < at + PACKET_SIZE) ==> arr[i] == old(arr[i])
    ensures cpy == Taken(rem, if firstPacket then FirstCapacity(pcr, rai, priority) else 184)
    ensures payloadOffset + cpy == PACKET_SIZE
    ensures HeaderAt(arr, at, payloadOffset, pid, cc, firstPacket, pcr, rai, priority)
  {
    forall i | at <= i < at + PACKET_SIZE { arr[i] := 0xff; }

    var needPCR := pcr != -1 && firstPacket;
    var needIndicators := firstPacket && (rai || priority);
    var afFlags: byte := (if needPCR then 0x10 else 0)
                         + (if firstPacket && rai then 0x40 else 0)
                         + (if firstPacket && priority then 0x20 else 0);

    arr[at] := SYNC_BYTE;
    arr[at + 1] := pid / 0x100 + if firstPacket then 0x40 else 0;
    arr[at + 2] := pid % 0x100;
    arr[at + 3] := cc % 0x10;

    if needPCR {
      cpy, payloadOffset := AddPcr(arr, at, rem, pid, cc, afFlags, pcr, rai, priority);
    } else if needIndicators {
      cpy, payloadOffset := AddIndicators(arr, at, rem, pid, cc, afFlags, rai, priority);
    } else {
      cpy, payloadOffset := AddPlain(arr, at, rem, pid, cc, firstPacket, pcr, rai, priority);
    }
  }

  /** One turn of the loop: fills the packet at `at` and says how much of `buf` it took. */
  method WritePacket(arr: array<byte>, at: nat, buf: Bytes, pos: nat, cc: byte, pid: nat,
                     firstPacket: bool, pcr: int, rai: bool, priority: bool)
    returns (cpy: nat)
    requires at + PACKET_SIZE <= arr.Length
    requires pos < |buf|
    requires pid <= 0x1fff
    modifies arr
    ensures forall i :: 0 <= i < arr.Length && !(at <= i < at + PACKET_SIZE) ==> arr[i] == old(arr[i])
    ensures cpy == Taken(|buf| - pos, if firstPacket then FirstCapacity(pcr, rai, priority) else 184)
    ensures var p: Packet := arr[at..at + PACKET_SIZE];
            && CleanPacket(p, pid, cc, firstPacket)
            && FirstOnly(p, firstPacket, pcr, rai, priority)
            && Payload(p) == buf[pos..pos + cpy]
            && var room := if firstPacket then FirstCapacity(pcr, rai, priority) else 184;
               cpy == room ==> StuffingStart(p) == PayloadOffset(p)
  {
    var payloadOffset;
    cpy, payloadOffset := WriteHeader(arr, at, |buf| - pos, cc, pid, firstPacket, pcr, rai, priority);
    var to := at + payloadOffset;
    ghost var header := arr[at..to];
    if |header| >= 12 {
      assert forall i :: 6 <= i < 12 ==> header[i] == arr[at + i];
      assert header[6..12] == arr[at + 6..at + 12];
    }
    WriteBytes(arr, to, buf[pos..pos + cpy]);
    ghost var p := arr[at..at + PACKET_SIZE];
    assert p == header + buf[pos..pos + cpy] by {
      assert arr[at..to] == header;
      assert arr[to..to + cpy] == buf[pos..pos + cpy];
    }
    WellMade(p, header, buf[pos..pos + cpy], pid, cc, firstPacket, pcr, rai, priority);
  }

  /** No packet of `pkts` holds stuffing. */
  ghost predicate AllFull(pkts: seq<Packet>)
  {
    forall i :: 0 <= i < |pkts| ==> StuffingStart(pkts[i]) == PayloadOffset(pkts[i])
  }

  /** What holds of the packets written while `pos` bytes of `buf` are gone. */
  ghost predicate Progress(pkts: seq<Packet>, buf: Bytes, pos: nat, pid: nat, cc: nat,
                           pcr: int, rai: bool, priority: bool)
  {
    && pos <= |buf|
    && (pkts == [] ==> pos == 0)
    && (pkts != [] ==> IsPacketization(pkts, buf[..pos], pid, cc, pcr, rai, priority))
    && (pos < |buf| ==> AllFull(pkts))
    && var first := FirstCapacity(pcr, rai, priority);
       && (forall i :: 0 <= i < |pkts| ==> |Payload(pkts[i])| == PieceSize(|buf|, first, i))
       && (pos < |buf| && pkts != [] ==> pos == first + 184 * (|pkts| - 1))
       && (pos == |buf| && pkts != [] ==> |pkts| == PacketCount(|buf|, first))
  }

  lemma ProgressStep(pkts: seq<Packet>, p: Packet, buf: Bytes, pos: nat, cpy: nat, pid: nat, cc: nat,
                     pcr: int, rai: bool, priority: bool)
    requires Progress(pkts, buf, pos, pid, cc, pcr, rai, priority) && pos < |buf|
    requires CleanPacket(p, pid, cc + |pkts|, pkts == [])
    requires FirstOnly(p, pkts == [], pcr, rai, priority)
    requires var room := if pkts == [] then FirstCapacity(pcr, rai, priority) else 184;
             && cpy == Taken(|buf| - pos, room)
             && (cpy == room ==> StuffingStart(p) == PayloadOffset(p))
    requires Payload(p) == buf[pos..pos + cpy]
    ensures Progress(pkts + [p], buf, pos + cpy, pid, cc, pcr, rai, priority)
  {
    hide CleanPacket, FirstOnly, StuffingStart, PayloadOffset, Payload;
    var all := pkts + [p];
    assert all[..|pkts|] == pkts;
    forall i | 0 <= i < |all|
      ensures CleanPacket(all[i], pid, cc + i, i == 0) && FirstOnly(all[i], i == 0, pcr, rai, priority)
    {
      if i < |pkts| { assert all[i] == pkts[i]; }
    }
    assert buf[..pos] + buf[pos..pos + cpy] == buf[..pos + cpy];
    assert PayloadBytes(all) == buf[..pos + cpy];
    assert forall i :: 0 <= i < |all| - 1 ==> StuffingStart(all[i]) == PayloadOffset(all[i]);
    assert IsPacketization(all, buf[..pos + cpy], pid, cc, pcr, rai, priority);
    assert pos + cpy < |buf| ==> AllFull(all);
    var first := FirstCapacity(pcr, rai, priority);
    assert |Payload(p)| == PieceSize(|buf|, first, |pkts|);
    assert pos + cpy < |buf| ==> pos + cpy == first + 184 * (|all| - 1);
    assert pos + cpy == |buf| ==> |all| == PacketCount(|buf|, first);
  }

  lemma ProgressStart(buf: Bytes, pid: nat, cc: nat, pcr: int, rai: bool, priority: bool)
    ensures Progress([], buf, 0, pid, cc, pcr, rai, priority)
  {
  }

  lemma ProgressEnd(pkts: seq<Packet>, buf: Bytes, pid: nat, cc: nat, pcr: int, rai: bool, priority: bool)
    requires buf != [] && Progress(pkts, buf, |buf|, pid, cc, pcr, rai, priority)
    ensures IsPacketization(pkts, buf, pid, cc, pcr, rai, priority)
    ensures |pkts| == PacketCount(|buf|, FirstCapacity(pcr, rai, priority))
    ensures forall i :: 0 <= i < |pkts| ==> |Payload(pkts[i])| == PieceSize(|buf|, FirstCapacity(pcr, rai, priority), i)
  {
    assert buf[..|buf|] == buf;
  }

  lemma NextCounter(c: nat, n: nat)
    requires c % 16 == n % 16
    ensures (c + 1) % 16 == (n + 1) % 16
  {
  }

  lemma OnlyModulo16(p: Packet, pid: nat, c: nat, n: nat, first: bool)
    requires c % 16 == n % 16
    requires CleanPacket(p, pid, c, first)
    ensures CleanPacket(p, pid, n, first)
  {
  }

  /** While bytes are left, there is room for one more packet. */
  lemma RoomLeft(pkts: seq<Packet>, buf: Bytes, pos: nat, pid: nat, cc: nat,
                 pcr: int, rai: bool, priority: bool)
    requires Progress(pkts, buf, pos, pid, cc, pcr, rai, priority) && pos < |buf|
    ensures |pkts| + 1 <= (|buf| + 175) / 176
  {
    assert 176 * |pkts| <= pos;
  }

  /** WritePacket behind the `cnt` packets already there. */
  method AppendPacket(arr: array<byte>, cnt: nat, buf: Bytes, pos: nat, cc: byte, pid: nat,
                      pcr: int, rai: bool, priority: bool, ghost cc0: nat)
    returns (cpy: nat)
    requires (cnt + 1) * PACKET_SIZE <= arr.Length
    requires pos < |buf| && pid <= 0x1fff && cc as int % 16 == (cc0 + cnt) % 16
    requires Progress(PacketsOf(arr[..], cnt), buf, pos, pid, cc0, pcr, rai, priority)
    modifies arr
    ensures pos < pos + cpy <= |buf|
    ensures Progress(PacketsOf(arr[..], cnt + 1), buf, pos + cpy, pid, cc0, pcr, rai, priority)
  {
    hide CleanPacket, FirstOnly, StuffingStart, PayloadOffset, Progress, PacketIn;
    ghost var before := arr[..];
    ghost var pkts := PacketsOf(before, cnt);
    cpy := WritePacket(arr, cnt * PACKET_SIZE, buf, pos, cc, pid, cnt == 0, pcr, rai, priority);
    ghost var p: Packet := arr[cnt * PACKET_SIZE..cnt * PACKET_SIZE + PACKET_SIZE];
    ghost var after := arr[..];
    assert before[..cnt * PACKET_SIZE] == after[..cnt * PACKET_SIZE];
    PacketsOfPrefix(before, after, cnt);
    assert p == PacketIn(after, cnt) by { PacketInIs(after, cnt, p); }
    OnlyModulo16(p, pid, cc, cc0 + cnt, cnt == 0);
    ProgressStep(pkts, p, buf, pos, cpy, pid, cc0, pcr, rai, priority);
  }

  lemma PacketInIs(data: Bytes, i: nat, p: Packet)
    requires (i + 1) * PACKET_SIZE <= |data| && p == data[i * PACKET_SIZE..i * PACKET_SIZE + PACKET_SIZE]
    ensures PacketIn(data, i) == p
  {
  }

  /**
   * Cuts `buf` into packets. The packets are a packetization of `buf`, there are exactly as many
   * as the capacities force, and that many always fit the allocation.
   */
  method TsPacketizerWithPcr(buf: Bytes, packetSize: int, cc: byte, pid: nat,
                             pcr: int, rai: bool, priority: bool)
    returns (ok: bool, arr: array<byte>, packetCount: nat, newCc: byte)
    ensures ok <==> buf != [] && packetSize == PACKET_SIZE && pid <= 0x1fff
    ensures !ok ==> newCc == cc && packetCount == 0
    ensures ok ==>
      && packetCount == PacketCount(|buf|, FirstCapacity(pcr, rai, priority))
      && packetCount * PACKET_SIZE <= arr.Length
      && newCc == (cc as int + packetCount) % 16
      && IsPacketization(PacketsOf(arr[..], packetCount), buf, pid, cc, pcr, rai, priority)
      && forall i :: 0 <= i < packetCount ==>
        |Payload(PacketsOf(arr[..], packetCount)[i])| == PieceSize(|buf|, FirstCapacity(pcr, rai, priority), i)
  {
    hide IsPacketization, Progress, PacketsOf, PacketCount, FirstCapacity, Payload, PieceSize;
    ok, newCc, packetCount := buf != [] && packetSize == PACKET_SIZE && pid <= 0x1fff, cc, 0;
    if !ok {
      arr := new byte[0];
      return;
    }
    var maxPackets := (|buf| + 175) / 176 + 2;
    arr := new byte[maxPackets * PACKET_SIZE](_ => 0);
    var pos, cnt := 0, 0;
    ProgressStart(buf, pid, cc, pcr, rai, priority);
    while pos < |buf|
      invariant cnt <= maxPackets && pos <= |buf|
      invariant newCc as int % 16 == (cc as int + cnt) % 16 && (cnt > 0 ==> newCc < 16)
      invariant Progress(PacketsOf(arr[..], cnt), buf, pos, pid, cc, pcr, rai, priority)
      decreases |buf| - pos
    {
      RoomLeft(PacketsOf(arr[..], cnt), buf, pos, pid, cc, pcr, rai, priority);
      var cpy := AppendPacket(arr, cnt, buf, pos, newCc, pid, pcr, rai, priority, cc);
      NextCounter(newCc, cc as int + cnt);
      pos := pos + cpy;
      newCc := (newCc as int + 1) % 16;
      cnt := cnt + 1;
    }
    packetCount := cnt;
    ProgressEnd(PacketsOf(arr[..], cnt), buf, pid, cc, pcr, rai, priority);
  }
}
