/**
 * The PCR smoother's two threads, src/smoother-pcr.c: a producer in
 * smoother_pcr_write2 and a consumer in _queueProcess, sharing a free and a
 * busy list under one mutex. Every critical section is one atomic step.
 */
module SmootherProtocol {
  import opened Bytes
  import opened CArith
  import opened Counting
  import opened ScrClock
  import opened TsPacket

  const GROWTH := 64

  /** A queue item; `id` names the allocation it lives in. */
  datatype Item = Item(id: nat, seqno: nat, buf: Bytes, pcr: int, intervalPerPacket: int, scheduled: int)

  /** One call of smoother_pcr_write2. */
  datatype Chunk = Chunk(buf: Bytes, pcr: int, intervalPerPacket: int)

  /** The producer: outside write2; holding an item it took; or with that item filled in. */
  datatype Producer = Idle | Taken(id: nat, chunk: Chunk) | Filled(item: Item)

  /** The consumer: outside _queueProcess, or with a local list of which so many are sent and accounted for. */
  datatype Consumer = Resting | Sending(loc: seq<Item>, sent: nat, accounted: nat)

  datatype Smoothing = Smoothing(
    free: seq<nat>, busy: seq<Item>, qFreeCount: int, qBusyCount: int, totalUserBytes: int,
    seqno: nat, lastSeqno: nat, totalItems: nat, totalItemGrowth: nat,
    pcrFirst: int, walltimeFirst: int, pcrTail: int, pcrHead: int, intervalLast: int, latency: int,
    producer: Producer, consumer: Consumer,
    given: Bytes, output: seq<Item>)

  // ---------------------------------------------------------------- the critical sections

  /** smoother_pcr_alloc: a free list of so many items, their allocations numbered. */
  function Initial(items: nat, latency: int): Smoothing
  {
    Smoothing(seq(items, i requires i >= 0 => i), [], items, 0, 0, 0, 0, items, 0, -1, 0, -1, -1, 0, latency,
          Idle, Resting, [], [])
  }

  function Grown(s: Smoothing): Smoothing
  {
    s.(free := s.free + seq(GROWTH, i requires i >= 0 => s.totalItems + i), qFreeCount := s.qFreeCount + GROWTH,
       totalItemGrowth := s.totalItemGrowth + GROWTH, totalItems := s.totalItems + GROWTH)
  }

  /** First section of write2: take the first free item, growing the list if it is empty. */
  function TakeFree(s: Smoothing, chunk: Chunk): Smoothing
    requires s.producer.Idle?
  {
    var g := if s.free == [] then Grown(s) else s;
    g.(free := g.free[1..], qFreeCount := g.qFreeCount - 1, producer := Taken(g.free[0], chunk),
       given := g.given + chunk.buf)
  }

  function ScheduledOutputUs(pcrFirst: int, walltimeFirst: int, latency: int, pcr: int): int
  {
    walltimeFirst + CDiv(ScrDiff(pcrFirst, pcr), 27) + latency
  }

  /** Between the sections: fill the item in, establishing the timebase if there is none. */
  function Fill(s: Smoothing, now: int): Smoothing
    requires s.producer.Taken?
  {
    var c := s.producer.chunk;
    var t := if s.pcrFirst == -1 then s.(pcrFirst := c.pcr, walltimeFirst := now) else s;
    var scheduled := ScheduledOutputUs(t.pcrFirst, t.walltimeFirst, t.latency, c.pcr);
    t.(pcrTail := c.pcr, producer := Filled(Item(s.producer.id, 0, c.buf, c.pcr, c.intervalPerPacket, scheduled)))
  }

  /** Never before the last item queued: behind it by the time its own packets take. */
  function Rescheduled(s: Smoothing, item: Item): Item
  {
    if s.busy != [] && s.busy[|s.busy| - 1].scheduled > item.scheduled then
      item.(scheduled := s.busy[|s.busy| - 1].scheduled + CDiv(s.intervalLast * (|item.buf| / 188), 27))
    else item
  }

  /** Second section of write2: number the item, set its time and queue it. */
  function Enqueue(s: Smoothing): Smoothing
    requires s.producer.Filled?
  {
    var item := Rescheduled(s, s.producer.item.(seqno := s.seqno));
    s.(seqno := s.seqno + 1, totalUserBytes := s.totalUserBytes + |item.buf|, busy := s.busy + [item],
       qBusyCount := s.qBusyCount + 1, producer := Idle)
  }

  /** How many items at the head of the busy list are due, up to the first that is not. */
  function DuePrefix(busy: seq<Item>, us: int): (n: nat)
    ensures n <= |busy|
    ensures forall i :: 0 <= i < n ==> busy[i].scheduled <= us
    ensures n < |busy| ==> busy[n].scheduled > us
  {
    if busy == [] || busy[0].scheduled > us then 0 else 1 + DuePrefix(busy[1..], us)
  }

  lemma {:induction false} DuePrefixIs(busy: seq<Item>, us: int, n: nat)
    requires n <= |busy| && forall i :: 0 <= i < n ==> busy[i].scheduled <= us
    requires n < |busy| ==> busy[n].scheduled > us
    ensures DuePrefix(busy, us) == n
  {
    if n > 0 {
      DuePrefixIs(busy[1..], us, n - 1);
    }
  }

  /** _queueProcess_makeloc, at time `us`: due items move to the local list. */
  function Grab(s: Smoothing, us: int): Smoothing
    requires s.consumer.Resting?
  {
    var n := DuePrefix(s.busy, us);
    var t := if s.busy == [] then s else s.(pcrHead := s.busy[0].pcr);
    if n == 0 then t
    else t.(busy := s.busy[n..], qBusyCount := s.qBusyCount - n, consumer := Sending(s.busy[..n], 0, 0))
  }

  /** A PCR for every packet of a chunk, counted on from its stamp, without a look at the clock's wrap. */
  function PacketPcrs(chunk: Chunk): (arr: seq<PcrPosition>)
    ensures |arr| == Packets(chunk.buf)
  {
    seq(Packets(chunk.buf), i requires 0 <= i < Packets(chunk.buf) =>
      PcrPosition(Pid(PacketAt(chunk.buf, i)), PACKET_SIZE * i, chunk.pcr + i * chunk.intervalPerPacket))
  }

  /** What of an item comes from the producer. */
  function ChunkOf(e: Item): Chunk
  {
    Chunk(e.buf, e.pcr, e.intervalPerPacket)
  }

  /** The callback gets the next item of the local list. */
  function Emit(s: Smoothing): Smoothing
    requires s.consumer.Sending? && s.consumer.sent < |s.consumer.loc|
  {
    s.(output := s.output + [s.consumer.loc[s.consumer.sent]], consumer := s.consumer.(sent := s.consumer.sent + 1))
  }

  /** The section after the callback: the item's bytes are no longer held. */
  function Account(s: Smoothing): Smoothing
    requires s.consumer.Sending? && s.consumer.accounted < |s.consumer.loc|
  {
    var e := s.consumer.loc[s.consumer.accounted];
    s.(totalUserBytes := s.totalUserBytes - |e.buf|, lastSeqno := e.seqno,
       consumer := s.consumer.(accounted := s.consumer.accounted + 1))
  }

  /** The "seq err" branch. */
  predicate SeqErr(s: Smoothing)
  {
    s.consumer.Sending? && s.consumer.accounted < |s.consumer.loc|
    && s.lastSeqno != 0 && s.lastSeqno + 1 != s.consumer.loc[s.consumer.accounted].seqno
  }

  /** The last section of _queueProcess: spent items go back to the free list. */
  function ReturnSpent(s: Smoothing): Smoothing
    requires s.consumer.Sending?
  {
    s.(free := s.free + Ids(s.consumer.loc), qFreeCount := s.qFreeCount + |s.consumer.loc|, consumer := Resting)
  }

  function Ids(items: seq<Item>): seq<nat>
  {
    seq(|items|, i requires 0 <= i < |items| => items[i].id)
  }

  // ---------------------------------------------------------------- the code

  class Smoother {
    var itemsFree: seq<nat>
    var itemsBusy: seq<Item>
    var qFreeCount: int
    var qBusyCount: int
    var totalUserBytes: int
    var seqno: nat
    var lastSeqno: nat
    var totalItems: nat
    var totalItemGrowth: nat
    var pcrFirst: int
    var walltimeFirst: int
    var pcrTail: int
    var pcrHead: int
    var intervalLast: int
    const latency: int
    /** What each thread holds between its sections. */
    var producer: Producer
    var consumer: Consumer
    ghost var given: Bytes
    ghost var output: seq<Item>

    ghost function State(): Smoothing
      reads this
    {
      Smoothing(itemsFree, itemsBusy, qFreeCount, qBusyCount, totalUserBytes, seqno, lastSeqno, totalItems,
        totalItemGrowth, pcrFirst, walltimeFirst, pcrTail, pcrHead, intervalLast, latency, producer, consumer,
            given, output)
    }

    /** smoother_pcr_alloc. */
    constructor (itemsPerSecond: nat, latencyUs: int)
      ensures State() == Initial(itemsPerSecond, latencyUs)
    {
      itemsFree := seq(itemsPerSecond, i requires i >= 0 => i);
      itemsBusy := [];
      qFreeCount, qBusyCount, totalUserBytes, seqno, lastSeqno := itemsPerSecond, 0, 0, 0, 0;
      totalItems, totalItemGrowth := itemsPerSecond, 0;
      pcrFirst, walltimeFirst, pcrTail, pcrHead, intervalLast, latency := -1, 0, -1, -1, 0, latencyUs;
      producer, consumer := Idle, Resting;
      given, output := [], [];
    }

    /** Sixty-four more items when the free list is empty. */
    method GrowFree()
      modifies `itemsFree, `qFreeCount, `totalItemGrowth, `totalItems
      ensures State() == Grown(old(State()))
    {
      for i := 0 to GROWTH
        invariant itemsFree == old(itemsFree) + seq(i, k requires k >= 0 => old(totalItems) + k)
        invariant qFreeCount == old(qFreeCount) + i && totalItemGrowth == old(totalItemGrowth) + i
        invariant totalItems == old(totalItems) + i
      {
        itemsFree := itemsFree + [totalItems];
        qFreeCount := qFreeCount + 1;
        totalItemGrowth := totalItemGrowth + 1;
        totalItems := totalItems + 1;
      }
    }

    /** First section of write2. */
    method TakeFreeItem(chunk: Chunk)
      requires producer.Idle?
      modifies this
      ensures State() == TakeFree(old(State()), chunk)
    {
      if itemsFree == [] {
        GrowFree();
      }
      producer := Taken(itemsFree[0], chunk);
      itemsFree := itemsFree[1..];
      qFreeCount := qFreeCount - 1;
      given := given + chunk.buf;
    }

    method FillItem(now: int)
      requires producer.Taken?
      modifies this
      ensures State() == Fill(old(State()), now)
    {
      var c := producer.chunk;
      if pcrFirst == -1 {
        pcrFirst := c.pcr;
        walltimeFirst := now;
      }
      pcrTail := c.pcr;
      var scheduled := ScheduledOutputUs(pcrFirst, walltimeFirst, latency, c.pcr);
      producer := Filled(Item(producer.id, 0, c.buf, c.pcr, c.intervalPerPacket, scheduled));
    }

    /** Second section of write2. */
    method EnqueueItem()
      requires producer.Filled?
      modifies this
      ensures State() == Enqueue(old(State()))
    {
      var item := producer.item.(seqno := seqno);
      seqno := seqno + 1;
      totalUserBytes := totalUserBytes + |item.buf|;
      if itemsBusy != [] {
        var last := itemsBusy[|itemsBusy| - 1];
        if last.scheduled > item.scheduled {
          var us := CDiv(intervalLast * (|item.buf| / 188), 27);
          item := item.(scheduled := last.scheduled + us);
        }
      }
      itemsBusy := itemsBusy + [item];
      qBusyCount := qBusyCount + 1;
      producer := Idle;
    }

    /** _queueProcess_makeloc's walk along the busy list while items are due. */
    method MoveDue(us: int) returns (loc: seq<Item>)
      modifies `itemsBusy, `qBusyCount
      ensures |loc| == DuePrefix(old(itemsBusy), us) && loc == old(itemsBusy)[..|loc|]
      ensures itemsBusy == old(itemsBusy)[|loc|..] && qBusyCount == old(qBusyCount) - |loc|
    {
      hide DuePrefix;
      ghost var busy := itemsBusy;
      loc := [];
      while itemsBusy != [] && itemsBusy[0].scheduled <= us
        invariant |loc| <= |busy| && itemsBusy == busy[|loc|..] && loc == busy[..|loc|]
        invariant forall i :: 0 <= i < |loc| ==> busy[i].scheduled <= us
        invariant qBusyCount == old(qBusyCount) - |loc|
        decreases |itemsBusy|
      {
        loc := loc + [itemsBusy[0]];
        itemsBusy := itemsBusy[1..];
        qBusyCount := qBusyCount - 1;
      }
      DuePrefixIs(busy, us, |loc|);
    }

    method MakeLoc(us: int) returns (count: nat)
      requires consumer.Resting?
      modifies this
      ensures State() == Grab(old(State()), us) && count == DuePrefix(old(itemsBusy), us)
    {
      hide DuePrefix;
      if itemsBusy != [] {
        pcrHead := itemsBusy[0].pcr;
      }
      var loc := MoveDue(us);
      count := |loc|;
      if count > 0 {
        consumer := Sending(loc, 0, 0);
      }
    }

    /** The callback: it gets the item, and a PCR for each of its packets. */
    method EmitNext() returns (arr: seq<PcrPosition>)
      requires consumer.Sending? && consumer.sent < |consumer.loc|
      modifies this
      ensures State() == Emit(old(State()))
      ensures arr == PacketPcrs(ChunkOf(output[|output| - 1]))
    {
      hide Pid;
      var e := consumer.loc[consumer.sent];
      arr := [];
      for i := 0 to |e.buf| / PACKET_SIZE
        invariant arr == PacketPcrs(ChunkOf(e))[..i]
      {
        var pkt := e.buf[PACKET_SIZE * i..PACKET_SIZE * i + PACKET_SIZE];
        arr := arr + [PcrPosition(Pid(pkt), PACKET_SIZE * i, e.pcr + i * e.intervalPerPacket)];
      }
      output := output + [consumer.loc[consumer.sent]];
      consumer := consumer.(sent := consumer.sent + 1);
    }

    method AccountNext() returns (seqErr: bool)
      requires consumer.Sending? && consumer.accounted < |consumer.loc|
      modifies this
      ensures State() == Account(old(State())) && seqErr == SeqErr(old(State()))
    {
      var e := consumer.loc[consumer.accounted];
      totalUserBytes := totalUserBytes - |e.buf|;
      seqErr := lastSeqno != 0 && lastSeqno + 1 != e.seqno;
      lastSeqno := e.seqno;
      consumer := consumer.(accounted := consumer.accounted + 1);
    }

    /** Spent items go back to the free list, one after another. */
    method ReturnItems()
      requires consumer.Sending?
      modifies this
      ensures State() == ReturnSpent(old(State()))
    {
      ghost var was := State();
      var loc := consumer.loc;
      for i := 0 to |loc|
        invariant State() == was.(free := was.free + Ids(loc[..i]), qFreeCount := was.qFreeCount + i)
      {
        assert Ids(loc[..i + 1]) == Ids(loc[..i]) + [loc[i].id];
        itemsFree := itemsFree + [loc[i].id];
        qFreeCount := qFreeCount + 1;
      }
      assert loc[..|loc|] == loc;
      consumer := Resting;
    }
  }
}
