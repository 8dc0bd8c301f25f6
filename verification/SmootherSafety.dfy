/**
 * The smoother's two threads in every interleaving of their critical sections,
 * as long as nobody resets the smoother while items are in flight.
 */
module SmootherSafety {
  import opened Bytes
  import opened SmootherProtocol

  datatype Action =
    | Take(chunk: Chunk) | FillIn(now: int) | Queue
    | RecordInterval(ticks: int) | Rebase
    | Serve(us: int) | Send | Settle | Return

  /** Which step each thread can take next; the two threads are free of each other. */
  predicate Enabled(s: Smoothing, a: Action)
  {
    match a
    case Take(_) => s.producer.Idle?
    case FillIn(_) => s.producer.Taken?
    case Queue => s.producer.Filled?
    case RecordInterval(_) => s.producer.Idle?
    case Rebase => s.producer.Idle?
    case Serve(_) => s.consumer.Resting?
    case Send => s.consumer.Sending? && s.consumer.sent == s.consumer.accounted < |s.consumer.loc|
    case Settle => s.consumer.Sending? && s.consumer.accounted < s.consumer.sent <= |s.consumer.loc|
    case Return => s.consumer.Sending? && s.consumer.accounted == |s.consumer.loc|
  }

  function Do(s: Smoothing, a: Action): Smoothing
    requires Enabled(s, a)
  {
    match a
    case Take(chunk) => TakeFree(s, chunk)
    case FillIn(now) => Fill(s, now)
    case Queue => Enqueue(s)
    case RecordInterval(ticks) => s.(intervalLast := ticks)
    case Rebase => s.(pcrFirst := -1)
    case Serve(us) => Grab(s, us)
    case Send => Emit(s)
    case Settle => Account(s)
    case Return => ReturnSpent(s)
  }

  predicate CanRun(s: Smoothing, run: seq<Action>)
    decreases |run|
  {
    run == [] || (Enabled(s, run[0]) && CanRun(Do(s, run[0]), run[1..]))
  }

  function After(s: Smoothing, run: seq<Action>): Smoothing
    requires CanRun(s, run)
    decreases |run|
  {
    if run == [] then s else After(Do(s, run[0]), run[1..])
  }

  // ---------------------------------------------------------------- what is where

  /** What the consumer has grabbed and not handed to the callback yet. */
  function Unsent(s: Smoothing): seq<Item>
  {
    if s.consumer.Sending? && s.consumer.sent <= |s.consumer.loc| then s.consumer.loc[s.consumer.sent..] else []
  }

  /** What the consumer has grabbed and still counts. */
  function Unaccounted(s: Smoothing): seq<Item>
  {
    if s.consumer.Sending? && s.consumer.accounted <= |s.consumer.loc|
        then s.consumer.loc[s.consumer.accounted..] else []
  }

  function Local(s: Smoothing): seq<Item>
  {
    if s.consumer.Sending? then s.consumer.loc else []
  }

  /** Every numbered item, first to last. */
  function Line(s: Smoothing): seq<Item>
  {
    s.output + Unsent(s) + s.busy
  }

  function InHandId(s: Smoothing): seq<nat>
  {
    match s.producer
    case Idle => []
    case Taken(id, _) => [id]
    case Filled(item) => [item.id]
  }

  function InHandBytes(s: Smoothing): Bytes
  {
    match s.producer
    case Idle => []
    case Taken(_, chunk) => chunk.buf
    case Filled(item) => item.buf
  }

  /** Every allocation, wherever it is. */
  ghost function Held(s: Smoothing): multiset<nat>
  {
    multiset(s.free) + multiset(Ids(s.busy)) + multiset(Ids(Local(s))) + multiset(InHandId(s))
  }

  function UpTo(n: nat): seq<nat>
  {
    seq(n, i requires i >= 0 => i)
  }

  function Data(items: seq<Item>): Bytes
  {
    Flatten(seq(|items|, i requires 0 <= i < |items| => items[i].buf))
  }

  lemma DataAppend(a: seq<Item>, b: seq<Item>)
    ensures Data(a + b) == Data(a) + Data(b)
  {
    var x, y := seq(|a|, i requires 0 <= i < |a| => a[i].buf), seq(|b|, i requires 0 <= i < |b| => b[i].buf);
    var z := seq(|a + b|, i requires 0 <= i < |a + b| => (a + b)[i].buf);
    assert z == x + y;
    FlattenAppend(x, y);
  }

  lemma DataOne(item: Item)
    ensures Data([item]) == item.buf
  {
    var one := seq(1, i requires 0 <= i < 1 => [item][i].buf);
    assert one == [] + [item.buf];
    FlattenSnoc([], item.buf);
  }

  // ---------------------------------------------------------------- the invariant

  /** No allocation is lost or in two places. */
  ghost predicate Conserved(s: Smoothing)
  {
    Held(s) == multiset(UpTo(s.totalItems))
  }

  predicate Counted(s: Smoothing)
  {
    && s.qFreeCount == |s.free| && s.qBusyCount == |s.busy|
    && s.totalUserBytes == |Data(Unaccounted(s) + s.busy)|
  }

  /** Emitted, grabbed, queued and in hand, end to end: the bytes given. */
  predicate Fifo(s: Smoothing)
  {
    Data(Line(s)) + InHandBytes(s) == s.given
  }

  predicate Numbered(s: Smoothing)
  {
    && s.seqno == |Line(s)|
    && forall i :: 0 <= i < |Line(s)| ==> Line(s)[i].seqno == i
  }

  /** The consumer sends, then accounts; what it has sent is what left last. */
  predicate Paced(s: Smoothing)
  {
    var ahead := if s.consumer.Sending? then s.consumer.sent - s.consumer.accounted else 0;
    && (s.consumer.Sending? ==>
      && 0 <= ahead <= 1 && s.consumer.sent <= |s.consumer.loc| && s.consumer.sent <= |s.output|
      && s.output[|s.output| - s.consumer.sent..] == s.consumer.loc[..s.consumer.sent])
    && |s.output| - ahead >= 0
    && s.lastSeqno == if |s.output| - ahead == 0 then 0 else |s.output| - ahead - 1
  }

  ghost predicate Sorted(items: seq<Item>)
  {
    forall i, j :: 0 <= i < j < |items| ==> items[i].scheduled <= items[j].scheduled
  }

  ghost predicate Safe(s: Smoothing)
  {
    Conserved(s) && Counted(s) && Fifo(s) && Numbered(s) && Paced(s)
  }

  lemma InitiallySafe(items: nat, latency: int)
    ensures Safe(Initial(items, latency))
  {
    var s := Initial(items, latency);
    assert Line(s) == [];
    assert Unaccounted(s) + s.busy == [];
  }

  // ---------------------------------------------------------------- one step

  lemma PassLine(s: Smoothing, us: int)
    requires s.consumer.Resting?
    ensures Line(Grab(s, us)) == Line(s)
    ensures Unaccounted(Grab(s, us)) + Grab(s, us).busy == Unaccounted(s) + s.busy
    ensures Local(Grab(s, us)) + Grab(s, us).busy == s.busy
  {
  }

  lemma SendLine(s: Smoothing)
    requires Enabled(s, Send)
    ensures Line(Emit(s)) == Line(s)
  {
    assert Unsent(s) == [s.consumer.loc[s.consumer.sent]] + Unsent(Emit(s));
  }

  lemma QueueLine(s: Smoothing)
    requires s.producer.Filled?
    ensures Line(Enqueue(s)) == Line(s) + [Rescheduled(s, s.producer.item.(seqno := s.seqno))]
  {
  }

  lemma SameLine(s: Smoothing, t: Smoothing)
    requires t.output == s.output && Unsent(t) == Unsent(s) && t.busy == s.busy
    ensures Line(t) == Line(s)
  {
  }

  /** Only queueing adds to the line, and nothing takes from it. */
  lemma LineStep(s: Smoothing, a: Action)
    requires Enabled(s, a) && Paced(s)
    ensures !a.Queue? ==> Line(Do(s, a)) == Line(s)
    ensures a.Queue? ==> Line(Do(s, a)) == Line(s) + [Rescheduled(s, s.producer.item.(seqno := s.seqno))]
  {
    hide Line, DuePrefix, Rescheduled;
    if a.Serve? {
      PassLine(s, a.us);
    } else if a.Send? {
      SendLine(s);
    } else if a.Queue? {
      QueueLine(s);
    } else {
      SameLine(s, Do(s, a));
    }
  }

  lemma QueueFifo(s: Smoothing)
    requires Enabled(s, Queue) && Fifo(s)
    ensures Fifo(Enqueue(s))
  {
    hide Line, Data, Rescheduled;
    var item := Rescheduled(s, s.producer.item.(seqno := s.seqno));
    QueueLine(s);
    DataAppend(Line(s), [item]);
    SameBytes(s);
  }

  lemma SameBytes(s: Smoothing)
    requires s.producer.Filled?
    ensures Data([Rescheduled(s, s.producer.item.(seqno := s.seqno))]) == s.producer.item.buf
  {
    DataOne(Rescheduled(s, s.producer.item.(seqno := s.seqno)));
  }

  /** Bytes are given as they come into hand, and stay there until queued. */
  lemma InHandStep(s: Smoothing, a: Action) returns (more: Bytes)
    requires Enabled(s, a) && !a.Queue?
    ensures InHandBytes(Do(s, a)) == InHandBytes(s) + more && Do(s, a).given == s.given + more
  {
    hide DuePrefix, Rescheduled;
    more := if a.Take? then a.chunk.buf else [];
  }

  lemma FifoStep(s: Smoothing, a: Action)
    requires Enabled(s, a) && Paced(s) && Fifo(s)
    ensures Fifo(Do(s, a))
  {
    if a.Queue? {
      QueueFifo(s);
    } else {
      hide Line, Data, Do, InHandBytes, Paced, Enabled;
      LineStep(s, a);
      var more := InHandStep(s, a);
    }
  }

  lemma NumberedStep(s: Smoothing, a: Action)
    requires Enabled(s, a) && Paced(s) && Numbered(s)
    ensures Numbered(Do(s, a))
  {
    LineStep(s, a);
  }

  lemma SendPaced(s: Smoothing)
    requires Enabled(s, Send) && Paced(s)
    ensures Paced(Emit(s))
  {
    var t := Emit(s);
    assert t.output[|t.output| - t.consumer.sent..] == s.output[|s.output| - s.consumer.sent..]
        + [s.consumer.loc[s.consumer.sent]];
  }

  /** The item settled is the last one that left, and carries its number. */
  lemma LastSent(s: Smoothing)
    requires Enabled(s, Settle) && Paced(s) && Numbered(s)
    ensures s.consumer.loc[s.consumer.accounted].seqno == |s.output| - 1
  {
    var k := s.consumer.sent;
    assert s.output[|s.output| - k..][k - 1] == s.consumer.loc[..k][k - 1];
    assert s.output[|s.output| - 1] == Line(s)[|s.output| - 1];
  }

  lemma SettlePaced(s: Smoothing)
    requires Enabled(s, Settle) && Paced(s) && Numbered(s)
    ensures Paced(Account(s))
  {
    hide Numbered;
    LastSent(s);
  }

  lemma SamePaced(s: Smoothing, t: Smoothing)
    requires Paced(s) && t.output == s.output && t.lastSeqno == s.lastSeqno && t.consumer == s.consumer
    ensures Paced(t)
  {
  }

  /** A pass begins and ends with nothing ahead. */
  lemma AtRestPaced(s: Smoothing, a: Action)
    requires Enabled(s, a) && Paced(s) && (a.Serve? || a.Return?)
    ensures Paced(Do(s, a))
  {
    hide DuePrefix, Ids;
  }

  lemma PacedStep(s: Smoothing, a: Action)
    requires Enabled(s, a) && Paced(s) && Numbered(s)
    ensures Paced(Do(s, a))
  {
    hide Numbered, Paced, Emit, Account, Grab, ReturnSpent, Rescheduled;
    match a
    case Send => SendPaced(s);
    case Settle => SettlePaced(s);
    case Serve(_) => AtRestPaced(s, a);
    case Return => AtRestPaced(s, a);
    case _ => SamePaced(s, Do(s, a));
  }

  lemma QueueCounted(s: Smoothing)
    requires s.producer.Filled? && Counted(s)
    ensures Counted(Enqueue(s))
  {
    hide Data;
    var item := Rescheduled(s, s.producer.item.(seqno := s.seqno));
    DataAppend(Unaccounted(s) + s.busy, [item]);
    DataOne(item);
    assert Unaccounted(Enqueue(s)) + Enqueue(s).busy == (Unaccounted(s) + s.busy) + [item];
  }

  lemma SettleCounted(s: Smoothing)
    requires Enabled(s, Settle) && Counted(s)
    ensures Counted(Account(s))
  {
    hide Data;
    var e := s.consumer.loc[s.consumer.accounted];
    var rest := Unaccounted(Account(s)) + s.busy;
    assert Unaccounted(s) + s.busy == [e] + rest;
    DataAppend([e], rest);
    DataOne(e);
  }

  lemma SameCounted(s: Smoothing, t: Smoothing)
    requires Counted(s)
    requires t.totalUserBytes == s.totalUserBytes && Unaccounted(t) + t.busy == Unaccounted(s) + s.busy
    requires t.qFreeCount - |t.free| == s.qFreeCount - |s.free| && t.qBusyCount - |t.busy| == s.qBusyCount - |s.busy|
    ensures Counted(t)
  {
  }

  lemma OtherCounted(s: Smoothing, a: Action)
    requires Enabled(s, a) && Counted(s) && !a.Queue? && !a.Settle?
    ensures Counted(Do(s, a))
  {
    hide Counted, Data, DuePrefix, Enqueue, Account;
    if a.Serve? {
      PassLine(s, a.us);
    }
    SameCounted(s, Do(s, a));
  }

  lemma CountedStep(s: Smoothing, a: Action)
    requires Enabled(s, a) && Counted(s)
    ensures Counted(Do(s, a))
  {
    hide Counted, Data, DuePrefix, Rescheduled, Enqueue, Account, Unaccounted;
    match a
    case Queue => QueueCounted(s);
    case Settle => SettleCounted(s);
    case _ => OtherCounted(s, a);
  }

  lemma Joined(a: seq<nat>, b: seq<nat>)
    ensures multiset(a + b) == multiset(a) + multiset(b)
  {
  }

  lemma JoinedIds(a: seq<Item>, b: seq<Item>)
    ensures multiset(Ids(a + b)) == multiset(Ids(a)) + multiset(Ids(b))
  {
    assert Ids(a + b) == Ids(a) + Ids(b);
  }

  lemma UpToMore(n: nat, more: seq<nat>)
    requires more == seq(GROWTH, i requires i >= 0 => n + i)
    ensures UpTo(n + GROWTH) == UpTo(n) + more
  {
  }

  lemma GrownConserves(s: Smoothing)
    requires Conserved(s)
    ensures Conserved(Grown(s))
  {
    assert Local(Grown(s)) == Local(s) && InHandId(Grown(s)) == InHandId(s);
    hide Ids, UpTo, Local, InHandId;
    var more := seq(GROWTH, i requires i >= 0 => s.totalItems + i);
    assert Grown(s).free == s.free + more;
    UpToMore(s.totalItems, more);
    Joined(UpTo(s.totalItems), more);
    Joined(s.free, more);
  }

  lemma TakeConserves(s: Smoothing, chunk: Chunk)
    requires s.producer.Idle? && Conserved(s)
    ensures Conserved(TakeFree(s, chunk))
  {
    hide Ids, UpTo;
    if s.free == [] {
      GrownConserves(s);
    }
    var g := if s.free == [] then Grown(s) else s;
    assert g.free == [g.free[0]] + g.free[1..];
    Joined([g.free[0]], g.free[1..]);
  }

  lemma ConservedStep(s: Smoothing, a: Action)
    requires Enabled(s, a) && Conserved(s)
    ensures Conserved(Do(s, a))
  {
    hide Conserved, DuePrefix, Ids, UpTo, TakeFree;
    if a.Take? {
      TakeConserves(s, a.chunk);
    } else if a.Queue? {
      QueueConserves(s);
    } else if a.Serve? {
      PassConserves(s, a.us);
    } else if a.Return? {
      ReturnConserves(s);
    } else {
      SameHolders(s, Do(s, a));
    }
  }

  lemma SameHolders(s: Smoothing, t: Smoothing)
    requires Conserved(s) && t.totalItems == s.totalItems
    requires t.free == s.free && t.busy == s.busy && Local(t) == Local(s) && InHandId(t) == InHandId(s)
    ensures Conserved(t)
  {
  }

  lemma ReturnConserves(s: Smoothing)
    requires s.consumer.Sending? && Conserved(s)
    ensures Conserved(ReturnSpent(s))
  {
    hide Ids, UpTo;
    Joined(s.free, Ids(s.consumer.loc));
    NoIds();
  }

  lemma NoIds()
    ensures Ids([]) == []
  {
  }

  lemma QueueConserves(s: Smoothing)
    requires s.producer.Filled? && Conserved(s)
    ensures Conserved(Enqueue(s))
  {
    assert Ids(Enqueue(s).busy) == Ids(s.busy) + InHandId(s);
    hide UpTo;
    Joined(Ids(s.busy), InHandId(s));
  }

  lemma PassConserves(s: Smoothing, us: int)
    requires s.consumer.Resting? && Conserved(s)
    ensures Conserved(Grab(s, us))
  {
    hide Ids, UpTo, Grab;
    PassLine(s, us);
    GrabKeeps(s, us);
    NoIds();
    JoinedIds(Local(Grab(s, us)), Grab(s, us).busy);
  }

  lemma GrabKeeps(s: Smoothing, us: int)
    requires s.consumer.Resting?
    ensures var t := Grab(s, us);
      t.free == s.free && t.producer == s.producer && t.totalItems == s.totalItems && Local(s) == []
  {
    hide DuePrefix;
  }

  /** The two stamps latency is measured by: the last one filled in, and the first in the queue when a pass begins. */
  lemma HeadAndTail(s: Smoothing, a: Action)
    requires Enabled(s, a)
    ensures Do(s, a).pcrTail == if a.FillIn? then s.producer.chunk.pcr else s.pcrTail
    ensures Do(s, a).pcrHead == if a.Serve? && s.busy != [] then s.busy[0].pcr else s.pcrHead
  {
    hide DuePrefix, Rescheduled;
  }

  /** Room is made sixty-four at a time, when a chunk comes and no item is free, and at no other time. */
  lemma GrowsBySixtyFour(s: Smoothing, a: Action)
    requires Enabled(s, a)
    ensures Do(s, a).totalItems == s.totalItems + if a.Take? && s.free == [] then 64 else 0
  {
    hide DuePrefix, Rescheduled;
  }

  // ---------------------------------------------------------------- the free list

  /** The allocation a step takes, if it takes one. */
  function TakenBy(s: Smoothing, a: Action): seq<nat>
    requires Enabled(s, a)
  {
    if a.Take? then [Do(s, a).producer.id] else []
  }

  /** Those that become free: sixty-four new ones when a chunk finds none, and what was sent, in that order. */
  function FreedBy(s: Smoothing, a: Action): seq<nat>
    requires Enabled(s, a)
  {
    match a
    case Take(_) => if s.free == [] then seq(64, i requires i >= 0 => s.totalItems + i) else []
    case Return => Ids(Local(s))
    case _ => []
  }

  function AllTaken(s: Smoothing, run: seq<Action>): seq<nat>
    requires CanRun(s, run)
    decreases |run|
  {
    if run == [] then [] else TakenBy(s, run[0]) + AllTaken(Do(s, run[0]), run[1..])
  }

  function AllFreed(s: Smoothing, run: seq<Action>): seq<nat>
    requires CanRun(s, run)
    decreases |run|
  {
    if run == [] then [] else FreedBy(s, run[0]) + AllFreed(Do(s, run[0]), run[1..])
  }

  lemma FreeStep(s: Smoothing, a: Action)
    requires Enabled(s, a)
    ensures s.free + FreedBy(s, a) == TakenBy(s, a) + Do(s, a).free
  {
    hide DuePrefix, Rescheduled;
  }

  /** The one free the longest is taken first. */
  lemma {:induction false} TakenInOrder(s: Smoothing, run: seq<Action>)
    requires CanRun(s, run)
    ensures s.free + AllFreed(s, run) == AllTaken(s, run) + After(s, run).free
    decreases |run|
  {
    hide Do, Enabled, FreedBy, TakenBy;
    if run != [] {
      var a, t, rest := run[0], Do(s, run[0]), run[1..];
      FreeStep(s, a);
      TakenInOrder(t, rest);
      Through(s.free, FreedBy(s, a), AllFreed(t, rest), TakenBy(s, a), t.free, AllTaken(t, rest), After(s, run).free);
    }
  }

  /** Through a queue, and through it again. */
  lemma Through(before: seq<nat>, in1: seq<nat>, in2: seq<nat>, out1: seq<nat>, between: seq<nat>, out2: seq<nat>,
                after: seq<nat>)
    requires before + in1 == out1 + between && between + in2 == out2 + after
    ensures before + (in1 + in2) == (out1 + out2) + after
  {
    assert before + (in1 + in2) == (before + in1) + in2;
    assert (out1 + between) + in2 == out1 + (between + in2);
  }

  // ---------------------------------------------------------------- every run

  lemma GrowthStep(s: Smoothing, a: Action)
    requires Enabled(s, a)
    ensures Do(s, a).totalItems - Do(s, a).totalItemGrowth == s.totalItems - s.totalItemGrowth
  {
  }

  lemma SafeStep(s: Smoothing, a: Action)
    requires Enabled(s, a) && Safe(s)
    ensures Safe(Do(s, a))
    ensures Do(s, a).totalItems - Do(s, a).totalItemGrowth == s.totalItems - s.totalItemGrowth
  {
    GrowthStep(s, a);
    hide Conserved, Counted, Fifo, Numbered, Paced, Do;
    ConservedStep(s, a);
    CountedStep(s, a);
    FifoStep(s, a);
    NumberedStep(s, a);
    PacedStep(s, a);
  }

  /** Whatever the interleaving, every reachable state is safe. */
  lemma {:induction false} AlwaysSafe(s: Smoothing, run: seq<Action>)
    requires Safe(s) && CanRun(s, run)
    ensures Safe(After(s, run))
    ensures After(s, run).totalItems - After(s, run).totalItemGrowth == s.totalItems - s.totalItemGrowth
    decreases |run|
  {
    hide Safe, Do, Enabled;
    if run != [] {
      SafeStep(s, run[0]);
      AlwaysSafe(Do(s, run[0]), run[1..]);
    }
  }

  /** What went out, what is grabbed, what is queued and what is in hand are the bytes given, in order. */
  lemma BytesInOrder(items: nat, latency: int, run: seq<Action>)
    requires CanRun(Initial(items, latency), run)
    ensures var s := After(Initial(items, latency), run);
      Data(s.output) + Data(Unsent(s)) + Data(s.busy) + InHandBytes(s) == s.given
  {
    InitiallySafe(items, latency);
    AlwaysSafe(Initial(items, latency), run);
    var s := After(Initial(items, latency), run);
    DataAppend(s.output, Unsent(s));
    DataAppend(s.output + Unsent(s), s.busy);
  }

  lemma SafeNumbers(s: Smoothing)
    requires Numbered(s) && Paced(s)
    ensures forall i :: 0 <= i < |s.output| ==> s.output[i].seqno == i
    ensures Enabled(s, Settle) ==> !SeqErr(s)
  {
    forall i | 0 <= i < |s.output| ensures s.output[i].seqno == i {
      assert s.output[i] == Line(s)[i];
    }
    if Enabled(s, Settle) {
      LastSent(s);
    }
  }

  /** Items leave numbered 0, 1, 2, ...: the "seq err" branch is never taken. */
  lemma NoSeqErr(items: nat, latency: int, run: seq<Action>)
    requires CanRun(Initial(items, latency), run)
    ensures var s := After(Initial(items, latency), run);
      && (forall i :: 0 <= i < |s.output| ==> s.output[i].seqno == i)
      && (Enabled(s, Settle) ==> !SeqErr(s))
  {
    hide Initial, CanRun, After, Conserved, Counted, Fifo, Numbered, Paced, Enabled, SeqErr;
    InitiallySafe(items, latency);
    AlwaysSafe(Initial(items, latency), run);
    SafeNumbers(After(Initial(items, latency), run));
  }

  /** Free, busy, grabbed and in hand: every allocation exactly once, and the counters count them. */
  lemma NothingLeaks(items: nat, latency: int, run: seq<Action>)
    requires CanRun(Initial(items, latency), run)
    ensures var s := After(Initial(items, latency), run);
      && Held(s) == multiset(UpTo(s.totalItems))
      && |s.free| + |s.busy| + |Local(s)| + |InHandId(s)| == s.totalItems == items + s.totalItemGrowth
      && s.qFreeCount == |s.free| && s.qBusyCount == |s.busy|
      && s.totalUserBytes == |Data(Unaccounted(s))| + |Data(s.busy)|
  {
    InitiallySafe(items, latency);
    AlwaysSafe(Initial(items, latency), run);
    var s := After(Initial(items, latency), run);
    DataAppend(Unaccounted(s), s.busy);
    HeldSize(s);
  }

  lemma Size(a: seq<nat>)
    ensures |multiset(a)| == |a|
  {
  }

  lemma HeldSize(s: Smoothing)
    requires Conserved(s)
    ensures |s.free| + |s.busy| + |Local(s)| + |InHandId(s)| == s.totalItems
  {
    hide UpTo, Ids;
    SizeIds(s.busy);
    SizeIds(Local(s));
    Size(s.free);
    Size(InHandId(s));
    SizeUpTo(s.totalItems);
  }

  lemma SizeIds(items: seq<Item>)
    ensures |multiset(Ids(items))| == |items|
  {
  }

  lemma SizeUpTo(n: nat)
    ensures |multiset(UpTo(n))| == n
  {
  }

  // ---------------------------------------------------------------- the schedule

  /** Every per-packet interval recorded in the run is non-negative. */
  predicate IntervalsForward(run: seq<Action>)
  {
    forall i :: 0 <= i < |run| ==> run[i].RecordInterval? ==> run[i].ticks >= 0
  }

  ghost predicate Scheduled(s: Smoothing)
  {
    Sorted(s.busy) && s.intervalLast >= 0
  }

  /** An item is queued out of order exactly when it is late and the interval last recorded goes back far enough. */
  lemma QueueKeepsOrder(s: Smoothing)
    requires s.producer.Filled?
    ensures Sorted(Enqueue(s).busy) <==>
      Sorted(s.busy)
      && (s.busy == [] || s.busy[|s.busy| - 1].scheduled <= s.producer.item.scheduled
          || s.intervalLast * (|s.producer.item.buf| / 188) > -27)
  {
    var busy, more := s.busy, Enqueue(s).busy;
    if Sorted(more) {
      forall i, j | 0 <= i < j < |busy| ensures busy[i].scheduled <= busy[j].scheduled {
        assert more[i] == busy[i] && more[j] == busy[j];
      }
      if busy != [] {
        assert more[|busy| - 1].scheduled <= more[|busy|].scheduled;
      }
    }
  }

  lemma ForwardProduct(ticks: int, packets: int)
    requires ticks >= 0 && packets >= 0
    ensures ticks * packets >= 0
  {
  }

  lemma ScheduledStep(s: Smoothing, a: Action)
    requires Enabled(s, a) && Scheduled(s) && (a.RecordInterval? ==> a.ticks >= 0)
    ensures Scheduled(Do(s, a))
  {
    hide DuePrefix, Rescheduled, ScheduledOutputUs;
    if a.Queue? {
      ForwardProduct(s.intervalLast, |s.producer.item.buf| / 188);
      QueueKeepsOrder(s);
    }
  }

  /** The busy list is in order of scheduled time in every reachable state, across new timebases. */
  lemma {:induction false} AlwaysScheduled(s: Smoothing, run: seq<Action>)
    requires Scheduled(s) && CanRun(s, run) && IntervalsForward(run)
    ensures Scheduled(After(s, run))
    decreases |run|
  {
    hide Scheduled, Do, Enabled;
    if run != [] {
      assert run[0].RecordInterval? ==> run[0].ticks >= 0;
      ScheduledStep(s, run[0]);
      AlwaysScheduled(Do(s, run[0]), run[1..]);
    }
  }

  lemma {:induction false} DueExactly(busy: seq<Item>, us: int)
    requires Sorted(busy)
    ensures forall i :: 0 <= i < |busy| ==> (i < DuePrefix(busy, us) <==> busy[i].scheduled <= us)
  {
    var n := DuePrefix(busy, us);
    forall i | n <= i < |busy| ensures busy[i].scheduled > us {
      assert busy[n].scheduled <= busy[i].scheduled || i == n;
    }
  }

  /** A pass takes exactly the items due, although it stops at the first that is not. */
  lemma PassTakesExactlyTheDue(items: nat, latency: int, run: seq<Action>, us: int)
    requires CanRun(Initial(items, latency), run) && IntervalsForward(run)
    requires Enabled(After(Initial(items, latency), run), Serve(us))
    ensures var s := After(Initial(items, latency), run);
      var t := Grab(s, us);
      && Local(t) + t.busy == s.busy
      && (forall item :: item in Local(t) ==> item.scheduled <= us)
      && (forall item :: item in t.busy ==> item.scheduled > us)
      && Sorted(Local(t))
  {
    hide CanRun, After, Initial;
    InitiallyScheduled(items, latency);
    AlwaysScheduled(Initial(items, latency), run);
    PassSplits(After(Initial(items, latency), run), us);
  }

  lemma InitiallyScheduled(items: nat, latency: int)
    ensures Scheduled(Initial(items, latency))
  {
  }

  lemma GrabParts(s: Smoothing, us: int)
    requires s.consumer.Resting?
    ensures var n, t := DuePrefix(s.busy, us), Grab(s, us);
      Local(t) == s.busy[..n] && t.busy == s.busy[n..]
  {
    hide DuePrefix;
  }

  lemma PassSplits(s: Smoothing, us: int)
    requires s.consumer.Resting? && Sorted(s.busy)
    ensures var t := Grab(s, us);
      && Local(t) + t.busy == s.busy
      && (forall item :: item in Local(t) ==> item.scheduled <= us)
      && (forall item :: item in t.busy ==> item.scheduled > us)
      && Sorted(Local(t))
  {
    hide DuePrefix, Grab, Local;
    GrabParts(s, us);
    DueExactly(s.busy, us);
  }

  lemma {:induction false} OneMore(s: Smoothing, run: seq<Action>, a: Action)
    requires CanRun(s, run) && Enabled(After(s, run), a)
    ensures CanRun(s, run + [a]) && After(s, run + [a]) == Do(After(s, run), a)
    decreases |run|
  {
    hide Do, Enabled;
    if run == [] {
      assert [a][1..] == [];
    } else {
      OneMore(Do(s, run[0]), run[1..], a);
      assert (run + [a])[1..] == run[1..] + [a];
    }
  }

  /** One chunk taken, filled in at time 0, and queued. */
  lemma ChunkQueued(s: Smoothing, run: seq<Action>, chunk: Chunk) returns (more: seq<Action>)
    requires CanRun(s, run) && After(s, run).producer.Idle?
    ensures more == run + [Take(chunk), FillIn(0), Queue] && CanRun(s, more)
    ensures After(s, more) == Enqueue(Fill(TakeFree(After(s, run), chunk), 0))
  {
    hide TakeFree, Fill, Enqueue;
    TakeHands(After(s, run), chunk);
    OneMore(s, run, Take(chunk));
    more := run + [Take(chunk)];
    FillHands(After(s, more));
    OneMore(s, more, FillIn(0));
    more := more + [FillIn(0)];
    OneMore(s, more, Queue);
    more := more + [Queue];
  }

  lemma TakeHands(s: Smoothing, chunk: Chunk)
    requires s.producer.Idle?
    ensures TakeFree(s, chunk).producer.Taken?
  {
  }

  lemma FillHands(s: Smoothing)
    requires s.producer.Taken?
    ensures Fill(s, 0).producer.Filled?
  {
  }
}
