/** lib/r11n_queue.go as a state machine: pushers and one consumer, which receives from the
    channel without the lock and corrects the positions later, under the lock. */
module QueueModel {
  import opened Types

  type R11nID = string

  const MAX_REFS := 100

  /** Where the consumer goroutine is in its loop. */
  datatype Consumer =
    | Waiting
    | Received(id: R11nID)   // received, but not yet holding the lock
    | Handling(id: R11nID)   // positions corrected, the handler is running

  datatype Queue = Queue(
    cap: nat,
    chan: seq<R11nID>,
    refs: set<R11nID>,
    allRefs: set<R11nID>,
    ring: seq<Option<R11nID>>,
    cursor: nat,
    pos: map<R11nID, int>,
    consumer: Consumer,
    accepted: seq<R11nID>,   // history: every ID pushed, in order
    early: set<R11nID>,      // history: those pushed while the consumer was in Received
    closed: seq<R11nID>)     // history: every `done` channel closed, in order

  datatype Event = Push(id: R11nID) | PushIfEmpty(id: R11nID) | Receive | Popped | Finish

  function Init(cap: nat): Queue {
    Queue(cap, [], {}, {}, seq(MAX_REFS, i => None), 0, map[], Waiting, [], {}, [])
  }

  datatype Memory = Memory(ring: seq<Option<R11nID>>, cursor: nat, allRefs: set<R11nID>)

  /** Advancing the ring: the entry that is overwritten is forgotten by `allRefs`. */
  function Remember(ring: seq<Option<R11nID>>, cursor: nat, allRefs: set<R11nID>, id: R11nID): (m: Memory)
    requires |ring| == MAX_REFS && cursor < MAX_REFS
    ensures |m.ring| == MAX_REFS && m.cursor < MAX_REFS && m.allRefs <= allRefs + {id}
  {
    var c := (cursor + 1) % MAX_REFS;
    var all := allRefs + {id};
    Memory(ring[c := Some(id)], c, if ring[c].Some? then all - {ring[c].value} else all)
  }

  /** `internalPush`. On an unbuffered channel the send hands over to the waiting consumer. */
  function InternalPush(q: Queue, id: R11nID): Queue
    requires |q.ring| == MAX_REFS && q.cursor < MAX_REFS
  {
    var m := Remember(q.ring, q.cursor, q.allRefs, id);
    Queue(q.cap,
          if q.cap == 0 then q.chan else q.chan + [id],
          q.refs + {id}, m.allRefs, m.ring, m.cursor,
          q.pos[id := |q.chan|],
          if q.cap == 0 then Received(id) else q.consumer,
          q.accepted + [id],
          if q.consumer.Received? then q.early + {id} else q.early,
          q.closed)
  }

  predicate PushAccepts(q: Queue) { |q.chan| != q.cap }

  predicate PushIfEmptyAccepts(q: Queue) { q.refs == {} }

  /** The send inside `internalPush` can complete. */
  predicate CanSend(q: Queue) { |q.chan| < q.cap || (q.cap == 0 && q.consumer.Waiting?) }

  /** IDs are fresh; a consumer step happens where the consumer is, and a push that is
      accepted proceeds when its send does. */
  predicate Enabled(q: Queue, e: Event) {
    match e
    case Push(id) => id !in q.accepted && (PushAccepts(q) ==> CanSend(q))
    case PushIfEmpty(id) => id !in q.accepted && (PushIfEmptyAccepts(q) ==> CanSend(q))
    case Receive => q.consumer.Waiting? && q.chan != []
    case Popped => q.consumer.Received?
    case Finish => q.consumer.Handling?
  }

  function HandlePopped(q: Queue): Queue {
    q.(pos := map id | id in q.pos :: if id in q.allRefs then q.pos[id] - 1 else q.pos[id])
  }

  function Step(q: Queue, e: Event): Queue
    requires |q.ring| == MAX_REFS && q.cursor < MAX_REFS && Enabled(q, e)
  {
    match e
    case Push(id) => if PushAccepts(q) then InternalPush(q, id) else q
    case PushIfEmpty(id) => if PushIfEmptyAccepts(q) then InternalPush(q, id) else q
    case Receive => q.(consumer := Received(q.chan[0]), chan := q.chan[1..])
    case Popped => HandlePopped(q).(consumer := Handling(q.consumer.id))
    case Finish => q.(consumer := Waiting, refs := q.refs - {q.consumer.id}, closed := q.closed + [q.consumer.id])
  }

  // ---------------------------------------------------------------- the invariant

  ghost predicate Distinct(s: seq<R11nID>) {
    forall i, j | 0 <= i < j < |s| :: s[i] != s[j]
  }

  function InFlight(c: Consumer): seq<R11nID> {
    if c.Waiting? then [] else [c.id]
  }

  /** Exactly once, in order: finished, then at most one in flight, then the channel. */
  ghost predicate Fifo(q: Queue) {
    && Distinct(q.accepted)
    && q.accepted == q.closed + InFlight(q.consumer) + q.chan
    && q.refs == Elements(InFlight(q.consumer) + q.chan)
    && |q.chan| <= q.cap
  }

  ghost function Elements(s: seq<R11nID>): set<R11nID> { set id | id in s }

  /** Accepted items older than the last hundred have left the ring. */
  function Oldest(accepted: seq<R11nID>): nat {
    if |accepted| <= MAX_REFS then 0 else |accepted| - MAX_REFS
  }

  /** The push `k` pushes ago. */
  function Recent(accepted: seq<R11nID>, k: nat): Option<R11nID> {
    if k < |accepted| then Some(accepted[|accepted| - 1 - k]) else None
  }

  /** The slot written `k` pushes ago. */
  function Slot(cursor: nat, k: nat): (c: nat)
    requires cursor < MAX_REFS && k < MAX_REFS
    ensures c < MAX_REFS
  {
    if k <= cursor then cursor - k else cursor + MAX_REFS - k
  }

  ghost predicate RingHolds(ring: seq<Option<R11nID>>, cursor: nat, accepted: seq<R11nID>) {
    && |ring| == MAX_REFS
    && cursor < MAX_REFS
    && (forall k | 0 <= k < MAX_REFS :: ring[Slot(cursor, k)] == Recent(accepted, k))
  }

  ghost predicate AllRefsHold(allRefs: set<R11nID>, accepted: seq<R11nID>) {
    allRefs == Elements(accepted[Oldest(accepted)..])
  }

  /** How many times positions have been corrected. */
  function PopCount(q: Queue): nat {
    |q.closed| + if q.consumer.Handling? then 1 else 0
  }

  /** How many items have left the channel. */
  function ReceivedCount(q: Queue): nat { |q.closed| + |InFlight(q.consumer)| }

  function Early(early: set<R11nID>, id: R11nID): int { if id in early then 1 else 0 }

  ghost predicate Positions(pos: map<R11nID, int>, accepted: seq<R11nID>, early: set<R11nID>, pops: nat) {
    && pos.Keys == Elements(accepted)
    && early <= Elements(accepted)
    && (forall i | Oldest(accepted) <= i < |accepted| :: pos[accepted[i]] == i - Early(early, accepted[i]) - pops)
    && (forall i | 0 <= i < |accepted| :: pos[accepted[i]] >= i - Early(early, accepted[i]) - pops)
  }

  ghost predicate Inv(q: Queue) {
    && Fifo(q)
    && RingHolds(q.ring, q.cursor, q.accepted)
    && AllRefsHold(q.allRefs, q.accepted)
    && Positions(q.pos, q.accepted, q.early, PopCount(q))
  }

  lemma InitInv(cap: nat)
    ensures Inv(Init(cap))
  {}

  lemma PushFifo(q: Queue, id: R11nID)
    requires Fifo(q) && |q.ring| == MAX_REFS && q.cursor < MAX_REFS && id !in q.accepted && CanSend(q)
    ensures Fifo(InternalPush(q, id))
  {
    hide Remember;
    var q' := InternalPush(q, id);
    assert InFlight(q'.consumer) + q'.chan == InFlight(q.consumer) + q.chan + [id];
  }

  lemma PushRing(q: Queue, id: R11nID)
    requires RingHolds(q.ring, q.cursor, q.accepted)
    ensures var m := Remember(q.ring, q.cursor, q.allRefs, id);
            RingHolds(m.ring, m.cursor, q.accepted + [id]) && q.ring[m.cursor] == Recent(q.accepted, MAX_REFS - 1)
  {
    var q', accepted := Remember(q.ring, q.cursor, q.allRefs, id), q.accepted + [id];
    assert q'.cursor == Slot(q.cursor, MAX_REFS - 1);
    forall k | 0 <= k < MAX_REFS ensures q'.ring[Slot(q'.cursor, k)] == Recent(accepted, k) {
      if k > 0 {
        assert Recent(accepted, k) == Recent(q.accepted, k - 1);
        assert Slot(q'.cursor, k) == Slot(q.cursor, k - 1);
      }
    }
  }

  lemma PushAllRefs(allRefs: set<R11nID>, accepted: seq<R11nID>, id: R11nID)
    requires AllRefsHold(allRefs, accepted) && Distinct(accepted) && id !in accepted
    ensures var dropped := Recent(accepted, MAX_REFS - 1);
            AllRefsHold(if dropped.Some? then allRefs + {id} - {dropped.value} else allRefs + {id}, accepted + [id])
  {
    var o := Oldest(accepted);
    if |accepted| < MAX_REFS {
      assert (accepted + [id])[0..] == accepted[0..] + [id];
    } else {
      assert accepted[o..] == [accepted[o]] + accepted[o + 1..];
      assert (accepted + [id])[o + 1..] == accepted[o + 1..] + [id];
    }
  }

  lemma PushPositions(q: Queue, id: R11nID)
    requires Fifo(q) && Positions(q.pos, q.accepted, q.early, PopCount(q)) && id !in q.accepted && CanSend(q)
    requires |q.ring| == MAX_REFS && q.cursor < MAX_REFS
    ensures var q' := InternalPush(q, id); Positions(q'.pos, q'.accepted, q'.early, PopCount(q'))
  {
    hide Remember;
    var q' := InternalPush(q, id);
    assert Elements(q'.accepted) == Elements(q.accepted) + {id};
    forall i | Oldest(q'.accepted) <= i < |q'.accepted|
      ensures q'.pos[q'.accepted[i]] == i - Early(q'.early, q'.accepted[i]) - PopCount(q')
    {
      if i < |q.accepted| {
        assert q'.accepted[i] == q.accepted[i] != id;
        assert q.accepted[i] in Elements(q.accepted);
      }
    }
    forall i | 0 <= i < |q'.accepted|
      ensures q'.pos[q'.accepted[i]] >= i - Early(q'.early, q'.accepted[i]) - PopCount(q')
    {
      if i < |q.accepted| {
        assert q'.accepted[i] == q.accepted[i] != id;
        assert q.accepted[i] in Elements(q.accepted);
      }
    }
  }

  lemma PushInv(q: Queue, id: R11nID)
    requires Inv(q) && id !in q.accepted && CanSend(q)
    ensures Inv(InternalPush(q, id))
  {
    assert |q.ring| == MAX_REFS && q.cursor < MAX_REFS;
    PushFifo(q, id);
    PushRing(q, id);
    PushAllRefs(q.allRefs, q.accepted, id);
    PushPositions(q, id);
    hide Fifo, RingHolds, AllRefsHold, Positions, Recent;
  }

  lemma PoppedInv(q: Queue)
    requires Inv(q) && Enabled(q, Popped)
    ensures Inv(Step(q, Popped))
  {
    var q' := Step(q, Popped);
    assert Positions(q'.pos, q'.accepted, q'.early, PopCount(q')) by {
      hide RingHolds;
      forall i | Oldest(q.accepted) <= i < |q.accepted|
        ensures q'.pos[q.accepted[i]] == i - Early(q.early, q.accepted[i]) - PopCount(q')
      {
        assert q.accepted[Oldest(q.accepted)..][i - Oldest(q.accepted)] == q.accepted[i];
      }
      forall i | 0 <= i < |q.accepted|
        ensures q'.pos[q.accepted[i]] >= i - Early(q.early, q.accepted[i]) - PopCount(q')
      {
        assert q.accepted[i] in Elements(q.accepted);
      }
    }
    hide RingHolds, AllRefsHold, Positions;
  }

  lemma ReceiveInv(q: Queue)
    requires Inv(q) && Enabled(q, Receive)
    ensures Inv(Step(q, Receive))
  {
    assert |q.ring| == MAX_REFS && q.cursor < MAX_REFS;
    hide RingHolds, AllRefsHold, Positions, Distinct, Elements;
    var q' := Step(q, Receive);
    assert q.chan == InFlight(q'.consumer) + q'.chan == InFlight(q.consumer) + q.chan;
    Regroup(q.closed, InFlight(q.consumer), q.chan);
    Regroup(q.closed, InFlight(q'.consumer), q'.chan);
  }

  lemma Regroup(a: seq<R11nID>, b: seq<R11nID>, c: seq<R11nID>)
    ensures a + b + c == a + (b + c)
  {}

  lemma FinishFifo(q: Queue)
    requires Fifo(q) && |q.ring| == MAX_REFS && q.cursor < MAX_REFS && Enabled(q, Finish)
    ensures Fifo(Step(q, Finish))
  {
    var q', id := Step(q, Finish), q.consumer.id;
    assert q.accepted[|q.closed|] == id;
    forall i | 0 <= i < |q.chan| ensures q.chan[i] != id {
      assert q.accepted[|q.closed| + 1 + i] == q.chan[i];
    }
    hide Distinct;
    assert Elements([id] + q.chan) == {id} + Elements(q.chan);
    assert InFlight(q'.consumer) + q'.chan == q.chan;
    Regroup(q.closed, [id], q.chan);
  }

  lemma FinishInv(q: Queue)
    requires Inv(q) && Enabled(q, Finish)
    ensures Inv(Step(q, Finish))
  {
    assert |q.ring| == MAX_REFS && q.cursor < MAX_REFS;
    FinishFifo(q);
    hide RingHolds, AllRefsHold, Positions, Fifo;
  }

  lemma StepInv(q: Queue, e: Event)
    requires Inv(q) && Enabled(q, e)
    ensures Inv(Step(q, e))
  {
    hide InternalPush, HandlePopped, Fifo, Positions, AllRefsHold;
    match e
    case Push(id) => if PushAccepts(q) { PushInv(q, id); }
    case PushIfEmpty(id) => if PushIfEmptyAccepts(q) { PushInv(q, id); }
    case Receive => ReceiveInv(q);
    case Popped => PoppedInv(q);
    case Finish => FinishInv(q);
  }

  // ---------------------------------------------------------------- runs

  /** The state after a run, if every event was enabled when it happened. */
  ghost function Run(cap: nat, es: seq<Event>): (r: Option<Queue>)
    ensures r.Some? ==> Inv(r.value) && r.value.cap == cap
  {
    if es == [] then
      InitInv(cap);
      Some(Init(cap))
    else
      var n := |es| - 1;
      var before := Run(cap, es[..n]);
      if before.Some? && Enabled(before.value, es[n]) then
        StepInv(before.value, es[n]);
        Some(Step(before.value, es[n]))
      else None
  }

  ghost predicate Reachable(q: Queue) {
    exists es :: Run(q.cap, es) == Some(q)
  }

  lemma ReachableInv(q: Queue)
    requires Reachable(q)
    ensures Inv(q)
  {
    hide Inv;
    var es :| Run(q.cap, es) == Some(q);
  }

  lemma ReachableStep(q: Queue, e: Event)
    requires Reachable(q) && Enabled(q, e)
    ensures Inv(q) && Reachable(Step(q, e))
  {
    ReachableInv(q);
    QueueBounds(q);
    hide Inv, Step, Enabled, Init;
    var es :| Run(q.cap, es) == Some(q);
    assert (es + [e])[..|es|] == es && (es + [e])[|es|] == e;
    assert Run(q.cap, es + [e]) == Some(Step(q, e));
  }

  // ---------------------------------------------------------------- what every run keeps

  lemma {:induction false} DistinctSize(s: seq<R11nID>)
    requires Distinct(s)
    ensures |Elements(s)| == |s|
  {
    if s != [] {
      DistinctSize(s[1..]);
      assert Elements(s) == {s[0]} + Elements(s[1..]);
    }
  }

  lemma DistinctParts(a: seq<R11nID>, b: seq<R11nID>)
    requires Distinct(a + b)
    ensures Distinct(a) && Distinct(b) && Elements(a) !! Elements(b) && Elements(a + b) == Elements(a) + Elements(b)
  {
    forall i | 0 <= i < |a| ensures a[i] == (a + b)[i] {}
    forall i | 0 <= i < |b| ensures b[i] == (a + b)[|a| + i] {}
    forall i, j | 0 <= i < |a| && 0 <= j < |b| ensures a[i] != b[j] {
      assert (a + b)[i] != (a + b)[|a| + j];
    }
  }

  /** Exactly once and in order; `refs` is what has not finished. */
  lemma FifoExactlyOnce(q: Queue)
    requires Reachable(q)
    ensures q.accepted == q.closed + InFlight(q.consumer) + q.chan
    ensures Distinct(q.accepted) && Distinct(q.closed)
    ensures q.refs == Elements(q.accepted) - Elements(q.closed)
    ensures |q.refs| == |q.accepted| - |q.closed| <= q.cap + 1
  {
    hide Reachable, RingHolds, AllRefsHold, Positions, Elements, Distinct;
    ReachableInv(q);
    var rest := InFlight(q.consumer) + q.chan;
    assert q.accepted == q.closed + rest;
    DistinctParts(q.closed, rest);
    DistinctSize(rest);
  }

  /** The send made while the lock is held never blocks, for any capacity. */
  lemma PushNeverBlocks(q: Queue)
    requires Inv(q)
    ensures PushAccepts(q) ==> CanSend(q)
    ensures PushIfEmptyAccepts(q) ==> CanSend(q)
    ensures q.cap >= 1 && (PushAccepts(q) || PushIfEmptyAccepts(q)) ==> |q.chan| < q.cap
  {
    hide RingHolds, AllRefsHold, Positions, Distinct;
    ElementsEmpty(InFlight(q.consumer) + q.chan);
  }

  lemma ElementsEmpty(s: seq<R11nID>)
    ensures Elements(s) == {} <==> s == []
  {
    if s != [] { assert s[0] in Elements(s); }
  }

  /** PushIfEmpty succeeds exactly when everything accepted before has finished. */
  lemma PushIfEmptyMeansAllFinished(q: Queue)
    requires Reachable(q)
    ensures PushIfEmptyAccepts(q) <==> q.closed == q.accepted
  {
    hide Reachable, Distinct;
    FifoExactlyOnce(q);
    if q.refs == {} {
      assert |q.closed| == |q.accepted|;
      assert InFlight(q.consumer) == [] && q.chan == [];
    }
  }

  /** `allRefs` and the ring hold exactly the last hundred accepted IDs. */
  lemma RingAgreesWithHistory(q: Queue)
    requires Reachable(q)
    ensures q.allRefs == Elements(q.accepted[Oldest(q.accepted)..])
    ensures |q.ring| == MAX_REFS && forall id :: id in q.allRefs <==> Some(id) in q.ring
    ensures |q.allRefs| == if |q.accepted| <= 100 then |q.accepted| else 100
  {
    hide Reachable, Positions, Fifo;
    FifoExactlyOnce(q);
    ReachableInv(q);
    var last := q.accepted[Oldest(q.accepted)..];
    assert q.accepted == q.accepted[..Oldest(q.accepted)] + last;
    DistinctParts(q.accepted[..Oldest(q.accepted)], last);
    DistinctSize(last);
    forall id ensures id in last <==> Some(id) in q.ring {
      RingEntry(q, id);
    }
  }

  lemma RingEntry(q: Queue, id: R11nID)
    requires RingHolds(q.ring, q.cursor, q.accepted)
    ensures id in q.accepted[Oldest(q.accepted)..] <==> Some(id) in q.ring
  {
    var last := q.accepted[Oldest(q.accepted)..];
    if id in last {
      var j :| 0 <= j < |last| && last[j] == id;
      assert Recent(q.accepted, |last| - 1 - j) == Some(id);
      assert q.ring[Slot(q.cursor, |last| - 1 - j)] == Some(id);
    }
    if Some(id) in q.ring {
      var c :| 0 <= c < MAX_REFS && q.ring[c] == Some(id);
      var k := if c <= q.cursor then q.cursor - c else q.cursor + MAX_REFS - c;
      assert c == Slot(q.cursor, k);
      assert Recent(q.accepted, k) == Some(id);
      assert last[|last| - 1 - k] == id;
    }
  }

  /** In every reachable state, whatever the capacity: ByID and Wait find everything unfinished
      exactly if that is no more than the ring holds. */
  lemma FindableIffFew(q: Queue)
    requires Reachable(q)
    ensures q.refs <= q.allRefs <==> |q.refs| <= 100
  {
    hide Reachable, Elements, Distinct;
    RingAgreesWithHistory(q);
    FifoExactlyOnce(q);
    if q.refs <= q.allRefs {
      SubsetSize(q.refs, q.allRefs);
    }
    if |q.refs| <= MAX_REFS {
      forall id | id in q.refs ensures id in q.allRefs {
        UnfinishedSince(q.accepted, q.closed, Oldest(q.accepted), id);
      }
    }
  }

  lemma UnfinishedSince(accepted: seq<R11nID>, closed: seq<R11nID>, o: nat, id: R11nID)
    requires closed <= accepted && o <= |closed| && id in Elements(accepted) - Elements(closed)
    ensures id in Elements(accepted[o..])
  {
    var i :| 0 <= i < |accepted| && accepted[i] == id;
    assert forall j | 0 <= j < |closed| :: closed[j] == accepted[j];
    assert accepted[o..][i - o] == id;
  }

  /** So when the capacity is below a hundred, they find everything unfinished. */
  lemma UnfinishedFindable(q: Queue)
    requires Reachable(q) && q.cap < MAX_REFS
    ensures q.refs <= q.allRefs
  {
    hide Reachable;
    FifoExactlyOnce(q);
    FindableIffFew(q);
  }

  /** The index an accepted, unreceived item has in the channel. */
  function ChannelIndex(q: Queue, i: nat): int { i - ReceivedCount(q) }

  /** 1 while an item has been received whose departure the positions do not show yet. */
  function Lag(q: Queue): int { if q.consumer.Received? then 1 else 0 }

  /** Positions of findable items, exactly: off by one when the item was pushed inside the
      window between a receive and its correction, or when such a window is open now. */
  lemma PositionExact(q: Queue, i: nat)
    requires Reachable(q) && Oldest(q.accepted) <= i < |q.accepted|
    ensures q.accepted[i] in q.pos
    ensures q.pos[q.accepted[i]] == ChannelIndex(q, i) + Lag(q) - Early(q.early, q.accepted[i])
    ensures -1 <= q.pos[q.accepted[i]] - ChannelIndex(q, i) <= 1
    ensures i >= ReceivedCount(q) ==> q.chan[ChannelIndex(q, i)] == q.accepted[i]
  {
    hide Reachable, RingHolds, AllRefsHold, Distinct;
    ReachableInv(q);
    assert q.accepted[i] in Elements(q.accepted);
  }

  /** Nothing comes between a receive and its correction. */
  ghost predicate PopsAtomically(cap: nat, es: seq<Event>) {
    forall k | 0 <= k < |es| && Run(cap, es[..k]).Some? && Run(cap, es[..k]).value.consumer.Received? :: es[k] == Popped
  }

  lemma {:induction false} NoneEarly(cap: nat, es: seq<Event>)
    requires Run(cap, es).Some? && PopsAtomically(cap, es)
    ensures Run(cap, es).value.early == {}
  {
    hide Inv;
    if es != [] {
      var n := |es| - 1;
      forall k | 0 <= k < n ensures es[..n][..k] == es[..k] {}
      NoneEarly(cap, es[..n]);
    }
  }

  /** With an atomic pop, positions are exact whenever the consumer is between pops. */
  lemma PositionExactWithAtomicPop(cap: nat, es: seq<Event>, i: nat)
    requires Run(cap, es).Some? && PopsAtomically(cap, es)
    requires var q := Run(cap, es).value; !q.consumer.Received? && Oldest(q.accepted) <= i < |q.accepted|
    ensures var q := Run(cap, es).value; q.accepted[i] in q.pos && q.pos[q.accepted[i]] == ChannelIndex(q, i)
  {
    NoneEarly(cap, es);
    hide Run, Inv;
    PositionExact(Run(cap, es).value, i);
  }

  /** Positions never invert push order, and tie only for neighbours of which just the later
      one was pushed inside a window. Snapshot sorts by these. */
  lemma PositionsMonotone(q: Queue, i: nat, j: nat)
    requires Reachable(q) && Oldest(q.accepted) <= i < j < |q.accepted|
    ensures q.accepted[i] in q.pos && q.accepted[j] in q.pos
    ensures q.pos[q.accepted[i]] <= q.pos[q.accepted[j]]
    ensures q.pos[q.accepted[i]] == q.pos[q.accepted[j]]
            <==> j == i + 1 && q.accepted[j] in q.early && q.accepted[i] !in q.early
  {
    hide Reachable;
    PositionExact(q, i);
    PositionExact(q, j);
  }

  /** Whatever the capacity: this covers everything in the channel while that is at most a
      hundred items. */
  lemma QueuedPositionExact(q: Queue, k: nat)
    requires Reachable(q) && |q.chan| <= MAX_REFS && k < |q.chan|
    ensures q.chan[k] in q.pos
    ensures q.pos[q.chan[k]] == k + Lag(q) - Early(q.early, q.chan[k])
  {
    hide Reachable;
    FifoExactlyOnce(q);
    var i := ReceivedCount(q) + k;
    assert q.accepted[i] == q.chan[k];
    PositionExact(q, i);
  }

  /** And while at most a hundred items are unfinished it covers all of these: Snapshot does not
      invert push order. */
  lemma UnfinishedMonotone(q: Queue, i: nat, j: nat)
    requires Reachable(q) && |q.refs| <= MAX_REFS && |q.closed| <= i < j < |q.accepted|
    ensures q.accepted[i] in q.refs && q.accepted[j] in q.refs
    ensures q.accepted[i] in q.pos && q.accepted[j] in q.pos && q.pos[q.accepted[i]] <= q.pos[q.accepted[j]]
  {
    hide Reachable, Elements, Distinct, Early, Lag;
    UnfinishedInRefs(q, i);
    UnfinishedInRefs(q, j);
    FifoExactlyOnce(q);
    PositionsMonotone(q, i, j);
  }

  /** A capacity of up to a hundred ensures the first, one below it both. */
  lemma SmallCapacity(q: Queue)
    requires Reachable(q)
    ensures q.cap <= 100 ==> |q.chan| <= MAX_REFS
    ensures q.cap < 100 ==> |q.refs| <= MAX_REFS
  {
    FifoExactlyOnce(q);
    ReachableInv(q);
  }

  lemma UnfinishedInRefs(q: Queue, i: nat)
    requires Reachable(q) && |q.closed| <= i < |q.accepted|
    ensures q.accepted[i] in q.refs
  {
    FifoExactlyOnce(q);
    hide Reachable, InFlight;
    forall j | 0 <= j < |q.closed| ensures q.closed[j] != q.accepted[i] {
      assert q.closed[j] == q.accepted[j];
    }
  }

  /** Whatever the capacity, no position is ever too low; forgotten items keep theirs. */
  lemma PositionNeverTooLow(q: Queue, i: nat)
    requires Reachable(q) && i < |q.accepted|
    ensures q.accepted[i] in q.pos
    ensures q.pos[q.accepted[i]] >= ChannelIndex(q, i) + Lag(q) - Early(q.early, q.accepted[i])
  {
    hide Reachable, RingHolds, AllRefsHold, Distinct;
    ReachableInv(q);
    assert q.accepted[i] in Elements(q.accepted);
  }

  /** What a negative position tells an observer who looks an item up: it has finished, it is
      being handled, or it was pushed inside a window and is the next to be corrected for. */
  lemma NegativePosition(q: Queue, i: nat)
    requires Reachable(q) && Oldest(q.accepted) <= i < |q.accepted|
    ensures q.accepted[i] in q.pos
    ensures q.pos[q.accepted[i]] < 0
            <==> i < PopCount(q) || (i == PopCount(q) && q.accepted[i] in q.early)
    ensures q.accepted[i] in q.closed ==> q.pos[q.accepted[i]] < 0
  {
    hide Reachable;
    PositionExact(q, i);
    FifoExactlyOnce(q);
    if q.accepted[i] in q.closed {
      var j :| 0 <= j < |q.closed| && q.closed[j] == q.accepted[i];
      assert q.accepted[j] == q.closed[j];
    }
  }

  /** A negative position does not mean the item has been handled, or even received. */
  lemma NegativePositionWhileQueued()
    ensures exists q: Queue, id :: Reachable(q) && id in q.chan && id in q.pos && q.pos[id] < 0
  {
    hide Reachable, Fifo, RingHolds, AllRefsHold, Positions;
    var q0 := Init(10);
    InitReachable(10);
    var q1 := Step(q0, Push("a"));
    ReachableStep(q0, Push("a"));
    var q2 := Step(q1, Receive);
    ReachableStep(q1, Receive);
    var q3 := Step(q2, Push("b"));
    ReachableStep(q2, Push("b"));
    var q4 := Step(q3, Popped);
    ReachableStep(q3, Popped);
    assert q4.chan == ["b"] && q4.allRefs == {"a", "b"} && q4.pos["b"] == -1;
  }

  lemma InitReachable(cap: nat)
    ensures Reachable(Init(cap))
  {
    assert Run(cap, []) == Some(Init(cap));
  }

  lemma {:induction false} FreshId(s: seq<R11nID>) returns (id: R11nID)
    ensures forall x | x in s :: |x| < |id|
  {
    if s == [] {
      id := "x";
    } else {
      var rest := FreshId(s[1..]);
      id := rest + s[0] + "x";
    }
  }

  /** Pushers alone can fill the channel. */
  lemma {:induction false} PushMany(q: Queue, n: nat) returns (q': Queue)
    requires Reachable(q) && q.cap > 0 && |q.chan| + n <= q.cap
    ensures Reachable(q') && q'.cap == q.cap && q'.closed == q.closed && q'.consumer == q.consumer
    ensures |q'.chan| == |q.chan| + n
    ensures q.accepted <= q'.accepted && q.early <= q'.early
    ensures forall id | id in q.accepted && id in q.pos :: id in q'.pos && q'.pos[id] == q.pos[id]
  {
    hide Reachable, Inv, Remember;
    q' := q;
    if n > 0 {
      q' := PushMany(q, n - 1);
      var id := FreshId(q'.accepted);
      assert Enabled(q', Push(id));
      ReachableStep(q', Push(id));
      RingInBounds(q');
      q' := Step(q', Push(id));
    }
  }

  lemma RingInBounds(q: Queue)
    requires Reachable(q)
    ensures |q.ring| == MAX_REFS && q.cursor < MAX_REFS
  {
    ReachableInv(q);
  }

  /** For every capacity from a hundred on, some run leaves an unfinished item that ByID and
      Wait do not find: the bound in `UnfinishedFindable` is exact. */
  lemma UnfinishedLost(cap: nat) returns (q: Queue)
    requires cap >= MAX_REFS
    ensures Reachable(q) && q.cap == cap && !(q.refs <= q.allRefs)
  {
    hide Reachable, Inv, Remember;
    InitReachable(cap);
    q := PushMany(Init(cap), 1);
    RingInBounds(q);
    ReachableStep(q, Receive);
    q := Step(q, Receive);
    q := PushMany(q, MAX_REFS);
    FifoExactlyOnce(q);
    RingAgreesWithHistory(q);
    assert |q.refs| == MAX_REFS + 1 && |q.allRefs| == MAX_REFS;
    if q.refs <= q.allRefs {
      SubsetSize(q.refs, q.allRefs);
    }
  }

  /** Nor does Snapshot keep the order then: for every capacity from a hundred on, some run
      leaves an unfinished item with a higher position than one pushed after it. */
  lemma SnapshotInverted(cap: nat) returns (q: Queue)
    requires cap >= MAX_REFS
    ensures Reachable(q) && q.cap == cap && |q.accepted| >= 2 && q.accepted[0] in q.refs && q.accepted[1] in q.refs
    ensures q.accepted[0] in q.pos && q.accepted[1] in q.pos && q.pos[q.accepted[0]] > q.pos[q.accepted[1]]
  {
    hide Reachable, Inv, Remember, Elements, Distinct;
    InitReachable(cap);
    q := Init(cap);
    RingInBounds(q);
    ReachableStep(q, Push("x"));
    q := Step(q, Push("x"));
    RingInBounds(q);
    ReachableStep(q, Receive);
    q := Step(q, Receive);
    assert "xx" !in q.accepted by { assert q.accepted == ["x"] && |"xx"| != |"x"|; }
    ReachableStep(q, Push("xx"));
    q := Step(q, Push("xx"));
    assert q.accepted == ["x", "xx"] && q.pos["x"] == 0 && "xx" in q.early && q.consumer == Received("x");
    var full := PushMany(q, MAX_REFS - 1);
    RingInBounds(full);
    assert full.accepted[0] == "x" && full.accepted[1] == "xx" && "xx" in full.early && full.pos["x"] == 0;
    ReachableStep(full, Popped);
    q := Step(full, Popped);
    PoppedFields(full);
    FifoExactlyOnce(full);
    Forgotten(full, 0);
    assert q.pos["x"] == 0;
    PositionExact(q, 1);
    OldestUnfinished(q);
  }

  /** And for every larger capacity even an item still in the channel can have a position that
      is too high: the first bound in `SmallCapacity` is exact. */
  lemma QueuedPositionStale(cap: nat) returns (q: Queue)
    requires cap > MAX_REFS
    ensures Reachable(q) && q.cap == cap && |q.chan| > 0 && q.chan[0] in q.pos
    ensures q.pos[q.chan[0]] > 0 + Lag(q) - Early(q.early, q.chan[0])
  {
    hide Reachable, Inv, Remember, Elements, Distinct;
    InitReachable(cap);
    q := Init(cap);
    RingInBounds(q);
    ReachableStep(q, Push("x"));
    q := Step(q, Push("x"));
    assert "xx" !in q.accepted by { assert q.accepted == ["x"] && |"xx"| != |"x"|; }
    RingInBounds(q);
    ReachableStep(q, Push("xx"));
    q := Step(q, Push("xx"));
    assert q.accepted == ["x", "xx"] && q.chan == ["x", "xx"] && q.pos["xx"] == 1;
    RingInBounds(q);
    ReachableStep(q, Receive);
    q := Step(q, Receive);
    var full := PushMany(q, MAX_REFS);
    RingInBounds(full);
    assert full.accepted[1] == "xx" && full.pos["xx"] == 1 && full.consumer == Received("x");
    ReachableStep(full, Popped);
    q := Step(full, Popped);
    PoppedFields(full);
    FifoExactlyOnce(full);
    FifoExactlyOnce(q);
    Forgotten(full, 1);
    assert q.chan[0] == q.accepted[1] == "xx";
  }

  lemma Forgotten(q: Queue, i: nat)
    requires Reachable(q) && i < Oldest(q.accepted)
    ensures q.accepted[i] !in q.allRefs
  {
    hide Reachable;
    FifoExactlyOnce(q);
    RingAgreesWithHistory(q);
  }

  lemma OldestUnfinished(q: Queue)
    requires Reachable(q) && q.closed == [] && |q.accepted| >= 2
    ensures q.accepted[0] in q.refs && q.accepted[1] in q.refs
  {
    hide Reachable;
    FifoExactlyOnce(q);
  }

  lemma {:induction false} SubsetSize<T>(a: set<T>, b: set<T>)
    requires a <= b
    ensures |a| <= |b|
  {
    if a != {} {
      var x :| x in a;
      SubsetSize(a - {x}, b - {x});
    }
  }

  // ---------------------------------------------------------------- draining

  /** Running on from a state. */
  ghost function RunFrom(q: Queue, es: seq<Event>): (r: Option<Queue>)
    requires Inv(q)
    decreases |es|
  {
    if es == [] then Some(q)
    else if Enabled(q, es[0]) then
      StepInv(q, es[0]);
      RunFrom(Step(q, es[0]), es[1..])
    else None
  }

  predicate ByConsumer(es: seq<Event>) {
    forall e | e in es :: e.Receive? || e.Popped? || e.Finish?
  }

  /** Consumer steps still needed before everything accepted has finished. */
  function Remaining(q: Queue): nat {
    3 * |q.chan| + match q.consumer case Waiting => 0 case Handling(_) => 1 case Received(_) => 2
  }

  function NextStep(q: Queue): Event {
    if q.consumer.Handling? then Finish else if q.consumer.Received? then Popped else Receive
  }

  lemma ConsumerStep(q: Queue, e: Event)
    requires Inv(q) && Enabled(q, e) && ByConsumer([e])
    ensures Inv(Step(q, e)) && Remaining(Step(q, e)) == Remaining(q) - 1 && Step(q, e).accepted == q.accepted
  {
    StepInv(q, e);
    assert e in [e];
    PoppedFields(q);
    hide Inv, HandlePopped;
  }

  /** Running the consumer's steps uses up the remaining ones, and accepts nothing. */
  lemma {:induction false} ConsumerRuns(q: Queue, es: seq<Event>)
    requires Inv(q) && ByConsumer(es) && RunFrom(q, es).Some?
    ensures var q' := RunFrom(q, es).value;
            Inv(q') && |es| + Remaining(q') == Remaining(q) && q'.accepted == q.accepted
    decreases |es|
  {
    hide Step, Enabled, Inv, Remaining;
    if es != [] {
      assert es[0] in es && forall e | e in es[1..] :: e in es;
      QueueBounds(q);
      ConsumerStep(q, es[0]);
      ConsumerRuns(Step(q, es[0]), es[1..]);
    }
  }

  lemma {:induction false} ConsumerCanRun(q: Queue) returns (es: seq<Event>)
    requires Inv(q)
    ensures ByConsumer(es) && |es| == Remaining(q) && RunFrom(q, es).Some?
    decreases Remaining(q)
  {
    if Remaining(q) == 0 {
      es := [];
    } else {
      var e := NextStep(q);
      assert Enabled(q, e);
      ConsumerStep(q, e);
      QueueBounds(q);
      hide Step, Enabled, Inv, Remaining, NextStep;
      var rest := ConsumerCanRun(Step(q, e));
      es := [e] + rest;
      assert es[1..] == rest;
    }
  }

  lemma DrainedWhenNoneRemain(q: Queue)
    requires Inv(q) && Remaining(q) == 0
    ensures q.closed == q.accepted && q.chan == [] && q.refs == {}
  {}

  /** Waiting ends: if handlers return, the consumer's own steps, three for each queued item, run
      from any reachable state to one where everything accepted has finished. */
  lemma Drains(q: Queue) returns (es: seq<Event>)
    requires Reachable(q)
    ensures Inv(q) && ByConsumer(es) && |es| == Remaining(q) && RunFrom(q, es).Some?
    ensures var q' := RunFrom(q, es).value;
            q'.closed == q'.accepted == q.accepted && q'.chan == [] && q'.refs == {}
  {
    ReachableInv(q);
    hide Reachable, Inv, Remaining, RunFrom;
    es := ConsumerCanRun(q);
    ConsumerRuns(q, es);
    DrainedWhenNoneRemain(RunFrom(q, es).value);
  }

  lemma PoppedFields(q: Queue)
    ensures HandlePopped(q) == q.(pos := HandlePopped(q).pos)
  {}

  /** A closed `done` stays closed and in place; accepted items are never dropped or reordered. */
  lemma HistoryGrows(q: Queue, e: Event)
    requires Inv(q) && Enabled(q, e)
    ensures q.closed <= Step(q, e).closed && q.accepted <= Step(q, e).accepted
  {
    hide Fifo, RingHolds, AllRefsHold, Positions;
    assert |q.ring| == MAX_REFS && q.cursor < MAX_REFS by { QueueBounds(q); }
  }

  lemma QueueBounds(q: Queue)
    requires Inv(q)
    ensures |q.ring| == MAX_REFS && q.cursor < MAX_REFS
  {}
}
