/** lib/r11n_queue.go, method by method, each refining one step of the state machine. */
module R11nQueues {
  import opened Ordering
  import opened Types
  import opened QueueModel

  /** A queue item. Items live in the queue's `items`; a pointer to one is its ID. */
  datatype QueuedR11n = QueuedR11n(ID: R11nID, Pos: int, done: bool)

  datatype Entry = Entry(id: R11nID, pos: int)

  predicate PosLe(a: Entry, b: Entry) { a.pos <= b.pos }

  type Items = map<R11nID, QueuedR11n>

  ghost function PosOf(items: Items): map<R11nID, int> {
    map id | id in items :: items[id].Pos
  }

  /** Items are stored under their IDs, and `done` is closed on the finished ones. */
  ghost predicate ItemsOk(items: Items, closed: seq<R11nID>) {
    forall id | id in items :: items[id].ID == id && items[id].done == (id in closed)
  }

  lemma ItemsPushed(items: Items, closed: seq<R11nID>, id: R11nID, pos: int)
    requires ItemsOk(items, closed) && id !in closed
    ensures ItemsOk(items[id := QueuedR11n(id, pos, false)], closed)
    ensures PosOf(items[id := QueuedR11n(id, pos, false)]) == PosOf(items)[id := pos]
  {}

  function MovedUp(items: Items, ids: set<R11nID>): Items {
    map id | id in items :: if id in ids then items[id].(Pos := items[id].Pos - 1) else items[id]
  }

  lemma ItemsMovedUp(items: Items, closed: seq<R11nID>, ids: set<R11nID>)
    requires ItemsOk(items, closed)
    ensures ItemsOk(MovedUp(items, ids), closed) && MovedUp(items, ids).Keys == items.Keys
    ensures PosOf(MovedUp(items, ids))
            == map id | id in PosOf(items) :: if id in ids then PosOf(items)[id] - 1 else PosOf(items)[id]
  {}

  lemma ItemFinished(items: Items, closed: seq<R11nID>, id: R11nID)
    requires ItemsOk(items, closed) && id in items
    ensures ItemsOk(items[id := items[id].(done := true)], closed + [id])
    ensures PosOf(items[id := items[id].(done := true)]) == PosOf(items)
  {}

  /** The loop of `handlePopped`. */
  method MoveUp(items: Items, ids: set<R11nID>) returns (r: Items)
    requires ids <= items.Keys
    ensures r == MovedUp(items, ids)
  {
    r := items;
    var rest := ids;
    while rest != {}
      invariant rest <= ids && r.Keys == items.Keys
      invariant forall id | id in items ::
                  r[id] == if id in ids - rest then items[id].(Pos := items[id].Pos - 1) else items[id]
      decreases rest
    {
      var id :| id in rest;
      r := r[id := r[id].(Pos := r[id].Pos - 1)];
      rest := rest - {id};
    }
  }

  class R11nQueue {
    const cap: nat
    var queue: seq<R11nID>
    var refs: set<R11nID>
    var allRefs: set<R11nID>
    const fifoRefs: array<Option<R11nID>>
    var cursor: nat
    var consumer: Consumer
    var items: Items
    ghost var accepted: seq<R11nID>
    ghost var early: set<R11nID>
    ghost var closed: seq<R11nID>

    ghost predicate Coherent()
      reads this
    {
      refs + allRefs <= items.Keys && ItemsOk(items, closed)
    }

    ghost function Abs(): Queue
      reads this, fifoRefs
    {
      Queue(cap, queue, refs, allRefs, fifoRefs[..], cursor,
            PosOf(items), consumer, accepted, early, closed)
    }

    ghost predicate Valid()
      reads this, fifoRefs
    {
      Coherent() && Inv(Abs())
    }

    constructor (cap: nat)
      ensures Valid() && Abs() == Init(cap) && this.cap == cap && fresh(fifoRefs)
    {
      this.cap := cap;
      queue, refs, allRefs, cursor, consumer, items := [], {}, {}, 0, Waiting, map[];
      fifoRefs := new Option<R11nID>[MAX_REFS](_ => None);
      accepted, early, closed := [], {}, [];
      new;
      assert fifoRefs[..] == Init(cap).ring;
      InitInv(cap);
    }

    lemma AbsFacts()
      requires Valid()
      ensures Abs().accepted == accepted && Abs().closed == closed && Abs().cap == cap
              && |Abs().ring| == MAX_REFS && Abs().cursor < MAX_REFS
    {
      QueueBounds(Abs());
    }

    /** The new ID takes over the oldest slot, whose ID is forgotten. */
    method AdvanceRing(id: R11nID)
      requires fifoRefs.Length == MAX_REFS && cursor < MAX_REFS
      modifies this`cursor, this`allRefs, fifoRefs
      ensures Memory(fifoRefs[..], cursor, allRefs) == Remember(old(fifoRefs[..]), old(cursor), old(allRefs), id)
    {
      allRefs := allRefs + {id};
      cursor := (cursor + 1) % MAX_REFS;
      if fifoRefs[cursor].Some? {
        allRefs := allRefs - {fifoRefs[cursor].value};
      }
      fifoRefs[cursor] := Some(id);
    }

    /** `internalPush`: the caller holds the lock, and the send can complete. On an unbuffered
        channel the waiting consumer takes the item over. */
    method InternalPush(id: R11nID) returns (qr: QueuedR11n)
      requires fifoRefs.Length == MAX_REFS && cursor < MAX_REFS && id !in closed
      modifies this`queue, this`refs, this`allRefs, this`cursor, this`consumer,
               this`items, this`accepted, this`early, fifoRefs
      ensures qr == QueuedR11n(id, |old(queue)|, false)
      ensures items == old(items)[id := qr]
      ensures Memory(fifoRefs[..], cursor, allRefs) == Remember(old(fifoRefs[..]), old(cursor), old(allRefs), id)
      ensures refs == old(refs) + {id} && accepted == old(accepted) + [id]
      ensures early == if old(consumer).Received? then old(early) + {id} else old(early)
      ensures queue == if cap == 0 then old(queue) else old(queue) + [id]
      ensures consumer == if cap == 0 then Received(id) else old(consumer)
    {
      hide Remember;
      qr := QueuedR11n(id, |queue|, false);
      items := items[id := qr];
      refs := refs + {id};
      AdvanceRing(id);
      accepted, early := accepted + [id], if consumer.Received? then early + {id} else early;
      if cap == 0 {
        consumer := Received(id);
      } else {
        queue := queue + [id];
      }
    }

    /** A push that was admitted under the lock. */
    method AdmittedPush(id: R11nID) returns (qr: QueuedR11n)
      requires Valid() && id !in accepted && CanSend(Abs())
      modifies this`queue, this`refs, this`allRefs, this`cursor, this`consumer,
               this`items, this`accepted, this`early, fifoRefs
      ensures Valid() && |old(fifoRefs[..])| == MAX_REFS && old(cursor) < MAX_REFS
      ensures Abs() == QueueModel.InternalPush(old(Abs()), id)
      ensures qr == QueuedR11n(id, |old(queue)|, false) == items[id]
    {
      PushInv(Abs(), id);
      QueueBounds(Abs());
      NotClosed(Abs(), id);
      ItemsPushed(items, closed, id, |queue|);
      hide Inv, Remember, PosOf, ItemsOk, CanSend;
      ghost var want := QueueModel.InternalPush(Abs(), id);
      PushedFields(Abs(), id);
      hide QueueModel.InternalPush;
      qr := InternalPush(id);
      assert Abs() == want;
    }

    method Push(id: R11nID) returns (qr: Option<QueuedR11n>)
      requires Valid() && id !in accepted
      modifies this, fifoRefs
      ensures Valid() && Enabled(old(Abs()), QueueModel.Push(id))
      ensures |old(fifoRefs[..])| == MAX_REFS && old(cursor) < MAX_REFS
      ensures Abs() == Step(old(Abs()), QueueModel.Push(id))
      ensures qr == if PushAccepts(old(Abs())) then Some(QueuedR11n(id, |old(queue)|, false)) else None
    {
      PushNeverBlocks(Abs());
      QueueBounds(Abs());
      hide Inv;
      if |queue| == cap {
        return None;
      }
      var pushed := AdmittedPush(id);
      qr := Some(pushed);
    }

    method PushIfEmpty(id: R11nID) returns (qr: Option<QueuedR11n>)
      requires Valid() && id !in accepted
      modifies this, fifoRefs
      ensures Valid() && Enabled(old(Abs()), QueueModel.PushIfEmpty(id))
      ensures |old(fifoRefs[..])| == MAX_REFS && old(cursor) < MAX_REFS
      ensures Abs() == Step(old(Abs()), QueueModel.PushIfEmpty(id))
      ensures qr == if old(accepted) == old(closed) then Some(QueuedR11n(id, |old(queue)|, false)) else None
    {
      PushNeverBlocks(Abs());
      QueueBounds(Abs());
      EmptyMeansFinished(Abs());
      hide Inv;
      if |refs| != 0 {
        return None;
      }
      var pushed := AdmittedPush(id);
      qr := Some(pushed);
    }

    /** The receive in `next`, made without the lock. */
    method Receive() returns (id: R11nID)
      requires Valid() && Enabled(Abs(), QueueModel.Receive)
      modifies this
      ensures Valid() && |old(fifoRefs[..])| == MAX_REFS && old(cursor) < MAX_REFS
      ensures Abs() == Step(old(Abs()), QueueModel.Receive)
      ensures id == old(queue)[0]
    {
      ReceiveInv(Abs());
      QueueBounds(Abs());
      hide Inv;
      id := queue[0];
      queue, consumer := queue[1..], Received(id);
    }

    /** `handlePopped`: every item still in `allRefs` moves up by one. */
    method HandlePopped()
      requires Valid() && consumer.Received?
      modifies this
      ensures Valid() && |old(fifoRefs[..])| == MAX_REFS && old(cursor) < MAX_REFS
      ensures Abs() == Step(old(Abs()), Popped)
    {
      PoppedInv(Abs());
      QueueBounds(Abs());
      ItemsMovedUp(items, closed, allRefs);
      hide Inv, PosOf, ItemsOk, MovedUp;
      items := MoveUp(items, allRefs);
      consumer := Handling(consumer.id);
      assert Abs() == Step(old(Abs()), Popped);
    }

    /** What the consumer does once the handler has returned. */
    method Finish()
      requires Valid() && consumer.Handling?
      modifies this
      ensures Valid() && |old(fifoRefs[..])| == MAX_REFS && old(cursor) < MAX_REFS
      ensures Abs() == Step(old(Abs()), QueueModel.Finish)
    {
      FinishInv(Abs());
      QueueBounds(Abs());
      InFlightOpen(Abs());
      ItemFinished(items, closed, consumer.id);
      var qr := items[consumer.id];
      assert !qr.done && qr.ID == consumer.id;   // closing a closed channel would panic
      hide Inv, PosOf, ItemsOk;
      items := items[qr.ID := qr.(done := true)];
      refs := refs - {qr.ID};
      closed := closed + [qr.ID];
      consumer := Waiting;
      assert Abs() == Step(old(Abs()), QueueModel.Finish);
    }

    method ByID(id: R11nID) returns (qr: Option<QueuedR11n>)
      requires Valid()
      ensures qr.Some? <==> id in Abs().allRefs
      ensures qr.Some? ==> qr.value.Pos == Abs().pos[id] && (qr.value.done <==> id in Abs().closed)
    {
      hide Inv;
      qr := if id in allRefs then Some(items[id]) else None;
    }

    /** The unfinished items, by position. */
    method Snapshot() returns (snapshot: seq<Entry>)
      requires Valid()
      ensures forall i, j | 0 <= i < j < |snapshot| :: snapshot[i].pos <= snapshot[j].pos
      ensures forall e :: e in snapshot <==> e.id in Abs().refs && e.id in Abs().pos && e.pos == Abs().pos[e.id]
      ensures |snapshot| == |Abs().refs|
    {
      hide Inv, ItemsOk;
      var unsorted := Entries(items, refs);
      SortSorted(PosLe, unsorted);
      snapshot := Sort(PosLe, unsorted);
      SameElements(unsorted, snapshot);
    }
  }

  /** While at most a hundred items are unfinished, what a snapshot lists is in the order of the
      pushes, but for items of equal position. */
  lemma SnapshotInPushOrder(q: Queue, snapshot: seq<Entry>, i: nat, j: nat, a: nat, b: nat)
    requires Reachable(q) && |q.refs| <= 100
    requires forall i, j | 0 <= i < j < |snapshot| :: snapshot[i].pos <= snapshot[j].pos
    requires forall e | e in snapshot :: e.id in q.refs && e.id in q.pos && e.pos == q.pos[e.id]
    requires i < j < |snapshot| && b < a < |q.accepted|
    requires q.accepted[a] == snapshot[i].id && q.accepted[b] == snapshot[j].id
    ensures snapshot[i].pos == snapshot[j].pos
  {
    assert snapshot[i] in snapshot && snapshot[j] in snapshot;
    hide Reachable, Elements;
    FifoExactlyOnce(q);
    NotFinished(q, b);
    UnfinishedMonotone(q, b, a);
  }

  lemma NotFinished(q: Queue, b: nat)
    requires Reachable(q) && b < |q.accepted| && q.accepted[b] in q.refs
    ensures b >= |q.closed|
  {
    FifoExactlyOnce(q);
    hide Reachable, InFlight;
    assert forall k | 0 <= k < |q.closed| :: q.closed[k] == q.accepted[k] && q.closed[k] in Elements(q.closed);
  }

  method Entries(items: Items, refs: set<R11nID>) returns (entries: seq<Entry>)
    requires refs <= items.Keys
    ensures forall e :: e in entries <==> e.id in refs && e.pos == items[e.id].Pos
    ensures |entries| == |refs|
  {
    entries := [];
    var keys := refs;
    while keys != {}
      invariant keys <= refs
      invariant forall e :: e in entries <==> e.id in refs - keys && e.pos == items[e.id].Pos
      invariant |entries| == |refs - keys|
      decreases keys
    {
      var id :| id in keys;
      assert refs - (keys - {id}) == (refs - keys) + {id};
      entries := entries + [Entry(id, items[id].Pos)];
      keys := keys - {id};
    }
    assert refs - keys == refs;
  }

  lemma SameElements<T>(s: seq<T>, t: seq<T>)
    requires multiset(s) == multiset(t)
    ensures |s| == |t| && forall x :: x in s <==> x in t
  {
    assert |s| == |multiset(s)| == |multiset(t)| == |t|;
    forall x ensures x in s <==> x in t {
      assert x in s <==> x in multiset(s);
      assert x in t <==> x in multiset(t);
    }
  }

  lemma PushedFields(q: Queue, id: R11nID)
    requires |q.ring| == MAX_REFS && q.cursor < MAX_REFS
    ensures var m := Remember(q.ring, q.cursor, q.allRefs, id);
            QueueModel.InternalPush(q, id)
            == Queue(q.cap, if q.cap == 0 then q.chan else q.chan + [id], q.refs + {id}, m.allRefs, m.ring, m.cursor,
                     q.pos[id := |q.chan|], if q.cap == 0 then Received(id) else q.consumer,
                     q.accepted + [id], if q.consumer.Received? then q.early + {id} else q.early, q.closed)
  {}

  lemma NotClosed(q: Queue, id: R11nID)
    requires Inv(q) && id !in q.accepted
    ensures id !in q.closed && id !in q.pos
  {
    hide RingHolds, AllRefsHold;
    forall i | 0 <= i < |q.closed| ensures q.closed[i] in q.accepted {
      assert q.accepted[i] == q.closed[i];
    }
  }

  /** The item being handled has not been finished before. */
  lemma InFlightOpen(q: Queue)
    requires Inv(q) && !q.consumer.Waiting?
    ensures q.consumer.id !in q.closed && q.consumer.id in q.refs && q.consumer.id in q.pos
  {
    hide RingHolds, AllRefsHold;
    var f := |q.closed|;
    assert q.accepted[f] == q.consumer.id;
    assert (InFlight(q.consumer) + q.chan)[0] == q.consumer.id;
    forall i | 0 <= i < f ensures q.closed[i] != q.consumer.id {
      assert q.accepted[i] == q.closed[i];
    }
  }

  lemma EmptyMeansFinished(q: Queue)
    requires Inv(q)
    ensures PushIfEmptyAccepts(q) <==> q.closed == q.accepted
  {
    hide RingHolds, AllRefsHold, Positions, Distinct;
    ElementsEmpty(InFlight(q.consumer) + q.chan);
    if q.closed == q.accepted {
      assert |q.closed| == |q.closed| + |InFlight(q.consumer)| + |q.chan|;
    }
  }
}
