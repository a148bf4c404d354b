/** lib/r11n_queue_set.go: one queue per deployment ID, created on first use. */
module R11nQueueSets {
  import opened Types
  import opened QueueModel
  import opened R11nQueues

  // ---------------------------------------------------------------- as a state machine

  type Queues = map<DeploymentID, Queue>

  datatype SetEvent = At(did: DeploymentID, event: Event)

  /** The queue an event for `did` meets: pushes create it, consumers only exist with it. */
  function QueueFor(cap: nat, s: Queues, did: DeploymentID): Queue {
    if did in s then s[did] else Init(cap)
  }

  predicate SetEnabled(cap: nat, s: Queues, e: SetEvent) {
    Enabled(QueueFor(cap, s, e.did), e.event)
  }

  function SetStep(cap: nat, s: Queues, e: SetEvent): Queues
    requires SetEnabled(cap, s, e)
    requires var q := QueueFor(cap, s, e.did); |q.ring| == MAX_REFS && q.cursor < MAX_REFS
  {
    s[e.did := Step(QueueFor(cap, s, e.did), e.event)]
  }

  ghost predicate SetInv(cap: nat, s: Queues) {
    forall did | did in s :: Inv(s[did]) && s[did].cap == cap
  }

  lemma QueueForInv(cap: nat, s: Queues, did: DeploymentID)
    requires SetInv(cap, s)
    ensures var q := QueueFor(cap, s, did); Inv(q) && q.cap == cap && |q.ring| == MAX_REFS && q.cursor < MAX_REFS
  {
    InitInv(cap);
    QueueBounds(QueueFor(cap, s, did));
  }

  lemma SetStepInv(cap: nat, s: Queues, e: SetEvent)
    requires SetInv(cap, s) && SetEnabled(cap, s, e)
    ensures var q := QueueFor(cap, s, e.did); |q.ring| == MAX_REFS && q.cursor < MAX_REFS
    ensures SetInv(cap, SetStep(cap, s, e))
  {
    QueueForInv(cap, s, e.did);
    StepInv(QueueFor(cap, s, e.did), e.event);
    hide Inv;
  }

  ghost function SetRun(cap: nat, es: seq<SetEvent>): (r: Option<Queues>)
    ensures r.Some? ==> SetInv(cap, r.value)
  {
    if es == [] then Some(map[])
    else
      var n := |es| - 1;
      var before := SetRun(cap, es[..n]);
      if before.Some? && SetEnabled(cap, before.value, es[n]) then
        SetStepInv(cap, before.value, es[n]);
        Some(SetStep(cap, before.value, es[n]))
      else None
  }

  /** The events of one deployment ID. */
  function Project(es: seq<SetEvent>, did: DeploymentID): seq<Event> {
    if es == [] then []
    else
      var n := |es| - 1;
      if es[n].did == did then Project(es[..n], did) + [es[n].event] else Project(es[..n], did)
  }

  /** Each queue of the set runs as if it were alone, on the events for its own ID. */
  lemma {:induction false} QueuesAreIndependent(cap: nat, es: seq<SetEvent>, did: DeploymentID)
    requires SetRun(cap, es).Some?
    ensures Run(cap, Project(es, did)) == Some(QueueFor(cap, SetRun(cap, es).value, did))
    ensures did in SetRun(cap, es).value <==> Project(es, did) != []
  {
    hide Step, Enabled, Inv, Init;
    if es != [] {
      var n := |es| - 1;
      QueuesAreIndependent(cap, es[..n], did);
      if es[n].did == did {
        var before := Project(es[..n], did);
        assert (before + [es[n].event])[..|before|] == before;
      }
    }
  }

  ghost predicate Executing(q: Queue, id: R11nID) {
    exists i :: 0 <= i < ReceivedCount(q) && i < |q.accepted| && q.accepted[i] == id && id !in q.closed
  }

  /** Across the set, at most one rectification per deployment ID has left its queue and not
      finished, and then everything accepted earlier for that ID has finished. */
  lemma Exclusion(cap: nat, es: seq<SetEvent>, did: DeploymentID, id: R11nID, other: R11nID)
    requires SetRun(cap, es).Some? && did in SetRun(cap, es).value
    requires Executing(SetRun(cap, es).value[did], id)
    ensures var q := SetRun(cap, es).value[did];
            && |q.closed| < |q.accepted| && id == q.accepted[|q.closed|] && q.accepted[..|q.closed|] == q.closed
            && (Executing(q, other) ==> other == id)
  {
    var q := SetRun(cap, es).value[did];
    SetReachable(cap, es, did);
    ExecutingIsNext(q, id);
    if Executing(q, other) { ExecutingIsNext(q, other); }
  }

  lemma SetReachable(cap: nat, es: seq<SetEvent>, did: DeploymentID)
    requires SetRun(cap, es).Some? && did in SetRun(cap, es).value
    ensures Reachable(SetRun(cap, es).value[did])
  {
    hide Inv, Run, SetRun;
    QueuesAreIndependent(cap, es, did);
  }

  lemma ExecutingIsNext(q: Queue, id: R11nID)
    requires Reachable(q) && Executing(q, id)
    ensures |q.closed| < |q.accepted| && id == q.accepted[|q.closed|] && q.accepted[..|q.closed|] == q.closed
  {
    hide Reachable, Elements;
    FifoExactlyOnce(q);
    var i :| 0 <= i < ReceivedCount(q) && i < |q.accepted| && q.accepted[i] == id && id !in q.closed;
    assert forall j | 0 <= j < |q.closed| :: q.accepted[j] == q.closed[j];
    assert i == |q.closed|;
  }

  // ---------------------------------------------------------------- the methods

  class R11nQueueSet {
    const cap: nat
    var queues: map<DeploymentID, R11nQueue>

    ghost predicate Separate()
      reads this
    {
      forall d, e | d in queues && e in queues && d != e ::
        queues[d] != queues[e] && queues[d].fifoRefs != queues[e].fifoRefs
    }

    ghost function Objects(): set<object>
      reads this
    {
      (set d | d in queues :: queues[d]) + (set d | d in queues :: queues[d].fifoRefs)
    }

    ghost predicate Valid()
      reads this, Objects()
    {
      Separate() && forall d | d in queues :: queues[d].Valid() && queues[d].cap == cap
    }

    /** The queue a push for `did` meets. */
    ghost function Abs(did: DeploymentID): Queue
      reads this, Objects()
    {
      if did in queues then queues[did].Abs() else Init(cap)
    }

    constructor (cap: nat)
      ensures Valid() && queues == map[] && this.cap == cap
    {
      this.cap, queues := cap, map[];
    }

    /** The queue for `did`, created if need be. */
    method QueueOf(did: DeploymentID) returns (queue: R11nQueue)
      requires Valid()
      modifies this`queues
      ensures Valid() && did in queues && queue == queues[did]
      ensures queue.Abs() == old(Abs(did))
      ensures did in old(queues) ==> queues == old(queues)
      ensures did !in old(queues) ==> fresh(queue) && fresh(queue.fifoRefs) && queues == old(queues)[did := queue]
    {
      hide R11nQueue.Valid, R11nQueue.Abs, Init;
      if did in queues {
        queue := queues[did];
      } else {
        queue := new R11nQueue(cap);
        queues := queues[did := queue];
      }
    }

    method Push(did: DeploymentID, id: R11nID) returns (qr: Option<QueuedR11n>)
      requires Valid() && id !in Abs(did).accepted
      modifies this`queues, Objects()
      ensures Valid() && queues.Keys == old(queues).Keys + {did}
      ensures Enabled(old(Abs(did)), Event.Push(id))
              && |old(Abs(did)).ring| == MAX_REFS && old(Abs(did)).cursor < MAX_REFS
      ensures Abs(did) == Step(old(Abs(did)), Event.Push(id))
      ensures forall d | d in old(queues) && d != did :: Abs(d) == old(Abs(d))
      ensures qr.Some? <==> PushAccepts(old(Abs(did)))
    {
      hide R11nQueue.Valid, R11nQueue.Abs, Step, Enabled, Init;
      var queue := QueueOf(did);
      queue.AbsFacts();
      qr := queue.Push(id);
    }

    method PushIfEmpty(did: DeploymentID, id: R11nID) returns (qr: Option<QueuedR11n>)
      requires Valid() && id !in Abs(did).accepted
      modifies this`queues, Objects()
      ensures Valid() && queues.Keys == old(queues).Keys + {did}
      ensures Enabled(old(Abs(did)), Event.PushIfEmpty(id))
              && |old(Abs(did)).ring| == MAX_REFS && old(Abs(did)).cursor < MAX_REFS
      ensures Abs(did) == Step(old(Abs(did)), Event.PushIfEmpty(id))
      ensures forall d | d in old(queues) && d != did :: Abs(d) == old(Abs(d))
      ensures qr.Some? <==> old(Abs(did)).closed == old(Abs(did)).accepted
    {
      hide R11nQueue.Valid, R11nQueue.Abs, Step, Enabled, Init;
      var queue := QueueOf(did);
      queue.AbsFacts();
      qr := queue.PushIfEmpty(id);
    }
  }
}
