/** lib/pipeline.go: two segments in a row, running at once, the second fed by the first. */
module PipelineChain {
  import opened Types
  import opened Pipeline

  /** Nothing is in transit between the two but what is buffered in the first one's outputs. */
  datatype Chain<P, R> = Chain(first: Segment<P, R>, second: Segment<P, R>)

  datatype ChainEvent =
    | First(e: Event)
    | Second(e: Event)
    | PassPair           // the second segment receives a pair from the first
    | PassErr
    | CancelBoth         // the two share a context

  ghost predicate ChainEnabled<P, R>(c: Chain<P, R>, e: ChainEvent) {
    match e
    case First(e) => Enabled(c.first, e) && !e.TakePair? && !e.TakeErr? && !e.Cancel?
    case Second(e) =>
      && Enabled(c.second, e) && !e.Cancel?
      && (e == Work(PairsEnd) ==> c.first.pairsClosed && c.first.pairs == [])
      && (e == Merge(ErrsEnd) ==> c.first.errsClosed && c.first.errs == [])
    case PassPair => c.first.pairs != [] && c.second.worker.Selecting?
    case PassErr => c.first.errs != [] && c.second.merger.Merging? && !c.second.upstreamNil
    case CancelBoth => !c.first.cancelled && !c.second.cancelled
  }

  ghost function ChainStep<P, R>(p: P -> Processed<P, R>, q: P -> Processed<P, R>, c: Chain<P, R>,
                                 e: ChainEvent): Chain<P, R>
    requires ChainEnabled(c, e)
  {
    match e
    case First(e) => c.(first := Step(p, c.first, e))
    case Second(e) => c.(second := Step(q, c.second, e))
    case PassPair =>
      Chain(Step(p, c.first, TakePair), Step(q, c.second.(inPairs := [c.first.pairs[0]]), Work(ReceivePair)))
    case PassErr =>
      Chain(Step(p, c.first, TakeErr), Step(q, c.second.(inErrs := [c.first.errs[0].rez]), Merge(ReceiveErr)))
    case CancelBoth => Chain(Step(p, c.first, Cancel), Step(q, c.second, Cancel))
  }

  /** The errors as they travel, without their origin. */
  function Rezs<R>(errs: seq<Tagged<R>>): seq<R> {
    if errs == [] then [] else Rezs(errs[..|errs| - 1]) + [errs[|errs| - 1].rez]
  }

  lemma RezsSnoc<R>(errs: seq<Tagged<R>>, t: Tagged<R>)
    ensures Rezs(errs + [t]) == Rezs(errs) + [t.rez]
  {
    assert (errs + [t])[..|errs|] == errs;
  }

  // ---------------------------------------------------------------- the invariant

  /** The second segment ends its input only when the first has closed and emptied its outputs. */
  ghost predicate Linked<P, R>(c: Chain<P, R>) {
    && c.second.inPairs == [] && c.second.inErrs == []
    && c.first.cancelled == c.second.cancelled
    && (!c.second.cancelled && WorkerStage(c.second.worker) > 0 ==> c.first.pairsClosed && c.first.pairs == [])
    && (c.second.upstreamNil ==> c.first.errsClosed && c.first.errs == [])
  }

  ghost predicate ChainInv<P, R>(p: P -> Processed<P, R>, q: P -> Processed<P, R>, pairs: seq<P>, errs: seq<R>,
                                 c: Chain<P, R>) {
    && Inv(p, pairs, errs, c.first)
    && Inv(q, c.first.gotPairs, Rezs(c.first.gotErrs), c.second)
    && Linked(c)
  }

  /** What the steps of a segment leave alone towards its consumer... */
  ghost predicate OutputStays<P, R>(s: Segment<P, R>, s': Segment<P, R>) {
    && s'.gotPairs == s.gotPairs && s'.gotErrs == s.gotErrs && s'.cancelled == s.cancelled
    && (s.pairsClosed && s.pairs == [] ==> s'.pairsClosed && s'.pairs == [])
    && (s.errsClosed && s.errs == [] ==> s'.errsClosed && s'.errs == [])
  }

  lemma WorkOutput<P, R>(p: P -> Processed<P, R>, s: Segment<P, R>, e: WorkerEvent)
    requires WorkEnabled(s, e) && ClosedInOrder(s)
    ensures OutputStays(s, WorkStep(p, s, e))
  {}

  lemma MergeOutput<P, R>(s: Segment<P, R>, e: MergerEvent)
    requires MergeEnabled(s, e) && ClosedInOrder(s)
    ensures OutputStays(s, MergeStep(s, e))
  {}

  lemma FirstAlone<P, R>(p: P -> Processed<P, R>, s: Segment<P, R>, e: Event)
    requires Enabled(s, e) && !e.TakePair? && !e.TakeErr? && !e.Cancel? && ClosedInOrder(s)
    ensures OutputStays(s, Step(p, s, e))
  {
    hide OutputStays, WorkStep, MergeStep, WorkEnabled, MergeEnabled, ClosedInOrder;
    match e
    case Work(w) => WorkOutput(p, s, w);
    case Merge(m) => MergeOutput(s, m);
  }

  /** ... and towards its supplier, when it has received all that was sent. */
  ghost predicate InputStays<P, R>(s: Segment<P, R>, s': Segment<P, R>, e: Event) {
    && s'.inPairs == [] && s'.inErrs == [] && s'.cancelled == s.cancelled
    && (!s.cancelled && WorkerStage(s'.worker) > 0 ==> WorkerStage(s.worker) > 0 || e == Work(PairsEnd))
    && (s'.upstreamNil ==> s.upstreamNil || e == Merge(ErrsEnd))
  }

  lemma WorkInput<P, R>(q: P -> Processed<P, R>, s: Segment<P, R>, e: WorkerEvent)
    requires WorkEnabled(s, e) && s.inPairs == [] && s.inErrs == []
    ensures InputStays(s, WorkStep(q, s, e), Work(e))
  {}

  lemma MergeInput<P, R>(s: Segment<P, R>, e: MergerEvent)
    requires MergeEnabled(s, e) && s.inPairs == [] && s.inErrs == []
    ensures InputStays(s, MergeStep(s, e), Merge(e))
  {
    hide WorkerStage;
  }

  lemma SecondAlone<P, R>(q: P -> Processed<P, R>, s: Segment<P, R>, e: Event)
    requires Enabled(s, e) && !e.Cancel? && s.inPairs == [] && s.inErrs == []
    ensures InputStays(s, Step(q, s, e), e)
  {
    hide WorkStep, MergeStep, WorkEnabled, MergeEnabled;
    match e
    case Work(w) => WorkInput(q, s, w);
    case Merge(m) => MergeInput(s, m);
    case _ =>
  }

  lemma PairArrives<P, R>(q: P -> Processed<P, R>, pairs: seq<P>, errs: seq<R>, s: Segment<P, R>, x: P)
    requires Inv(q, pairs, errs, s) && s.worker.Selecting? && s.inPairs == []
    ensures Inv(q, pairs + [x], errs, s.(inPairs := [x]))
  {
    assert s.consumed == pairs;
    assert Merged(s.(inPairs := [x])) == Merged(s);
    hide From, PairsOf, ErrsOf;
  }

  lemma ErrArrives<P, R>(q: P -> Processed<P, R>, pairs: seq<P>, errs: seq<R>, s: Segment<P, R>, x: R)
    requires Inv(q, pairs, errs, s) && s.merger.Merging? && !s.upstreamNil && s.inErrs == []
    ensures Inv(q, pairs, errs + [x], s.(inErrs := [x]))
  {
    assert s.relayed == errs;
    assert Merged(s.(inErrs := [x])) == Merged(s);
    hide From, PairsOf, ErrsOf;
  }

  lemma PassPairKeeps<P, R>(p: P -> Processed<P, R>, q: P -> Processed<P, R>, pairs: seq<P>, errs: seq<R>, c: Chain<P,
                            R>)
    requires ChainInv(p, q, pairs, errs, c) && ChainEnabled(c, PassPair)
    ensures ChainInv(p, q, pairs, errs, ChainStep(p, q, c, PassPair))
  {
    var x := c.first.pairs[0];
    var fed := c.second.(inPairs := [x]);
    StepKeeps(p, pairs, errs, c.first, TakePair);
    PairArrives(q, c.first.gotPairs, Rezs(c.first.gotErrs), c.second, x);
    StepKeeps(q, c.first.gotPairs + [x], Rezs(c.first.gotErrs), fed, Work(ReceivePair));
    hide Inv;
  }

  lemma PassErrKeeps<P, R>(p: P -> Processed<P, R>, q: P -> Processed<P, R>, pairs: seq<P>, errs: seq<R>, c: Chain<P,
                           R>)
    requires ChainInv(p, q, pairs, errs, c) && ChainEnabled(c, PassErr)
    ensures ChainInv(p, q, pairs, errs, ChainStep(p, q, c, PassErr))
  {
    var x := c.first.errs[0];
    var fed := c.second.(inErrs := [x.rez]);
    StepKeeps(p, pairs, errs, c.first, TakeErr);
    ErrArrives(q, c.first.gotPairs, Rezs(c.first.gotErrs), c.second, x.rez);
    StepKeeps(q, c.first.gotPairs, Rezs(c.first.gotErrs) + [x.rez], fed, Merge(ReceiveErr));
    RezsSnoc(c.first.gotErrs, x);
    hide Inv, Rezs;
  }

  lemma ChainStepKeeps<P, R>(p: P -> Processed<P, R>, q: P -> Processed<P, R>, pairs: seq<P>, errs: seq<R>,
                             c: Chain<P, R>, e: ChainEvent)
    requires ChainInv(p, q, pairs, errs, c) && ChainEnabled(c, e)
    ensures ChainInv(p, q, pairs, errs, ChainStep(p, q, c, e))
  {
    match e
    case PassPair => PassPairKeeps(p, q, pairs, errs, c);
    case PassErr => PassErrKeeps(p, q, pairs, errs, c);
    case First(e) =>
      FirstAlone(p, c.first, e);
      StepKeeps(p, pairs, errs, c.first, e);
      hide Inv, Step, Enabled, Rezs;
    case Second(e) =>
      SecondAlone(q, c.second, e);
      StepKeeps(q, c.first.gotPairs, Rezs(c.first.gotErrs), c.second, e);
      hide Inv, Step, Enabled, Rezs;
    case CancelBoth =>
      StepKeeps(p, pairs, errs, c.first, Cancel);
      StepKeeps(q, c.first.gotPairs, Rezs(c.first.gotErrs), c.second, Cancel);
      hide Inv, Rezs;
  }

  // ---------------------------------------------------------------- runs

  ghost function ChainInit<P, R>(pairs: seq<P>, errs: seq<R>): Chain<P, R> {
    Chain(Init(pairs, errs), Init([], []))
  }

  ghost function ChainRun<P, R>(p: P -> Processed<P, R>, q: P -> Processed<P, R>, pairs: seq<P>, errs: seq<R>,
                                es: seq<ChainEvent>): Option<Chain<P, R>> {
    if es == [] then Some(ChainInit(pairs, errs))
    else
      var before := ChainRun(p, q, pairs, errs, es[..|es| - 1]);
      if before.Some? && ChainEnabled(before.value, es[|es| - 1])
      then Some(ChainStep(p, q, before.value, es[|es| - 1])) else None
  }

  lemma {:induction false} ChainRunKeeps<P, R>(p: P -> Processed<P, R>, q: P -> Processed<P, R>, pairs: seq<P>,
                                               errs: seq<R>, es: seq<ChainEvent>)
    requires ChainRun(p, q, pairs, errs, es).Some?
    ensures ChainInv(p, q, pairs, errs, ChainRun(p, q, pairs, errs, es).value)
  {
    if es == [] {
      RunKeeps(p, pairs, errs, []);
      RunKeeps(q, [], [], []);
    } else {
      hide ChainInv, ChainStep, ChainEnabled;
      var n := |es| - 1;
      ChainRunKeeps(p, q, pairs, errs, es[..n]);
      ChainStepKeeps(p, q, pairs, errs, ChainRun(p, q, pairs, errs, es[..n]).value, es[n]);
    }
  }

  /** In every reachable state, cancelled or not, what has come out of the second segment is a
      prefix of what is owed, and its upstream errors are what came out of the first. */
  lemma ChainReceivedSoFar<P, R>(p: P -> Processed<P, R>, q: P -> Processed<P, R>, pairs: seq<P>, errs: seq<R>,
                                 es: seq<ChainEvent>)
    requires ChainRun(p, q, pairs, errs, es).Some?
    ensures var c := ChainRun(p, q, pairs, errs, es).value;
            && c.second.gotPairs <= PairsOf(q, PairsOf(p, pairs))
            && From(c.second.gotErrs, Local) <= ErrsOf(q, PairsOf(p, pairs))
            && From(c.second.gotErrs, Upstream) <= Rezs(c.first.gotErrs)
            && From(c.first.gotErrs, Local) <= ErrsOf(p, pairs)
            && From(c.first.gotErrs, Upstream) <= errs
  {
    var c := ChainRun(p, q, pairs, errs, es).value;
    ChainRunKeeps(p, q, pairs, errs, es);
    InvReceived(p, pairs, errs, c.first);
    InvReceived(q, c.first.gotPairs, Rezs(c.first.gotErrs), c.second);
    hide *;
    var (got, owed) := (c.first.gotPairs, PairsOf(p, pairs));
    assert owed == got + owed[|got|..];
    ProcessedConcat(q, got, owed[|got|..]);
  }

  /** When the second segment has finished, uncancelled, so has the first; every pair that both
      pass on has come out in input order, and every error of the input, of the first and of the
      second segment once, each kind in its own order. */
  lemma TwoInARow<P, R>(p: P -> Processed<P, R>, q: P -> Processed<P, R>, pairs: seq<P>, errs: seq<R>,
                        es: seq<ChainEvent>)
    requires ChainRun(p, q, pairs, errs, es).Some?
    requires var c := ChainRun(p, q, pairs, errs, es).value; Finished(c.second) && !c.second.cancelled
    ensures var c := ChainRun(p, q, pairs, errs, es).value;
            && Finished(c.first)
            && c.second.gotPairs == PairsOf(q, PairsOf(p, pairs))
            && From(c.second.gotErrs, Local) == ErrsOf(q, PairsOf(p, pairs))
            && From(c.second.gotErrs, Upstream) == Rezs(c.first.gotErrs)
            && From(c.first.gotErrs, Local) == ErrsOf(p, pairs)
            && From(c.first.gotErrs, Upstream) == errs
  {
    var c := ChainRun(p, q, pairs, errs, es).value;
    ChainRunKeeps(p, q, pairs, errs, es);
    FinishedTogether(c, p, q, pairs, errs);
    InvFinished(p, pairs, errs, c.first);
    InvFinished(q, c.first.gotPairs, Rezs(c.first.gotErrs), c.second);
    hide *;
  }

  lemma FinishedTogether<P, R>(c: Chain<P, R>, p: P -> Processed<P, R>, q: P -> Processed<P, R>, pairs: seq<P>,
                               errs: seq<R>)
    requires ChainInv(p, q, pairs, errs, c) && Finished(c.second) && !c.second.cancelled
    ensures Finished(c.first) && !c.first.cancelled
  {
    hide Conserved, HandledTwice, From, PairsOf, ErrsOf, Rezs;
  }

  // ---------------------------------------------------------------- termination

  ghost function ChainMeasure<P, R>(c: Chain<P, R>): nat { 6 * Measure(c.first) + Measure(c.second) }

  lemma ChainDescends<P, R>(p: P -> Processed<P, R>, q: P -> Processed<P, R>, c: Chain<P, R>, e: ChainEvent)
    requires ChainEnabled(c, e) && c.second.inPairs == [] && c.second.inErrs == []
    ensures ChainMeasure(ChainStep(p, q, c, e)) < ChainMeasure(c)
  {
    match e
    case First(e) => StepDescends(p, c.first, e);
    case Second(e) => StepDescends(q, c.second, e);
    case PassPair =>
      var fed := c.second.(inPairs := [c.first.pairs[0]]);
      StepDescends(p, c.first, TakePair);
      StepDescends(q, fed, Work(ReceivePair));
      assert Measure(fed) == Measure(c.second) + 6;
      hide Measure, Step, Enabled;
    case PassErr =>
      var fed := c.second.(inErrs := [c.first.errs[0].rez]);
      StepDescends(p, c.first, TakeErr);
      StepDescends(q, fed, Merge(ReceiveErr));
      assert Measure(fed) == Measure(c.second) + 3;
      hide Measure, Step, Enabled;
    case CancelBoth =>
      StepDescends(p, c.first, Cancel);
      StepDescends(q, c.second, Cancel);
  }

  /** Every run of the chain is finite. */
  lemma {:induction false} ChainRunsTerminate<P, R>(p: P -> Processed<P, R>, q: P -> Processed<P, R>, pairs: seq<P>,
                                                    errs: seq<R>, es: seq<ChainEvent>)
    requires ChainRun(p, q, pairs, errs, es).Some?
    ensures |es| + ChainMeasure(ChainRun(p, q, pairs, errs, es).value) <= 36 * |pairs| + 18 * |errs| + 70
  {
    if es == [] {
      assert Measure(Init(pairs, errs)) == 6 * |pairs| + 3 * |errs| + 10;
      assert Measure(Init<P, R>([], [])) == 10;
    } else {
      var n := |es| - 1;
      ChainRunsTerminate(p, q, pairs, errs, es[..n]);
      ChainRunKeeps(p, q, pairs, errs, es[..n]);
      var c := ChainRun(p, q, pairs, errs, es[..n]).value;
      assert c.second.inPairs == [] && c.second.inErrs == [] by { hide Inv; }
      hide ChainInv, ChainStep, ChainEnabled, ChainMeasure;
      ChainDescends(p, q, c, es[n]);
    }
  }

  // ---------------------------------------------------------------- progress

  /** What the second segment can do, or else that it waits for the first. */
  lemma SecondProgress<P, R>(c: Chain<P, R>) returns (e: Option<ChainEvent>)
    requires ClosedInOrder(c.first) && ClosedInOrder(c.second) && Linked(c)
    requires !Finished(c.second) && !c.second.cancelled
    ensures e.Some? ==> ChainEnabled(c, e.value) && e.value != CancelBoth
    ensures e.None? ==> c.first.pairs == [] && c.first.errs == [] && !Finished(c.first)
  {
    var s := c.second;
    if s.pairs != [] { return Some(Second(TakePair)); }
    if s.errs != [] { return Some(Second(TakeErr)); }
    match s.merger {
      case Forwarding(_) => return Some(Second(Merge(PutErr)));
      case MergerLeaving => return Some(Second(Merge(MergerDone)));
      case ClosingOut => return Some(Second(Merge(CloseErrs)));
      case _ =>
    }
    match s.worker {
      case SendingErr(_, _) => return Some(Second(Work(HandError)));
      case SendingPair(_) => return Some(Second(Work(PutPair)));
      case Leaving => return Some(Second(Work(WorkerDone)));
      case ClosingErrs => return Some(Second(Work(CloseTrans)));
      case ClosingPairs => return Some(Second(Work(ClosePairs)));
      case _ =>
    }
    if s.worker.Selecting? {
      if c.first.pairs != [] { return Some(PassPair); }
      if c.first.pairsClosed { return Some(Second(Work(PairsEnd))); }
    }
    if s.merger.Merging? && !s.upstreamNil {
      if c.first.errs != [] { return Some(PassErr); }
      if c.first.errsClosed { return Some(Second(Merge(ErrsEnd))); }
    }
    if s.worker.Gone? && s.merger.Merging? && s.upstreamNil {
      return Some(Second(Merge(if s.localNil then MergerEnd else LocalEnd)));
    }
    e := None;
  }

  /** Until the second segment has finished, some event other than a cancellation is possible:
      with `ChainRunsTerminate`, every uncancelled run ends as `TwoInARow` says. */
  lemma ChainProgress<P, R>(c: Chain<P, R>) returns (e: ChainEvent)
    requires ClosedInOrder(c.first) && ClosedInOrder(c.second) && Linked(c)
    requires !Finished(c.second) && !c.second.cancelled
    ensures ChainEnabled(c, e) && e != CancelBoth
  {
    var second := SecondProgress(c);
    if second.Some? {
      return second.value;
    }
    hide ClosedInOrder;
    if Stranded(c.first) {
      StrandedOnlyByCancelling(c.first);
    }
    var first := Progress(c.first);
    e := First(first);
  }
}
