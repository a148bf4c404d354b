/** lib/pipeline.go as a state machine: one segment, its two goroutines, and the channels
    between its neighbours. */
module Pipeline {
  import opened Types

  /** What a processor makes of a pair: a pair to pass on, an error, both or neither. */
  datatype Processed<P, R> = Processed(pair: Option<P>, rez: Option<R>)

  datatype Origin = Upstream | Local

  datatype Tagged<R> = Tagged(origin: Origin, rez: R)

  /** The goroutine that processes pairs. On its way out it leaves the wait group, closes
      transErrs and closes the output pairs, in this order. */
  datatype Worker<P, R> =
    | Selecting
    | SendingErr(rez: R, next: Option<P>)
    | SendingPair(pair: P)
    | Leaving
    | ClosingErrs
    | ClosingPairs
    | Gone

  /** The goroutine that merges the errors. */
  datatype Merger<R> = Merging | Forwarding(err: Tagged<R>) | MergerLeaving | ClosingOut | MergerGone

  datatype Segment<P, R> = Segment(
    inPairs: seq<P>,            // still to come from upstream, which then closes the channel
    inErrs: seq<R>,
    worker: Worker<P, R>,
    merger: Merger<R>,
    upstreamNil: bool,
    localNil: bool,
    transClosed: bool,
    pairsClosed: bool,
    errsClosed: bool,
    waiting: int,               // the wait group
    pairs: seq<P>,              // buffer of the output pairs
    errs: seq<Tagged<R>>,       // buffer of the output errors
    cancelled: bool,
    consumed: seq<P>,           // history: pairs received
    relayed: seq<R>,            // history: upstream errors received
    gotPairs: seq<P>,           // history: pairs the consumer took
    gotErrs: seq<Tagged<R>>,    // history: errors the consumer took
    handled: seq<Tagged<R>>)    // history: calls of HandleResolution

  datatype WorkerEvent = ReceivePair | PairsEnd | HandError | PutPair
    | WorkerDone | CloseTrans | ClosePairs | WorkerCancelled

  datatype MergerEvent = ReceiveErr | ErrsEnd | LocalEnd | PutErr | MergerEnd | MergerDone | CloseErrs | MergerCancelled

  datatype Event = Work(w: WorkerEvent) | Merge(m: MergerEvent) | TakePair | TakeErr | Cancel

  const OUT_BUFFER := 1

  function Init<P, R>(pairs: seq<P>, errs: seq<R>): Segment<P, R> {
    Segment(pairs, errs, Selecting, Merging, false, false, false, false, false, 2, [], [], false, [], [], [], [], [])
  }

  predicate WorkEnabled<P, R>(s: Segment<P, R>, e: WorkerEvent) {
    match e
    case ReceivePair => s.worker.Selecting? && s.inPairs != []
    case PairsEnd => s.worker.Selecting? && s.inPairs == []
    case HandError => s.worker.SendingErr? && s.merger.Merging? && !s.localNil
    case PutPair => s.worker.SendingPair? && |s.pairs| < OUT_BUFFER
    case WorkerDone => s.worker.Leaving?
    case CloseTrans => s.worker.ClosingErrs?
    case ClosePairs => s.worker.ClosingPairs?
    case WorkerCancelled => s.worker.Selecting? && s.cancelled
  }

  predicate MergeEnabled<P, R>(s: Segment<P, R>, e: MergerEvent) {
    match e
    case ReceiveErr => s.merger.Merging? && !s.upstreamNil && s.inErrs != []
    case ErrsEnd => s.merger.Merging? && !s.upstreamNil && s.inErrs == []
    case LocalEnd => s.merger.Merging? && !s.localNil && s.transClosed
    case PutErr => s.merger.Forwarding? && |s.errs| < OUT_BUFFER
    case MergerEnd => s.merger.Merging? && s.upstreamNil && s.localNil
    case MergerDone => s.merger.MergerLeaving?
    case CloseErrs => s.merger.ClosingOut?
    case MergerCancelled => s.merger.Merging? && s.cancelled
  }

  predicate Enabled<P, R>(s: Segment<P, R>, e: Event) {
    match e
    case Work(w) => WorkEnabled(s, w)
    case Merge(m) => MergeEnabled(s, m)
    case TakePair => s.pairs != []
    case TakeErr => s.errs != []
    case Cancel => !s.cancelled
  }

  function AfterErr<P, R>(next: Option<P>): Worker<P, R> {
    if next.Some? then SendingPair(next.value) else Selecting
  }

  function WorkStep<P, R>(proc: P -> Processed<P, R>, s: Segment<P, R>, e: WorkerEvent): Segment<P, R>
    requires WorkEnabled(s, e)
  {
    match e
    case ReceivePair =>
      var r := proc(s.inPairs[0]);
      s.(inPairs := s.inPairs[1..], consumed := s.consumed + [s.inPairs[0]],
         worker := if r.rez.Some? then SendingErr(r.rez.value, r.pair) else AfterErr(r.pair),
         handled := s.handled + if r.rez.Some? then [Tagged(Local, r.rez.value)] else [])
    case PairsEnd => s.(worker := Leaving)
    case HandError =>
      var err := Tagged(Local, s.worker.rez);
      s.(worker := AfterErr(s.worker.next), merger := Forwarding(err), handled := s.handled + [err])
    case PutPair => s.(worker := Selecting, pairs := s.pairs + [s.worker.pair])
    case WorkerDone => s.(worker := ClosingErrs, waiting := s.waiting - 1)
    case CloseTrans => s.(worker := ClosingPairs, transClosed := true)
    case ClosePairs => s.(worker := Gone, pairsClosed := true)
    case WorkerCancelled => s.(worker := Leaving)
  }

  function MergeStep<P, R>(s: Segment<P, R>, e: MergerEvent): Segment<P, R>
    requires MergeEnabled(s, e)
  {
    match e
    case ReceiveErr =>
      var err := Tagged(Upstream, s.inErrs[0]);
      s.(inErrs := s.inErrs[1..], relayed := s.relayed + [s.inErrs[0]], merger := Forwarding(err),
         handled := s.handled + [err])
    case ErrsEnd => s.(upstreamNil := true)
    case LocalEnd => s.(localNil := true)
    case PutErr => s.(merger := Merging, errs := s.errs + [s.merger.err])
    case MergerEnd => s.(merger := MergerLeaving)
    case MergerDone => s.(merger := ClosingOut, waiting := s.waiting - 1)
    case CloseErrs => s.(merger := MergerGone, errsClosed := true)
    case MergerCancelled => s.(merger := MergerLeaving)
  }

  function Step<P, R>(proc: P -> Processed<P, R>, s: Segment<P, R>, e: Event): Segment<P, R>
    requires Enabled(s, e)
  {
    match e
    case Work(w) => WorkStep(proc, s, w)
    case Merge(m) => MergeStep(s, m)
    case TakePair => s.(pairs := s.pairs[1..], gotPairs := s.gotPairs + [s.pairs[0]])
    case TakeErr => s.(errs := s.errs[1..], gotErrs := s.gotErrs + [s.errs[0]])
    case Cancel => s.(cancelled := true)
  }

  // ---------------------------------------------------------------- what a run should produce

  /** The pairs to pass on, in input order. */
  function PairsOf<P, R>(proc: P -> Processed<P, R>, ps: seq<P>): seq<P> {
    if ps == [] then []
    else Extended(PairsOf(proc, ps[..|ps| - 1]), proc(ps[|ps| - 1]).pair)
  }

  /** The processing errors, in input order. */
  function ErrsOf<P, R>(proc: P -> Processed<P, R>, ps: seq<P>): seq<R> {
    if ps == [] then []
    else Extended(ErrsOf(proc, ps[..|ps| - 1]), proc(ps[|ps| - 1]).rez)
  }

  function Listed<T>(o: Option<T>): seq<T> { if o.Some? then [o.value] else [] }

  function Extended<T>(s: seq<T>, o: Option<T>): seq<T> { if o.Some? then s + [o.value] else s }

  /** The errors of one origin, in order. */
  function From<R>(errs: seq<Tagged<R>>, o: Origin): seq<R> {
    if errs == [] then []
    else Extended(From(errs[..|errs| - 1], o), Of(errs[|errs| - 1], o))
  }

  function Of<R>(err: Tagged<R>, o: Origin): Option<R> { if err.origin == o then Some(err.rez) else None }

  lemma PairsOfSnoc<P, R>(proc: P -> Processed<P, R>, ps: seq<P>, p: P)
    ensures PairsOf(proc, ps + [p]) == Extended(PairsOf(proc, ps), proc(p).pair)
    ensures ErrsOf(proc, ps + [p]) == Extended(ErrsOf(proc, ps), proc(p).rez)
  {
    assert (ps + [p])[..|ps|] == ps;
  }

  lemma FromSnoc<R>(errs: seq<Tagged<R>>, t: Tagged<R>, o: Origin)
    ensures From(errs + [t], o) == Extended(From(errs, o), Of(t, o))
  {
    assert (errs + [t])[..|errs|] == errs;
  }

  lemma ExtendedAssoc<T>(a: seq<T>, b: seq<T>, o: Option<T>)
    ensures Extended(a + b, o) == a + Extended(b, o)
  {}

  lemma SeqAssoc<T>(a: seq<T>, b: seq<T>, c: seq<T>)
    ensures (a + b) + c == a + (b + c)
  {}

  // ---------------------------------------------------------------- the invariant

  function Held<P, R>(w: Worker<P, R>): seq<P> {
    match w case SendingErr(_, next) => Listed(next) case SendingPair(p) => [p] case _ => []
  }

  function HeldErr<P, R>(w: Worker<P, R>): seq<R> {
    if w.SendingErr? then [w.rez] else []
  }

  function InMerger<R>(m: Merger<R>): seq<Tagged<R>> {
    if m.Forwarding? then [m.err] else []
  }

  /** Every error that has reached the merging goroutine, in the order it did. */
  function Merged<P, R>(s: Segment<P, R>): seq<Tagged<R>> {
    s.gotErrs + s.errs + InMerger(s.merger)
  }

  ghost predicate Conserved<P, R>(proc: P -> Processed<P, R>, pairs: seq<P>, errs: seq<R>, s: Segment<P, R>) {
    && pairs == s.consumed + s.inPairs
    && errs == s.relayed + s.inErrs
    && PairsOf(proc, s.consumed) == s.gotPairs + s.pairs + Held(s.worker)
    && ErrsOf(proc, s.consumed) == From(Merged(s), Local) + HeldErr(s.worker)
    && s.relayed == From(Merged(s), Upstream)
  }

  function WorkerStage<P, R>(w: Worker<P, R>): nat {
    match w case Leaving => 1 case ClosingErrs => 2 case ClosingPairs => 3 case Gone => 4 case _ => 0
  }

  function MergerStage<R>(m: Merger<R>): nat {
    match m case MergerLeaving => 1 case ClosingOut => 2 case MergerGone => 3 case _ => 0
  }

  /** Channels are closed once, by their sender, after its last send. */
  ghost predicate ClosedInOrder<P, R>(s: Segment<P, R>) {
    && (s.transClosed <==> WorkerStage(s.worker) >= 3)
    && (s.pairsClosed <==> WorkerStage(s.worker) == 4)
    && (s.errsClosed <==> MergerStage(s.merger) == 3)
    && s.waiting == (if WorkerStage(s.worker) >= 2 then 0 else 1) + (if MergerStage(s.merger) >= 2 then 0 else 1)
    && (s.localNil ==> s.transClosed)
    && (s.upstreamNil ==> s.inErrs == [])
    && (!s.cancelled && WorkerStage(s.worker) > 0 ==> s.inPairs == [])
    && (!s.cancelled && MergerStage(s.merger) > 0 ==> s.localNil && s.upstreamNil)
    && |s.pairs| <= 1 && |s.errs| <= 1
  }

  /** HandleResolution is called for each local error when it occurs and again when it is
      merged, and once for each upstream error. */
  ghost predicate HandledTwice<P, R>(proc: P -> Processed<P, R>, s: Segment<P, R>) {
    && |From(s.handled, Upstream)| == |s.relayed|
    && |From(s.handled, Local)| == 2 * |ErrsOf(proc, s.consumed)| - |HeldErr(s.worker)|
  }

  ghost predicate Inv<P, R>(proc: P -> Processed<P, R>, pairs: seq<P>, errs: seq<R>, s: Segment<P, R>) {
    Conserved(proc, pairs, errs, s) && ClosedInOrder(s) && HandledTwice(proc, s)
  }

  lemma WorkCloses<P, R>(proc: P -> Processed<P, R>, s: Segment<P, R>, e: WorkerEvent)
    requires WorkEnabled(s, e) && ClosedInOrder(s)
    ensures ClosedInOrder(WorkStep(proc, s, e))
  {}

  lemma ReceiveKeeps<P, R>(proc: P -> Processed<P, R>, pairs: seq<P>, errs: seq<R>, s: Segment<P, R>)
    requires WorkEnabled(s, ReceivePair) && Conserved(proc, pairs, errs, s) && HandledTwice(proc, s)
    ensures var s' := WorkStep(proc, s, ReceivePair); Conserved(proc, pairs, errs, s') && HandledTwice(proc, s')
  {
    hide From, PairsOf, ErrsOf;
    var s' := WorkStep(proc, s, ReceivePair);
    PairsOfSnoc(proc, s.consumed, s.inPairs[0]);
    SeqAssoc(s.consumed, [s.inPairs[0]], s.inPairs[1..]);
    assert Merged(s') == Merged(s);
    var r := proc(s.inPairs[0]);
    if r.rez.Some? {
      FromSnoc(s.handled, Tagged(Local, r.rez.value), Local);
      FromSnoc(s.handled, Tagged(Local, r.rez.value), Upstream);
    } else {
      assert s'.handled == s.handled;
    }
  }

  lemma HandKeeps<P, R>(proc: P -> Processed<P, R>, pairs: seq<P>, errs: seq<R>, s: Segment<P, R>)
    requires WorkEnabled(s, HandError) && Conserved(proc, pairs, errs, s) && HandledTwice(proc, s)
    ensures var s' := WorkStep(proc, s, HandError); Conserved(proc, pairs, errs, s') && HandledTwice(proc, s')
  {
    hide From, PairsOf, ErrsOf;
    var s' := WorkStep(proc, s, HandError);
    var err := Tagged(Local, s.worker.rez);
    FromSnoc(s.handled, err, Local);
    FromSnoc(s.handled, err, Upstream);
    FromSnoc(Merged(s), err, Local);
    FromSnoc(Merged(s), err, Upstream);
    assert Merged(s') == Merged(s) + [err];
  }

  lemma OtherWorkKeeps<P, R>(proc: P -> Processed<P, R>, pairs: seq<P>, errs: seq<R>, s: Segment<P, R>, e: WorkerEvent)
    requires WorkEnabled(s, e) && Conserved(proc, pairs, errs, s) && HandledTwice(proc, s)
    requires e != ReceivePair && e != HandError
    ensures var s' := WorkStep(proc, s, e); Conserved(proc, pairs, errs, s') && HandledTwice(proc, s')
  {
    hide From, PairsOf, ErrsOf;
    assert Merged(WorkStep(proc, s, e)) == Merged(s);
    if e == PutPair {
      SeqAssoc(s.gotPairs, s.pairs, [s.worker.pair]);
    }
  }

  lemma WorkKeeps<P, R>(proc: P -> Processed<P, R>, pairs: seq<P>, errs: seq<R>, s: Segment<P, R>, e: WorkerEvent)
    requires WorkEnabled(s, e) && Inv(proc, pairs, errs, s)
    ensures Inv(proc, pairs, errs, WorkStep(proc, s, e))
  {
    WorkCloses(proc, s, e);
    hide ClosedInOrder, Conserved, HandledTwice, WorkStep, WorkEnabled;
    match e
    case ReceivePair => ReceiveKeeps(proc, pairs, errs, s);
    case HandError => HandKeeps(proc, pairs, errs, s);
    case _ => OtherWorkKeeps(proc, pairs, errs, s, e);
  }

  lemma MergeCloses<P, R>(s: Segment<P, R>, e: MergerEvent)
    requires MergeEnabled(s, e) && ClosedInOrder(s)
    ensures ClosedInOrder(MergeStep(s, e))
  {}

  /** The only thing the merging goroutine adds to what has been merged is a received error. */
  lemma MergeAdds<P, R>(s: Segment<P, R>, e: MergerEvent)
    requires MergeEnabled(s, e)
    ensures var s' := MergeStep(s, e);
            && (if e == ReceiveErr then
                  var tagged := [Tagged(Upstream, s.inErrs[0])];
                  && Merged(s') == Merged(s) + tagged && s'.handled == s.handled + tagged
                  && s'.relayed == s.relayed + [s.inErrs[0]] && s.inErrs == [s.inErrs[0]] + s'.inErrs
                else Merged(s') == Merged(s) && (s'.handled, s'.relayed, s'.inErrs) == (s.handled, s.relayed, s.inErrs))
            && (s'.inPairs, s'.consumed, s'.worker, s'.pairs, s'.gotPairs)
               == (s.inPairs, s.consumed, s.worker, s.pairs, s.gotPairs)
  {
    match e
    case ReceiveErr =>
    case PutErr =>
    case _ => assert MergeStep(s, e).errs == s.errs && InMerger(MergeStep(s, e).merger) == InMerger(s.merger);
  }

  lemma {:induction false} MergeKeeps<P, R>(proc: P -> Processed<P, R>, pairs: seq<P>, errs: seq<R>, s: Segment<P, R>,
                                            e: MergerEvent)
    requires MergeEnabled(s, e) && Inv(proc, pairs, errs, s)
    ensures Inv(proc, pairs, errs, MergeStep(s, e))
  {
    MergeCloses(s, e);
    MergeAdds(s, e);
    hide ClosedInOrder, From, PairsOf, ErrsOf, Merged, MergeStep, MergeEnabled;
    if e == ReceiveErr {
      var err := Tagged(Upstream, s.inErrs[0]);
      FromSnoc(s.handled, err, Local);
      FromSnoc(s.handled, err, Upstream);
      FromSnoc(Merged(s), err, Local);
      FromSnoc(Merged(s), err, Upstream);
      SeqAssoc(s.relayed, [s.inErrs[0]], MergeStep(s, e).inErrs);
    }
  }

  lemma {:induction false} StepKeeps<P, R>(proc: P -> Processed<P, R>, pairs: seq<P>, errs: seq<R>, s: Segment<P, R>,
                                           e: Event)
    requires Enabled(s, e) && Inv(proc, pairs, errs, s)
    ensures Inv(proc, pairs, errs, Step(proc, s, e))
  {
    hide From, PairsOf, ErrsOf, WorkStep, MergeStep, WorkEnabled, MergeEnabled;
    match e
    case Work(w) => WorkKeeps(proc, pairs, errs, s, w);
    case Merge(m) => MergeKeeps(proc, pairs, errs, s, m);
    case TakePair => assert s.pairs == [s.pairs[0]] + s.pairs[1..];
    case TakeErr => assert Merged(Step(proc, s, e)) == Merged(s);
    case Cancel =>
  }

  // ---------------------------------------------------------------- runs

  /** The state after a run, if every event was possible when it happened. */
  function Run<P, R>(proc: P -> Processed<P, R>, pairs: seq<P>, errs: seq<R>, es: seq<Event>): Option<Segment<P, R>> {
    if es == [] then Some(Init(pairs, errs))
    else
      var before := Run(proc, pairs, errs, es[..|es| - 1]);
      if before.Some? && Enabled(before.value, es[|es| - 1]) then Some(Step(proc, before.value, es[|es| - 1])) else None
  }

  lemma {:induction false} RunKeeps<P, R>(proc: P -> Processed<P, R>, pairs: seq<P>, errs: seq<R>, es: seq<Event>)
    requires Run(proc, pairs, errs, es).Some?
    ensures Inv(proc, pairs, errs, Run(proc, pairs, errs, es).value)
  {
    hide Step, Enabled;
    if es != [] {
      hide Inv;
      var n := |es| - 1;
      RunKeeps(proc, pairs, errs, es[..n]);
      StepKeeps(proc, pairs, errs, Run(proc, pairs, errs, es[..n]).value, es[n]);
    }
  }

  lemma {:induction false} FromConcat<R>(a: seq<Tagged<R>>, b: seq<Tagged<R>>, o: Origin)
    ensures From(a + b, o) == From(a, o) + From(b, o)
  {
    if b == [] {
      assert a + b == a;
    } else {
      hide From, Extended;
      var n := |b| - 1;
      FromConcat(a, b[..n], o);
      assert a + b == (a + b[..n]) + [b[n]] && b == b[..n] + [b[n]];
      FromSnoc(a + b[..n], b[n], o);
      FromSnoc(b[..n], b[n], o);
      ExtendedAssoc(From(a, o), From(b[..n], o), Of(b[n], o));
    }
  }

  lemma {:induction false} ProcessedConcat<P, R>(proc: P -> Processed<P, R>, a: seq<P>, b: seq<P>)
    ensures PairsOf(proc, a + b) == PairsOf(proc, a) + PairsOf(proc, b)
    ensures ErrsOf(proc, a + b) == ErrsOf(proc, a) + ErrsOf(proc, b)
  {
    if b == [] {
      assert a + b == a;
    } else {
      hide PairsOf, ErrsOf, Extended;
      var n := |b| - 1;
      ProcessedConcat(proc, a, b[..n]);
      assert a + b == (a + b[..n]) + [b[n]] && b == b[..n] + [b[n]];
      PairsOfSnoc(proc, a + b[..n], b[n]);
      PairsOfSnoc(proc, b[..n], b[n]);
      ExtendedAssoc(PairsOf(proc, a), PairsOf(proc, b[..n]), proc(b[n]).pair);
      ExtendedAssoc(ErrsOf(proc, a), ErrsOf(proc, b[..n]), proc(b[n]).rez);
    }
  }

  lemma Prefix<T>(a: seq<T>, b: seq<T>, c: seq<T>, d: seq<T>)
    ensures a <= a + b + c + d
  {}

  lemma InvReceived<P, R>(proc: P -> Processed<P, R>, pairs: seq<P>, errs: seq<R>, s: Segment<P, R>)
    requires Inv(proc, pairs, errs, s)
    ensures s.gotPairs <= PairsOf(proc, pairs)
    ensures From(s.gotErrs, Local) <= ErrsOf(proc, pairs)
    ensures From(s.gotErrs, Upstream) <= errs
  {
    hide From, PairsOf, ErrsOf;
    ProcessedConcat(proc, s.consumed, s.inPairs);
    var late := s.errs + InMerger(s.merger);
    assert Merged(s) == s.gotErrs + late;
    FromConcat(s.gotErrs, late, Local);
    FromConcat(s.gotErrs, late, Upstream);
    hide *;
    Prefix(s.gotPairs, s.pairs, Held(s.worker), PairsOf(proc, s.inPairs));
    Prefix(From(s.gotErrs, Local), From(late, Local), HeldErr(s.worker), ErrsOf(proc, s.inPairs));
    Prefix(From(s.gotErrs, Upstream), From(late, Upstream), [], s.inErrs);
  }

  /** In every reachable state, cancelled or not: what the consumer has received is a prefix of
      what it is owed, the errors of each origin in their order, nothing invented or repeated. */
  lemma ReceivedSoFar<P, R>(proc: P -> Processed<P, R>, pairs: seq<P>, errs: seq<R>, es: seq<Event>)
    requires Run(proc, pairs, errs, es).Some?
    ensures var s := Run(proc, pairs, errs, es).value;
            && s.gotPairs <= PairsOf(proc, pairs)
            && From(s.gotErrs, Local) <= ErrsOf(proc, pairs)
            && From(s.gotErrs, Upstream) <= errs
  {
    RunKeeps(proc, pairs, errs, es);
    hide Inv;
    InvReceived(proc, pairs, errs, Run(proc, pairs, errs, es).value);
  }

  predicate Finished<P, R>(s: Segment<P, R>) {
    s.worker.Gone? && s.merger.MergerGone? && s.pairs == [] && s.errs == []
  }

  lemma InvFinished<P, R>(proc: P -> Processed<P, R>, pairs: seq<P>, errs: seq<R>, s: Segment<P, R>)
    requires Inv(proc, pairs, errs, s) && Finished(s) && !s.cancelled
    ensures s.gotPairs == PairsOf(proc, pairs)
    ensures From(s.gotErrs, Local) == ErrsOf(proc, pairs)
    ensures From(s.gotErrs, Upstream) == errs
    ensures s.transClosed && s.pairsClosed && s.errsClosed && s.waiting == 0
  {
    hide From, PairsOf, ErrsOf;
    assert Merged(s) == s.gotErrs;
    assert s.consumed == pairs;
  }

  /** A segment that finishes uncancelled has passed on every processed pair in input order and
      every error once, local and upstream errors each in their own order; all channels are
      closed and the wait group is back to zero. */
  lemma NothingLost<P, R>(proc: P -> Processed<P, R>, pairs: seq<P>, errs: seq<R>, es: seq<Event>)
    requires Run(proc, pairs, errs, es).Some?
    requires var s := Run(proc, pairs, errs, es).value; Finished(s) && !s.cancelled
    ensures var s := Run(proc, pairs, errs, es).value;
            && s.gotPairs == PairsOf(proc, pairs)
            && From(s.gotErrs, Local) == ErrsOf(proc, pairs)
            && From(s.gotErrs, Upstream) == errs
            && s.transClosed && s.pairsClosed && s.errsClosed && s.waiting == 0
  {
    RunKeeps(proc, pairs, errs, es);
    hide Inv;
    InvFinished(proc, pairs, errs, Run(proc, pairs, errs, es).value);
  }

  /** `HandleResolution` sees every upstream error once but every local error twice. */
  lemma LocalErrorsHandledTwice<P, R>(proc: P -> Processed<P, R>, pairs: seq<P>, errs: seq<R>, es: seq<Event>)
    requires Run(proc, pairs, errs, es).Some?
    requires var s := Run(proc, pairs, errs, es).value; Finished(s) && !s.cancelled
    ensures var s := Run(proc, pairs, errs, es).value;
            && |From(s.handled, Upstream)| == |errs|
            && |From(s.handled, Local)| == 2 * |ErrsOf(proc, pairs)|
  {
    var s := Run(proc, pairs, errs, es).value;
    RunKeeps(proc, pairs, errs, es);
    hide Run, From, PairsOf, ErrsOf;
    assert s.consumed == pairs;
  }

  /** No channel is sent on after it was closed, and none is closed twice. */
  lemma NoSendAfterClose<P, R>(s: Segment<P, R>, e: Event)
    requires ClosedInOrder(s) && Enabled(s, e)
    ensures e == Work(HandError) || e == Work(CloseTrans) ==> !s.transClosed
    ensures e == Work(PutPair) || e == Work(ClosePairs) ==> !s.pairsClosed
    ensures e == Merge(PutErr) || e == Merge(CloseErrs) ==> !s.errsClosed
  {}

  // ---------------------------------------------------------------- progress

  function WorkerRank<P, R>(w: Worker<P, R>): nat {
    match w
    case SendingErr(_, _) => 9
    case SendingPair(_) => 6
    case Selecting => 4
    case Leaving => 3
    case ClosingErrs => 2
    case ClosingPairs => 1
    case Gone => 0
  }

  function MergerRank<R>(m: Merger<R>): nat {
    match m case Forwarding(_) => 5 case Merging => 3 case MergerLeaving => 2 case ClosingOut => 1 case MergerGone => 0
  }

  /** How many steps the segment can still take, at most. */
  function Measure<P, R>(s: Segment<P, R>): nat {
    6 * |s.inPairs| + WorkerRank(s.worker) + |s.pairs|
    + 3 * |s.inErrs| + MergerRank(s.merger) + |s.errs|
    + (if s.upstreamNil then 0 else 1) + (if s.localNil then 0 else 1) + (if s.cancelled then 0 else 1)
  }

  lemma WorkDescends<P, R>(proc: P -> Processed<P, R>, s: Segment<P, R>, e: WorkerEvent)
    requires WorkEnabled(s, e)
    ensures Measure(WorkStep(proc, s, e)) < Measure(s)
  {}

  lemma MergeDescends<P, R>(s: Segment<P, R>, e: MergerEvent)
    requires MergeEnabled(s, e)
    ensures Measure(MergeStep(s, e)) < Measure(s)
  {}

  lemma StepDescends<P, R>(proc: P -> Processed<P, R>, s: Segment<P, R>, e: Event)
    requires Enabled(s, e)
    ensures Measure(Step(proc, s, e)) < Measure(s)
  {
    hide WorkStep, MergeStep, WorkEnabled, MergeEnabled;
    match e
    case Work(w) => WorkDescends(proc, s, w);
    case Merge(m) => MergeDescends(s, m);
    case _ =>
  }

  /** Every run is finite, with at most six steps per pair, three per error and ten more. */
  lemma {:induction false} RunsTerminate<P, R>(proc: P -> Processed<P, R>, pairs: seq<P>, errs: seq<R>, es: seq<Event>)
    requires Run(proc, pairs, errs, es).Some?
    ensures |es| + Measure(Run(proc, pairs, errs, es).value) <= 6 * |pairs| + 3 * |errs| + 10
  {
    hide Step, Enabled;
    if es != [] {
      hide Measure;
      var n := |es| - 1;
      RunsTerminate(proc, pairs, errs, es[..n]);
      StepDescends(proc, Run(proc, pairs, errs, es[..n]).value, es[n]);
    }
  }

  /** The worker wants to hand over an error, and nobody will ever receive it. */
  predicate Stranded<P, R>(s: Segment<P, R>) {
    s.worker.SendingErr? && MergerStage(s.merger) > 0
  }

  /** With its output drained, a segment that has not finished can move, unless it is stranded;
      and that takes a cancellation. */
  lemma Progress<P, R>(s: Segment<P, R>) returns (e: Event)
    requires ClosedInOrder(s) && !Finished(s) && !Stranded(s)
    ensures Enabled(s, e) && e != Cancel
  {
    if s.pairs != [] { return TakePair; }
    if s.errs != [] { return TakeErr; }
    if !s.worker.Gone? && (!s.worker.SendingErr? || s.merger.Merging?) {
      e := Work(match s.worker
        case Selecting => if s.inPairs == [] then PairsEnd else ReceivePair
        case SendingErr(_, _) => HandError
        case SendingPair(_) => PutPair
        case Leaving => WorkerDone
        case ClosingErrs => CloseTrans
        case _ => ClosePairs);
    } else {
      e := Merge(match s.merger
        case Forwarding(_) => PutErr
        case MergerLeaving => MergerDone
        case ClosingOut => CloseErrs
        case _ => if !s.upstreamNil then (if s.inErrs == [] then ErrsEnd else ReceiveErr)
                  else if s.localNil then MergerEnd else LocalEnd);
    }
  }

  lemma StrandedOnlyByCancelling<P, R>(s: Segment<P, R>)
    requires ClosedInOrder(s) && Stranded(s)
    ensures s.cancelled
  {}

  /** Once stranded, always stranded: the goroutine leaks and the wait group never empties. */
  lemma StrandedForGood<P, R>(proc: P -> Processed<P, R>, s: Segment<P, R>, e: Event)
    requires Stranded(s) && Enabled(s, e)
    ensures Stranded(Step(proc, s, e))
    ensures ClosedInOrder(s) ==> s.waiting > 0
  {
    hide MergeStep, MergeEnabled;
    match e
    case Merge(m) => MergerOnwards(s, m);
    case _ =>
  }

  lemma MergerOnwards<P, R>(s: Segment<P, R>, e: MergerEvent)
    requires MergeEnabled(s, e)
    ensures MergerStage(MergeStep(s, e).merger) >= MergerStage(s.merger) && MergeStep(s, e).worker == s.worker
  {
    match e
    case PutErr => assert MergerStage(s.merger) == 0;
    case MergerEnd => assert MergerStage(s.merger) == 0;
    case MergerCancelled => assert MergerStage(s.merger) == 0;
    case _ =>
  }

  /** A run that ends stranded. */
  ghost predicate Strands<P, R>(proc: P -> Processed<P, R>, pairs: seq<P>, errs: seq<R>, es: seq<Event>) {
    Run(proc, pairs, errs, es).Some? && Stranded(Run(proc, pairs, errs, es).value)
  }

  lemma RunSnoc<P, R>(proc: P -> Processed<P, R>, pairs: seq<P>, errs: seq<R>, es: seq<Event>, e: Event)
    requires Run(proc, pairs, errs, es).Some? && Enabled(Run(proc, pairs, errs, es).value, e)
    ensures Run(proc, pairs, errs, es + [e]) == Some(Step(proc, Run(proc, pairs, errs, es).value, e))
  {
    assert (es + [e])[..|es|] == es;
    hide Step, Enabled;
  }

  /** The merging goroutine has left on a cancellation, and the worker goes on selecting. */
  ghost predicate Abandoned<P, R>(s: Segment<P, R>, rest: seq<P>) {
    s.worker.Selecting? && s.merger.MergerLeaving? && s.inPairs == rest && s.pairs == []
  }

  /** After a cancellation the worker may still take every pair up to the first that fails. */
  lemma {:induction false} AbandonedAt<P, R>(proc: P -> Processed<P, R>, pairs: seq<P>, errs: seq<R>, k: nat)
    returns (es: seq<Event>)
    requires k <= |pairs| && forall i | 0 <= i < k :: proc(pairs[i]).rez.None?
    ensures Run(proc, pairs, errs, es).Some? && Abandoned(Run(proc, pairs, errs, es).value, pairs[k..])
  {
    if k == 0 {
      es := [];
      RunSnoc(proc, pairs, errs, es, Cancel);
      es := es + [Cancel];
      RunSnoc(proc, pairs, errs, es, Merge(MergerCancelled));
      es := es + [Merge(MergerCancelled)];
    } else {
      es := AbandonedAt(proc, pairs, errs, k - 1);
      hide Run;
      assert pairs[k - 1..][0] == pairs[k - 1] && pairs[k - 1..][1..] == pairs[k..];
      RunSnoc(proc, pairs, errs, es, Work(ReceivePair));
      es := es + [Work(ReceivePair)];
      if proc(pairs[k - 1]).pair.Some? {
        RunSnoc(proc, pairs, errs, es, Work(PutPair));
        es := es + [Work(PutPair)];
        RunSnoc(proc, pairs, errs, es, TakePair);
        es := es + [TakePair];
      }
    }
  }

  predicate Fails<P, R>(proc: P -> Processed<P, R>, p: P) { proc(p).rez.Some? }

  lemma {:induction false} FirstFailure<P, R>(proc: P -> Processed<P, R>, pairs: seq<P>) returns (k: nat)
    requires exists p :: p in pairs && Fails(proc, p)
    ensures k < |pairs| && Fails(proc, pairs[k]) && forall i | 0 <= i < k :: !Fails(proc, pairs[i])
  {
    if Fails(proc, pairs[0]) {
      k := 0;
    } else {
      var p :| p in pairs && Fails(proc, p);
      assert pairs == [pairs[0]] + pairs[1..];
      var later := FirstFailure(proc, pairs[1..]);
      k := later + 1;
    }
  }

  /** Cancelling can strand the worker whatever the position of the failing pair: the merging
      goroutine leaves while the worker goes on to take it. */
  lemma CancellingStrands<P, R>(proc: P -> Processed<P, R>, pairs: seq<P>, errs: seq<R>) returns (es: seq<Event>)
    requires exists p :: p in pairs && Fails(proc, p)
    ensures Strands(proc, pairs, errs, es)
  {
    var k := FirstFailure(proc, pairs);
    es := AbandonedAt(proc, pairs, errs, k);
    assert pairs[k..][0] == pairs[k];
    RunSnoc(proc, pairs, errs, es, Work(ReceivePair));
    es := es + [Work(ReceivePair)];
  }

  lemma {:induction false} NoErrsWithoutFailure<P, R>(proc: P -> Processed<P, R>, ps: seq<P>)
    requires ErrsOf(proc, ps) != []
    ensures exists p :: p in ps && Fails(proc, p)
  {
    var n := |ps| - 1;
    if Fails(proc, ps[n]) {
      assert ps[n] in ps;
    } else {
      NoErrsWithoutFailure(proc, ps[..n]);
    }
  }

  lemma StrandedByFailure<P, R>(proc: P -> Processed<P, R>, pairs: seq<P>, errs: seq<R>, es: seq<Event>)
    requires Strands(proc, pairs, errs, es)
    ensures exists p :: p in pairs && Fails(proc, p)
  {
    var s := Run(proc, pairs, errs, es).value;
    RunKeeps(proc, pairs, errs, es);
    assert ErrsOf(proc, s.consumed) == From(Merged(s), Local) + [s.worker.rez];
    hide Run, ErrsOf, From, PairsOf;
    NoErrsWithoutFailure(proc, s.consumed);
    assert forall p | p in s.consumed :: p in pairs;
  }

  /** A segment can strand, in some run, if and only if some pair of its input fails. */
  lemma StrandsIffSomeFailure<P, R>(proc: P -> Processed<P, R>, pairs: seq<P>, errs: seq<R>)
    ensures (exists es :: Strands(proc, pairs, errs, es)) <==> exists p :: p in pairs && Fails(proc, p)
  {
    hide Strands;
    if es :| Strands(proc, pairs, errs, es) {
      StrandedByFailure(proc, pairs, errs, es);
    }
    if exists p :: p in pairs && Fails(proc, p) {
      var es := CancellingStrands(proc, pairs, errs);
    }
  }
}
