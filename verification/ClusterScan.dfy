/** ext/singularity/actual_deployment_set.go as a state machine: each listed request is a token
    that moves through channels, goroutines and retries while wait groups count. */
module ClusterScan {
  import opened Types

  const RETRY_LIMIT := 3
  const MAX_ASSEMBLERS := 100

  // ---------------------------------------------------------------- classification

  datatype Cause =
    | Malformed          // malformedResponse or one of the three json errors
    | NonSous
    | NotThisCluster
    | CanRetry(name: string)
    | Other

  predicate IsMalformed(c: Cause) { c.Malformed? }

  predicate Ignorable(c: Cause) { c.NonSous? || c.NotThisCluster? }

  /** What is known of a request when building its deployment fails. */
  datatype Request = Request(sourceURL: string, id: Option<string>)

  predicate IsRetryable(req: Request, c: Cause) {
    !IsMalformed(c) && !Ignorable(c) && req.sourceURL != "" && req.id.Some? && req.id.value != ""
  }

  function Name(req: Request): string
    requires req.id.Some?
  {
    req.sourceURL + ":" + req.id.value
  }

  /** `canRetry` on a non-nil error. */
  function Wrapped(req: Request, c: Cause): Cause {
    if IsRetryable(req, c) then CanRetry(Name(req)) else c
  }

  /** What kind of error the main loop takes it for. */
  datatype Verdict = Droppable | Retryable | Fatal

  function Judge(c: Cause): Verdict {
    if IsMalformed(c) || Ignorable(c) then Droppable else if c.CanRetry? then Retryable else Fatal
  }

  /** The errors that are dropped. */
  predicate Harmless(c: Cause) { c == Malformed || c == NonSous || c == NotThisCluster }

  /** An assembly error that is not dropped can be retried, under the request's URL and ID, exactly
      if the request has both. */
  lemma AssemblyVerdict(req: Request, c: Cause)
    requires !c.CanRetry?
    ensures Harmless(c) ==> Wrapped(req, c) == c && Judge(c) == Droppable
    ensures !Harmless(c) ==>
              if req.sourceURL != "" && req.id.Some? && req.id.value != ""
              then Wrapped(req, c) == CanRetry(req.sourceURL + ":" + req.id.value)
              else Wrapped(req, c) == c && Judge(c) == Fatal
  {}

  function Tries(count: map<string, nat>, name: string): nat {
    if name in count then count[name] else 0
  }

  predicate MayRetry(count: map<string, nat>, c: Cause) {
    c.CanRetry? && Tries(count, c.name) <= RETRY_LIMIT
  }

  function AfterTry(count: map<string, nat>, c: Cause): map<string, nat> {
    if MayRetry(count, c) then count[c.name := Tries(count, c.name) + 1] else count
  }

  /** `retryCounter`. */
  class RetryCounter {
    var count: map<string, nat>

    constructor ()
      ensures count == map[]
    {
      count := map[];
    }

    method Maybe(c: Cause) returns (again: bool)
      modifies this
      ensures again <==> MayRetry(old(count), c)
      ensures count == AfterTry(old(count), c)
    {
      if !c.CanRetry? {
        return false;
      }
      var n := if c.name in count then count[c.name] else 0;
      if n > RETRY_LIMIT {
        return false;
      }
      count := count[c.name := n + 1];
      again := true;
    }
  }

  // ---------------------------------------------------------------- the machine

  /** The listed requests, and for each the lister (one per base URL) that finds it. */
  datatype Config = Config(requests: seq<Request>, lister: seq<nat>, listers: nat, reqCap: nat, depCap: nat)

  ghost predicate ValidConfig(c: Config) {
    |c.lister| == |c.requests| && forall i | 0 <= i < |c.lister| :: c.lister[i] < c.listers
  }

  datatype Stage =
    | Unlisted
    | Added                        // counted in depWait, blocked in the send to reqCh
    | Queued                       // in reqCh
    | Spawned                      // assembler goroutine, no pool slot yet
    | Working
    | HasDeploy                    // blocked in the send to depCh
    | HasError(cause: Cause)       // blocked in the send to errCh
    | InDepCh
    | Sleeping                     // retry goroutine, on its way back to reqCh
    | Offered                      // passed to `deps.Add`
    | Dropped

  datatype Lister = Loading | Listing | Done | Failed

  datatype Closer = AwaitSing | AwaitDep | AwaitAss | Closed

  datatype Outcome = Running | ReturnedOk | ReturnedErr | Panicked

  datatype Scan = Scan(
    stage: seq<Stage>,
    listers: seq<Lister>,
    singWait: int,
    depWait: int,
    assWait: int,
    exiting: nat,             // assemblers that have sent, holding their pool slot until they exit
    retries: map<string, nat>,
    closer: Closer,
    outcome: Outcome,
    offered: seq<nat>,        // history: tokens passed to `deps.Add`
    retried: seq<string>,     // history: names retried
    swallowed: nat)           // history: listing errors taken for malformed deploys

  datatype Event =
    | Load(l: nat)
    | FailListing(l: nat, cause: Cause)
    | Add(i: nat)
    | Send(i: nat)
    | HandOver(i: nat)
    | Spawn(i: nat)
    | Start(i: nat)
    | Assemble(i: nat, failure: Option<Cause>)
    | SendDeploy(i: nat)
    | HandOverDeploy(i: nat)
    | MainDeploy(i: nat)
    | MainError(i: nat)
    | Exit
    | FinishListing(l: nat)
    | CloserSing
    | CloserDep
    | CloserAss
    | MainClosed

  function Init(c: Config): Scan {
    Scan(seq(|c.requests|, i => Unlisted), seq(c.listers, i => Loading), c.listers, 0, 0, 0, map[],
         AwaitSing, Running, [], [], 0)
  }

  /** The total weight of the tokens. */
  function Total(stage: seq<Stage>, w: Stage -> nat): nat {
    if stage == [] then 0 else w(stage[0]) + Total(stage[1..], w)
  }

  function Outstanding(st: Stage): nat { if st.Unlisted? || st.Offered? || st.Dropped? then 0 else 1 }
  function Assembling(st: Stage): nat { if st.Spawned? || st.Working? || st.HasDeploy? || st.HasError? then 1 else 0 }
  function Pooled(st: Stage): nat { if st.Working? || st.HasDeploy? || st.HasError? then 1 else 0 }
  function InReqCh(st: Stage): nat { if st.Queued? then 1 else 0 }
  function InDeployCh(st: Stage): nat { if st.InDepCh? then 1 else 0 }

  predicate Token(s: Scan, i: nat) { i < |s.stage| }

  /** The token has been sent by its lister. */
  predicate Sent(st: Stage) { !st.Unlisted? && !st.Added? }

  ghost predicate Enabled(c: Config, s: Scan, e: Event) {
    s.outcome == Running &&
    match e
    case Load(l) => l < |s.listers| && s.listers[l] == Loading
    case FailListing(l, cause) => l < |s.listers| && s.listers[l] == Loading && !cause.CanRetry?
    case Add(i) => Token(s, i) && i < |c.lister| && s.stage[i] == Unlisted
                   && c.lister[i] < |s.listers| && s.listers[c.lister[i]] == Listing
                   && (forall j | 0 <= j < i && j < |c.lister| && c.lister[j] == c.lister[i] :: Sent(s.stage[j]))
    case Send(i) => Token(s, i) && (s.stage[i] == Added || s.stage[i] == Sleeping) && Total(s.stage, InReqCh) < c.reqCap
    case HandOver(i) => Token(s, i) && (s.stage[i] == Added || s.stage[i] == Sleeping) && c.reqCap == 0
    case Spawn(i) => Token(s, i) && s.stage[i] == Queued
    case Start(i) => Token(s, i) && s.stage[i] == Spawned && Total(s.stage, Pooled) + s.exiting < MAX_ASSEMBLERS
    case Assemble(i, failure) => Token(s, i) && i < |c.requests| && s.stage[i] == Working
                                 && (failure.Some? ==> !failure.value.CanRetry?)
    case SendDeploy(i) => Token(s, i) && s.stage[i] == HasDeploy && Total(s.stage, InDeployCh) < c.depCap
    case HandOverDeploy(i) => Token(s, i) && s.stage[i] == HasDeploy && c.depCap == 0
    case MainDeploy(i) => Token(s, i) && s.stage[i] == InDepCh
    case MainError(i) => Token(s, i) && s.stage[i].HasError?
    case Exit => s.exiting > 0
    case FinishListing(l) => l < |s.listers| && s.listers[l] == Listing
                   && (forall i | 0 <= i < |s.stage| && i < |c.lister| && c.lister[i] == l :: Sent(s.stage[i]))
    case CloserSing => s.closer == AwaitSing && s.singWait == 0
    case CloserDep => s.closer == AwaitDep && s.depWait == 0
    case CloserAss => s.closer == AwaitAss && s.assWait == 0
    case MainClosed => s.closer == Closed
  }

  function To(s: Scan, i: nat, st: Stage): Scan
    requires Token(s, i)
  {
    s.(stage := s.stage[i := st])
  }

  /** `depWait.Done()` panics below zero. */
  function DepDone(s: Scan): Scan {
    if s.depWait == 0 then s.(outcome := Panicked) else s.(depWait := s.depWait - 1)
  }

  function Offer(s: Scan, i: nat): Scan
    requires Token(s, i)
  {
    DepDone(To(s, i, Offered).(offered := s.offered + [i]))
  }

  function OnError(s: Scan, i: nat): Scan
    requires Token(s, i) && s.stage[i].HasError?
  {
    var cause := s.stage[i].cause;
    if IsMalformed(cause) || Ignorable(cause) then DepDone(To(s, i, Dropped).(exiting := s.exiting + 1))
    else if MayRetry(s.retries, cause) then
      To(s, i, Sleeping).(exiting := s.exiting + 1, retries := AfterTry(s.retries, cause),
                          retried := s.retried + [cause.name])
    else s.(outcome := ReturnedErr)
  }

  function Step(c: Config, s: Scan, e: Event): Scan
    requires Enabled(c, s, e)
  {
    match e
    case Load(l) => s.(listers := s.listers[l := Listing])
    case FailListing(l, cause) =>
      // the error reaches the main loop, then the lister is done
      var s' := s.(listers := s.listers[l := Failed], singWait := s.singWait - 1);
      if Judge(cause) == Droppable then DepDone(s').(swallowed := s.swallowed + 1)
      else s'.(outcome := ReturnedErr)
    case Add(i) => To(s, i, Added).(depWait := s.depWait + 1)
    case Send(i) => To(s, i, Queued)
    case HandOver(i) => To(s, i, Spawned).(assWait := s.assWait + 1)
    case Spawn(i) => To(s, i, Spawned).(assWait := s.assWait + 1)
    case Start(i) => To(s, i, Working)
    case Assemble(i, failure) =>
      To(s, i, if failure.None? then HasDeploy else HasError(Wrapped(c.requests[i], failure.value)))
    case SendDeploy(i) => To(s, i, InDepCh).(exiting := s.exiting + 1)
    case HandOverDeploy(i) => Offer(s.(exiting := s.exiting + 1), i)
    case MainDeploy(i) => Offer(s, i)
    case MainError(i) => OnError(s, i)
    case Exit => s.(exiting := s.exiting - 1, assWait := s.assWait - 1)
    case FinishListing(l) => s.(listers := s.listers[l := Done], singWait := s.singWait - 1)
    case CloserSing => s.(closer := AwaitDep)
    case CloserDep => s.(closer := AwaitAss)
    case CloserAss => s.(closer := Closed)
    case MainClosed => s.(outcome := ReturnedOk)
  }

  // ---------------------------------------------------------------- weights

  lemma {:induction false} TotalUpdate(stage: seq<Stage>, w: Stage -> nat, i: nat, st: Stage)
    requires i < |stage|
    ensures Total(stage[i := st], w) == Total(stage, w) - w(stage[i]) + w(st)
  {
    if i > 0 {
      assert stage[i := st][1..] == stage[1..][i - 1 := st];
      TotalUpdate(stage[1..], w, i - 1, st);
    } else {
      assert stage[i := st][1..] == stage[1..];
    }
  }

  lemma {:induction false} TotalZero(stage: seq<Stage>, w: Stage -> nat)
    ensures Total(stage, w) == 0 <==> forall i | 0 <= i < |stage| :: w(stage[i]) == 0
  {
    if stage != [] {
      TotalZero(stage[1..], w);
      assert forall i | 1 <= i < |stage| :: stage[1..][i - 1] == stage[i];
    }
  }

  function Open(l: Lister): nat { if l.Loading? || l.Listing? then 1 else 0 }

  /** The total weight of the listers. */
  function ListerTotal(ls: seq<Lister>, w: Lister -> nat): nat {
    if ls == [] then 0 else w(ls[0]) + ListerTotal(ls[1..], w)
  }

  lemma {:induction false} ListerTotalUpdate(ls: seq<Lister>, w: Lister -> nat, l: nat, x: Lister)
    requires l < |ls|
    ensures ListerTotal(ls[l := x], w) == ListerTotal(ls, w) - w(ls[l]) + w(x)
  {
    if l > 0 {
      assert ls[l := x][1..] == ls[1..][l - 1 := x];
      ListerTotalUpdate(ls[1..], w, l - 1, x);
    } else {
      assert ls[l := x][1..] == ls[1..];
    }
  }

  lemma {:induction false} ListerTotalZero(ls: seq<Lister>, w: Lister -> nat)
    ensures ListerTotal(ls, w) == 0 <==> forall l | 0 <= l < |ls| :: w(ls[l]) == 0
  {
    if ls != [] {
      ListerTotalZero(ls[1..], w);
      assert forall l | 1 <= l < |ls| :: ls[1..][l - 1] == ls[l];
    }
  }

  // ---------------------------------------------------------------- the invariant

  /** The three wait groups count exactly what they should, except that depWait is one short
      for each listing error that was swallowed. */
  ghost predicate Counted(s: Scan) {
    && s.singWait == ListerTotal(s.listers, Open)
    && s.depWait == Total(s.stage, Outstanding) - s.swallowed
    && s.depWait >= 0
    && s.assWait == Total(s.stage, Assembling) + s.exiting
  }

  ghost predicate Shaped(c: Config, s: Scan) {
    |c.lister| == |c.requests| == |s.stage| && |s.listers| == c.listers
    && forall i | 0 <= i < |c.lister| :: c.lister[i] < c.listers
  }

  predicate ListedOk(l: Lister, st: Stage) {
    match l
    case Loading => st == Unlisted
    case Failed => st == Unlisted
    case Listing => true
    case Done => Sent(st)
  }

  /** A lister lists its requests only after loading them, and all of them before it is done. */
  ghost predicate ListersOk(c: Config, s: Scan) {
    && Shaped(c, s)
    && (forall i | 0 <= i < |s.stage| :: ListedOk(s.listers[c.lister[i]], s.stage[i]))
    && (forall l | 0 <= l < |s.listers| :: s.listers[l] == Failed ==> s.swallowed > 0)
  }

  ghost predicate ClosingOk(s: Scan) {
    && (s.closer != AwaitSing ==> s.singWait == 0)
    && (s.closer == AwaitAss || s.closer == Closed ==> s.depWait == 0)
    && (s.outcome == ReturnedOk ==> s.closer == Closed)
  }

  /** The counter is the number of retries of a name, and that is at most four. */
  ghost predicate RetryCountsOk(names: set<string>, retries: map<string, nat>, retried: seq<string>) {
    && (forall name :: multiset(retried)[name] == Tries(retries, name))
    && (forall name :: Tries(retries, name) <= RETRY_LIMIT + 1)
    && (forall name | name in retried :: name in names)
  }

  /** The names under which the listed requests can be retried. */
  ghost function RequestNames(c: Config): set<string> {
    set req | req in c.requests && req.id.Some? :: Name(req)
  }

  predicate RetriedAs(st: Stage, name: string) { st.HasError? && st.cause == CanRetry(name) }

  ghost predicate RetriesOk(c: Config, s: Scan) {
    && RetryCountsOk(RequestNames(c), s.retries, s.retried)
    && forall i, name | 0 <= i < |s.stage| && RetriedAs(s.stage[i], name) :: name in RequestNames(c)
  }

  /** Each token is offered to the result set at most once. */
  ghost predicate OfferedOk(s: Scan) {
    && (forall i, j | 0 <= i < j < |s.offered| :: s.offered[i] != s.offered[j])
    && (forall i: nat :: i in s.offered <==> i < |s.stage| && s.stage[i] == Offered)
  }

  predicate Healthy(s: Scan) { s.outcome == Running || s.outcome == ReturnedOk }

  ghost predicate Inv(c: Config, s: Scan) {
    && |c.lister| == |c.requests| == |s.stage|
    && RetriesOk(c, s)
    && OfferedOk(s)
    && (Healthy(s) ==> ListersOk(c, s) && Counted(s) && ClosingOk(s))
  }

  lemma InitInv(c: Config)
    requires ValidConfig(c)
    ensures Inv(c, Init(c))
  {
    TotalZero(Init(c).stage, Outstanding);
    TotalZero(Init(c).stage, Assembling);
    AllLoading(c.listers, Open);
  }

  lemma {:induction false} AllLoading(n: nat, w: Lister -> nat)
    requires w(Loading) == 1
    ensures ListerTotal(seq(n, i => Loading), w) == n
  {
    if n > 0 {
      assert seq(n, i => Loading)[1..] == seq(n - 1, i => Loading);
      AllLoading(n - 1, w);
    }
  }

  /** Which token an event moves, if any. */
  function Moved(e: Event): Option<nat> {
    match e
    case Add(i) => Some(i)
    case Send(i) => Some(i)
    case HandOver(i) => Some(i)
    case Spawn(i) => Some(i)
    case Start(i) => Some(i)
    case Assemble(i, _) => Some(i)
    case SendDeploy(i) => Some(i)
    case HandOverDeploy(i) => Some(i)
    case MainDeploy(i) => Some(i)
    case MainError(i) => Some(i)
    case _ => None
  }

  /** A move changes the wait groups as it changes what they count. */
  lemma MoveCounts(c: Config, s: Scan, e: Event, i: nat)
    requires Enabled(c, s, e) && Moved(e) == Some(i) && Step(c, s, e).outcome == Running
    ensures var s' := Step(c, s, e);
            && s'.stage == s.stage[i := s'.stage[i]]
            && s'.listers == s.listers && s'.singWait == s.singWait && s'.swallowed == s.swallowed
            && s'.depWait - s.depWait == Outstanding(s'.stage[i]) as int - Outstanding(s.stage[i]) as int
            && (s.depWait >= 0 ==> s'.depWait >= 0)
            && s'.assWait - s.assWait
               == Assembling(s'.stage[i]) as int - Assembling(s.stage[i]) as int + s'.exiting as int - s.exiting as int
  {
    hide Total, Tries;
  }

  lemma CountedMove(c: Config, s: Scan, e: Event, i: nat)
    requires Enabled(c, s, e) && Counted(s) && Moved(e) == Some(i) && Step(c, s, e).outcome == Running
    ensures Counted(Step(c, s, e))
  {
    var s' := Step(c, s, e);
    MoveCounts(c, s, e, i);
    TotalUpdate(s.stage, Outstanding, i, s'.stage[i]);
    TotalUpdate(s.stage, Assembling, i, s'.stage[i]);
    hide Total, Step, Enabled, Outstanding, Assembling;
  }

  lemma CountedOther(c: Config, s: Scan, e: Event)
    requires Enabled(c, s, e) && Counted(s) && Moved(e) == None
    ensures var s' := Step(c, s, e); Healthy(s') ==> Counted(s')
  {
    hide Total;
    match e
    case Load(l) => ListerTotalUpdate(s.listers, Open, l, Listing);
    case FinishListing(l) => ListerTotalUpdate(s.listers, Open, l, Done);
    case FailListing(l, _) => ListerTotalUpdate(s.listers, Open, l, Failed);
    case _ =>
  }

  lemma CountedStep(c: Config, s: Scan, e: Event)
    requires Enabled(c, s, e) && Counted(s)
    ensures Healthy(Step(c, s, e)) ==> Counted(Step(c, s, e))
  {
    assert Moved(e).Some? ==> Step(c, s, e).outcome != ReturnedOk by { hide Total, Tries; }
    hide Step, Enabled, Counted;
    if Moved(e) == None {
      CountedOther(c, s, e);
    } else if Step(c, s, e).outcome == Running {
      CountedMove(c, s, e, Moved(e).value);
    }
  }

  lemma ListersStep(c: Config, s: Scan, e: Event)
    requires Enabled(c, s, e) && ListersOk(c, s)
    ensures Healthy(Step(c, s, e)) ==> ListersOk(c, Step(c, s, e))
  {
    hide Total, MayRetry, AfterTry, Wrapped, IsMalformed, Ignorable;
    if !Moved(e).Some? {
      assert Step(c, s, e).stage == s.stage;
    }
  }

  lemma ClosingStep(c: Config, s: Scan, e: Event)
    requires Enabled(c, s, e) && Counted(s) && ClosingOk(s) && ListersOk(c, s)
    ensures var s' := Step(c, s, e); Healthy(s') ==> ClosingOk(s')
  {
    ListerTotalZero(s.listers, Open);
    hide Total, ListerTotal, Tries;
  }

  lemma OneMoreRetry(names: set<string>, retries: map<string, nat>, retried: seq<string>, name: string)
    requires RetryCountsOk(names, retries, retried) && name in names && Tries(retries, name) <= RETRY_LIMIT
    ensures RetryCountsOk(names, retries[name := Tries(retries, name) + 1], retried + [name])
  {
    var retries', retried' := retries[name := Tries(retries, name) + 1], retried + [name];
    forall x ensures multiset(retried')[x] == Tries(retries', x) <= RETRY_LIMIT + 1 {
      assert multiset(retried)[x] == Tries(retries, x) <= RETRY_LIMIT + 1;
      assert multiset(retried')[x] == multiset(retried)[x] + multiset([name])[x];
    }
    forall x | x in retried' ensures x in names {}
  }

  lemma OnlyErrorsRetry(c: Config, s: Scan, e: Event)
    requires Enabled(c, s, e)
    ensures var s' := Step(c, s, e);
            if e.MainError? && MayRetry(s.retries, s.stage[e.i].cause) then
              var name := s.stage[e.i].cause.name;
              && s'.retries == s.retries[name := Tries(s.retries, name) + 1]
              && s'.retried == s.retried + [name]
            else s'.retries == s.retries && s'.retried == s.retried
  {
    hide Total, Tries;
  }

  lemma OnlyAssembliesFail(c: Config, s: Scan, e: Event, i: nat, name: string)
    requires Enabled(c, s, e) && |Step(c, s, e).stage| == |s.stage| && i < |s.stage|
    requires RetriedAs(Step(c, s, e).stage[i], name)
    ensures RetriedAs(s.stage[i], name) || name in RequestNames(c)
  {
    hide Total, MayRetry, AfterTry;
    if e.Assemble? && e.i == i {
      assert c.requests[i] in c.requests;
    }
  }

  lemma RetriesStep(c: Config, s: Scan, e: Event)
    requires Enabled(c, s, e) && RetriesOk(c, s)
    ensures RetriesOk(c, Step(c, s, e))
  {
    OnlyErrorsRetry(c, s, e);
    assert |Step(c, s, e).stage| == |s.stage| by { hide Total; }
    if e.MainError? && MayRetry(s.retries, s.stage[e.i].cause) {
      var name := s.stage[e.i].cause.name;
      assert RetriedAs(s.stage[e.i], name);
      OneMoreRetry(RequestNames(c), s.retries, s.retried, name);
    }
    hide Step, Enabled, RetryCountsOk, RequestNames;
    forall i, name | 0 <= i < |s.stage| && RetriedAs(Step(c, s, e).stage[i], name) ensures name in RequestNames(c) {
      OnlyAssembliesFail(c, s, e, i, name);
    }
  }

  lemma OfferedStep(c: Config, s: Scan, e: Event)
    requires Enabled(c, s, e) && OfferedOk(s)
    ensures OfferedOk(Step(c, s, e))
  {
    hide Total, MayRetry, AfterTry, Wrapped, IsMalformed, Ignorable;
    var s' := Step(c, s, e);
    if s'.offered != s.offered {
      var i := Moved(e).value;
      assert s'.offered == s.offered + [i] && i !in s.offered;
    }
  }

  lemma StepInv(c: Config, s: Scan, e: Event)
    requires Inv(c, s) && Enabled(c, s, e)
    ensures Inv(c, Step(c, s, e))
  {
    CountedStep(c, s, e);
    ListersStep(c, s, e);
    ClosingStep(c, s, e);
    RetriesStep(c, s, e);
    OfferedStep(c, s, e);
    assert |Step(c, s, e).stage| == |s.stage| by { hide Total; }
    hide Step, Enabled, Counted, ListersOk, ClosingOk, RetriesOk, OfferedOk;
  }

  // ---------------------------------------------------------------- termination

  function Rank(st: Stage): nat {
    match st
    case Unlisted => 10
    case Added => 9
    case Sleeping => 9
    case Queued => 8
    case Spawned => 7
    case Working => 6
    case HasDeploy => 4
    case HasError(_) => 4
    case InDepCh => 2
    case Offered => 0
    case Dropped => 0
  }

  function ListerRank(l: Lister): nat { if l.Loading? then 2 else if l.Listing? then 1 else 0 }

  function CloserRank(cl: Closer): nat {
    match cl case AwaitSing => 3 case AwaitDep => 2 case AwaitAss => 1 case Closed => 0
  }

  /** Each retry spends one of four per name; everything else moves a token, a goroutine, a
      lister or the closer forward. */
  ghost function Measure(c: Config, s: Scan): int {
    8 * ((RETRY_LIMIT + 1) * |RequestNames(c)| - |s.retried|)
    + Total(s.stage, Rank) + s.exiting + ListerTotal(s.listers, ListerRank) + CloserRank(s.closer)
    + if s.outcome == Running then 1 else 0
  }

  lemma {:induction false} MultisetBound(m: multiset<string>, names: set<string>, k: nat)
    requires forall x | x in m :: x in names && m[x] <= k
    ensures |m| <= k * |names|
  {
    if names == {} {
      assert m == multiset{};
    } else {
      var n :| n in names;
      var rest := m[n := 0];
      MultisetBound(rest, names - {n}, k);
      assert m == rest[n := m[n]];
      assert k * |names| == k * (|names - {n}|) + k;
    }
  }

  lemma RetriesBoundedIn(c: Config, s: Scan)
    requires RetriesOk(c, s)
    ensures forall name :: multiset(s.retried)[name] <= RETRY_LIMIT + 1
    ensures |s.retried| <= (RETRY_LIMIT + 1) * |RequestNames(c)|
  {
    var m := multiset(s.retried);
    forall x | x in m ensures x in RequestNames(c) && m[x] <= RETRY_LIMIT + 1 {
      assert x in s.retried;
      assert m[x] == Tries(s.retries, x);
    }
    MultisetBound(m, RequestNames(c), RETRY_LIMIT + 1);
  }

  /** What a token's move does to the parts of the measure. */
  lemma MoveEffect(c: Config, s: Scan, e: Event, i: nat)
    requires Enabled(c, s, e) && Moved(e) == Some(i)
    ensures var s' := Step(c, s, e);
            && s'.stage == s.stage[i := s'.stage[i]] && s'.listers == s.listers && s'.closer == s.closer
            && 8 * |s'.retried| - 8 * |s.retried| + (if s.outcome == Running then 1 else 0)
               - (if s'.outcome == Running then 1 else 0)
               > Rank(s'.stage[i]) as int - Rank(s.stage[i]) as int + s'.exiting as int - s.exiting as int
  {
    hide Total, Tries;
  }

  lemma MeasureMove(c: Config, s: Scan, e: Event, i: nat)
    requires Enabled(c, s, e) && Moved(e) == Some(i)
    ensures Measure(c, Step(c, s, e)) < Measure(c, s)
  {
    MoveEffect(c, s, e, i);
    TotalUpdate(s.stage, Rank, i, Step(c, s, e).stage[i]);
    hide Total, ListerTotal, Step, Enabled, Rank;
  }

  lemma MeasureOther(c: Config, s: Scan, e: Event)
    requires Enabled(c, s, e) && Moved(e) == None
    ensures Measure(c, Step(c, s, e)) < Measure(c, s)
  {
    hide Total;
    match e
    case Load(l) => ListerTotalUpdate(s.listers, ListerRank, l, Listing);
    case FinishListing(l) => ListerTotalUpdate(s.listers, ListerRank, l, Done);
    case FailListing(l, _) => ListerTotalUpdate(s.listers, ListerRank, l, Failed);
    case _ =>
  }

  // ---------------------------------------------------------------- runs

  ghost function Run(c: Config, es: seq<Event>): (r: Option<Scan>)
    requires ValidConfig(c)
    ensures r.Some? ==> Inv(c, r.value)
  {
    if es == [] then
      InitInv(c);
      Some(Init(c))
    else
      var n := |es| - 1;
      var before := Run(c, es[..n]);
      if before.Some? && Enabled(c, before.value, es[n]) then
        StepInv(c, before.value, es[n]);
        Some(Step(c, before.value, es[n]))
      else None
  }

  lemma RunLast(c: Config, es: seq<Event>, e: Event)
    requires ValidConfig(c) && Run(c, es + [e]).Some?
    ensures Run(c, es).Some? && Enabled(c, Run(c, es).value, e)
    ensures Run(c, es + [e]) == Some(Step(c, Run(c, es).value, e))
  {
    assert (es + [e])[..|es|] == es;
    hide Inv, Step, Enabled;
  }

  lemma RunSnoc(c: Config, es: seq<Event>, s: Scan, e: Event)
    requires ValidConfig(c) && Run(c, es) == Some(s) && Enabled(c, s, e)
    ensures Run(c, es + [e]) == Some(Step(c, s, e))
  {
    assert (es + [e])[..|es|] == es;
    hide Inv, Step, Enabled, Init;
  }

  /** Every run is finite: it has no more steps than the initial measure, whatever the
      scheduling, the assembly results and the errors. */
  lemma {:induction false} RunsTerminate(c: Config, es: seq<Event>)
    requires ValidConfig(c) && Run(c, es).Some?
    ensures |es| + Measure(c, Run(c, es).value) <= Measure(c, Init(c))
    ensures Measure(c, Run(c, es).value) >= 0
  {
    hide Inv, Step, Enabled, Measure, Init;
    if es != [] {
      var n := |es| - 1;
      RunsTerminate(c, es[..n]);
      var s := Run(c, es[..n]).value;
      if Moved(es[n]).Some? { MeasureMove(c, s, es[n], Moved(es[n]).value); } else { MeasureOther(c, s, es[n]); }
    }
    MeasureNonNegative(c, Run(c, es).value);
  }

  /** In every run, however it ends, each request name is retried at most four times, and nothing
      but the names of listed requests is. */
  lemma RetriesBounded(c: Config, es: seq<Event>)
    requires ValidConfig(c) && Run(c, es).Some?
    ensures var s := Run(c, es).value;
            && (forall name :: multiset(s.retried)[name] <= 4)
            && (forall name | name in s.retried ::
                  exists req :: req in c.requests && req.id.Some? && name == req.sourceURL + ":" + req.id.value)
            && |s.retried| <= 4 * |RequestNames(c)| <= 4 * |c.requests|
  {
    var s := Run(c, es).value;
    RetriesBoundedIn(c, s);
    FewNames(c.requests);
    assert RequestNames(c) == Named(c.requests);
    forall name | name in s.retried
      ensures exists req :: req in c.requests && req.id.Some? && name == req.sourceURL + ":" + req.id.value
    {
      hide Run;
      assert name in RequestNames(c);
      var req :| req in c.requests && req.id.Some? && Name(req) == name;
    }
    hide Run;
  }

  ghost function Named(reqs: seq<Request>): set<string> { set req | req in reqs && req.id.Some? :: Name(req) }

  lemma {:induction false} FewNames(reqs: seq<Request>)
    ensures |Named(reqs)| <= |reqs|
  {
    if reqs != [] {
      FewNames(reqs[1..]);
      assert reqs == [reqs[0]] + reqs[1..];
      assert Named(reqs) == (if reqs[0].id.Some? then {Name(reqs[0])} else {}) + Named(reqs[1..]);
    }
  }

  lemma MeasureNonNegative(c: Config, s: Scan)
    requires Inv(c, s)
    ensures Measure(c, s) >= 0
  {
    RetriesBoundedIn(c, s);
    hide Total, ListerTotal;
  }

  // ---------------------------------------------------------------- conservation

  /** The request's deployment was assembled without an error. */
  predicate Assembled(es: seq<Event>, i: nat) { Assemble(i, None) in es }

  /** Assembling the request's deployment failed with an error that is dropped. */
  predicate FailedHarmlessly(es: seq<Event>, i: nat) {
    Assemble(i, Some(Malformed)) in es || Assemble(i, Some(NonSous)) in es || Assemble(i, Some(NotThisCluster)) in es
  }

  /** Where a token is, and the error it carries, comes from an assembly of its own. */
  ghost predicate CameFrom(c: Config, es: seq<Event>, i: nat, st: Stage)
    requires i < |c.requests|
  {
    && (st.HasDeploy? || st.InDepCh? || st.Offered? ==> Assembled(es, i))
    && (st.HasError? ==> exists cause :: Assemble(i, Some(cause)) in es && !cause.CanRetry?
                                         && st.cause == Wrapped(c.requests[i], cause))
    && (st.Dropped? ==> FailedHarmlessly(es, i))
  }

  lemma CameFromStep(c: Config, s: Scan, es: seq<Event>, e: Event, i: nat)
    requires Enabled(c, s, e) && i < |c.requests| && i < |s.stage| && CameFrom(c, es, i, s.stage[i])
    ensures i < |Step(c, s, e).stage| && CameFrom(c, es + [e], i, Step(c, s, e).stage[i])
  {
    hide Total, MayRetry, AfterTry, Wrapped;
    var s' := Step(c, s, e);
    assert forall x | x in es :: x in es + [e];
    assert e in es + [e];
    if e == MainError(i) && s'.stage[i].Dropped? {
      var cause :| Assemble(i, Some(cause)) in es && !cause.CanRetry?
                     && s.stage[i].cause == Wrapped(c.requests[i], cause);
      AssemblyVerdict(c.requests[i], cause);
    }
  }

  lemma {:induction false} Provenance(c: Config, es: seq<Event>, i: nat)
    requires ValidConfig(c) && Run(c, es).Some? && i < |c.requests|
    ensures |Run(c, es).value.stage| == |c.requests| && CameFrom(c, es, i, Run(c, es).value.stage[i])
  {
    if es == [] {
      assert Run(c, es) == Some(Init(c));
      hide Run, Inv;
    } else {
      hide Run, Inv, Step, Enabled, CameFrom;
      var n := |es| - 1;
      assert es == es[..n] + [es[n]];
      RunLast(c, es[..n], es[n]);
      Provenance(c, es[..n], i);
      CameFromStep(c, Run(c, es[..n]).value, es[..n], es[n], i);
      StagesKept(c, Run(c, es[..n]).value, es[n]);
    }
  }

  lemma StagesKept(c: Config, s: Scan, e: Event)
    requires Enabled(c, s, e)
    ensures |Step(c, s, e).stage| == |s.stage|
  {
    hide Total;
  }

  /** The request has been offered to the result set after its deployment was assembled, or dropped
      for one of the three errors that allow it; or it was never listed, as its listing failed. */
  ghost predicate Resolved(c: Config, s: Scan, es: seq<Event>, i: nat)
    requires ListersOk(c, s) && i < |s.stage|
  {
    || (s.stage[i] == Offered && Assembled(es, i))
    || (s.stage[i] == Dropped && FailedHarmlessly(es, i))
    || s.listers[c.lister[i]] == Failed
  }

  /** When the scan returns without an error, exactly as many listed requests are missing from
      the result as listing errors were taken for malformed deploys. So all listed requests
      have been offered to the result set or dropped, each for a reason that allows it, if and only
      if there were none. */
  lemma ReturnedOkIsComplete(c: Config, es: seq<Event>)
    requires ValidConfig(c) && Run(c, es).Some? && Run(c, es).value.outcome == ReturnedOk
    ensures var s := Run(c, es).value;
            && ListersOk(c, s)
            && Total(s.stage, Outstanding) == s.swallowed
            && (s.swallowed == 0 <==> forall i | 0 <= i < |s.stage| :: Resolved(c, s, es, i))
            && (forall i: nat :: i in s.offered <==> i < |s.stage| && s.stage[i] == Offered)
  {
    var s := Run(c, es).value;
    ListerTotalZero(s.listers, Open);
    TotalZero(s.stage, Outstanding);
    forall i | 0 <= i < |s.stage| ensures Outstanding(s.stage[i]) == 0 <==> Resolved(c, s, es, i) {
      hide Run, Total;
      Provenance(c, es, i);
      assert Open(s.listers[c.lister[i]]) == 0;
      assert ListedOk(s.listers[c.lister[i]], s.stage[i]);
    }
    hide Run, Total;
  }

  /** While the scan runs, the wait groups count the listers still at work, the unresolved
      requests and the assemblers; each request is in one place. */
  lemma WaitGroupCountsUnresolved(c: Config, es: seq<Event>)
    requires ValidConfig(c) && Run(c, es).Some? && Run(c, es).value.outcome == Running
    ensures var s := Run(c, es).value;
            && s.singWait == ListerTotal(s.listers, Open)
            && s.depWait + s.swallowed == Total(s.stage, Outstanding)
            && s.assWait == Total(s.stage, Assembling) + s.exiting
  {
    hide Run;
    hide Total, ListerTotal;
  }

  // ---------------------------------------------------------------- the pool and the channels

  /** How a move changes what the pool and the channels hold. */
  lemma MoveFits(c: Config, s: Scan, e: Event, i: nat)
    requires Enabled(c, s, e) && Moved(e) == Some(i)
    ensures var s' := Step(c, s, e);
            && i < |s.stage| && s'.stage == s.stage[i := s'.stage[i]]
            && (Pooled(s'.stage[i]) + s'.exiting <= Pooled(s.stage[i]) + s.exiting
                || (s'.exiting == s.exiting && Total(s.stage, Pooled) + s.exiting < 100))
            && (InReqCh(s'.stage[i]) <= InReqCh(s.stage[i]) || Total(s.stage, InReqCh) < c.reqCap)
            && (InDeployCh(s'.stage[i]) <= InDeployCh(s.stage[i]) || Total(s.stage, InDeployCh) < c.depCap)
  {
    hide Total, MayRetry, AfterTry, Wrapped;
  }

  lemma OthersFit(c: Config, s: Scan, e: Event)
    requires Enabled(c, s, e) && Moved(e) == None
    ensures Step(c, s, e).stage == s.stage && Step(c, s, e).exiting <= s.exiting
  {
    hide Total, MayRetry, AfterTry;
  }

  /** In every run at most a hundred assemblers hold a place in the pool, and neither channel holds
      more than its capacity. */
  lemma {:induction false} PoolBounded(c: Config, es: seq<Event>)
    requires ValidConfig(c) && Run(c, es).Some?
    ensures var s := Run(c, es).value;
            && Total(s.stage, Pooled) + s.exiting <= 100
            && Total(s.stage, InReqCh) <= c.reqCap && Total(s.stage, InDeployCh) <= c.depCap
  {
    if es == [] {
      hide Inv;
      NoneIn(Init(c).stage, Pooled);
      NoneIn(Init(c).stage, InReqCh);
      NoneIn(Init(c).stage, InDeployCh);
    } else {
      var n := |es| - 1;
      PoolBounded(c, es[..n]);
      hide Inv, Step, Enabled, Total, Pooled, InReqCh, InDeployCh;
      var (s, s') := (Run(c, es[..n]).value, Run(c, es).value);
      if Moved(es[n]).Some? {
        var i := Moved(es[n]).value;
        MoveFits(c, s, es[n], i);
        AtMostOne(s'.stage[i]);
        TotalUpdate(s.stage, Pooled, i, s'.stage[i]);
        TotalUpdate(s.stage, InReqCh, i, s'.stage[i]);
        TotalUpdate(s.stage, InDeployCh, i, s'.stage[i]);
      } else {
        OthersFit(c, s, es[n]);
      }
    }
  }

  lemma AtMostOne(st: Stage)
    ensures Pooled(st) <= 1 && InReqCh(st) <= 1 && InDeployCh(st) <= 1
  {}

  lemma NoneIn(stage: seq<Stage>, w: Stage -> nat)
    requires forall i | 0 <= i < |stage| :: w(stage[i]) == 0
    ensures Total(stage, w) == 0
  {
    TotalZero(stage, w);
  }

  // ---------------------------------------------------------------- closing

  /** No request is outstanding and no assembler is left. */
  ghost predicate Quiet(s: Scan) { Total(s.stage, Outstanding) == 0 && s.exiting == 0 }

  lemma QuietStep(c: Config, s: Scan, e: Event)
    requires Enabled(c, s, e) && Inv(c, s) && s.closer == Closed && Step(c, s, e).swallowed == 0
    requires Quiet(s)
    ensures Quiet(Step(c, s, e))
  {
    TotalZero(s.stage, Outstanding);
    ListerTotalZero(s.listers, Open);
    hide Total, ListerTotal, MayRetry, AfterTry, Wrapped;
    assert Moved(e) == None;
    assert Step(c, s, e).stage == s.stage;
  }

  /** The channels are closed only when, unless a listing error was swallowed, every request is
      resolved and every assembler has exited: nothing can send on them any more. */
  lemma {:induction false} ClosedIsQuiet(c: Config, es: seq<Event>)
    requires ValidConfig(c) && Run(c, es).Some?
    requires var s := Run(c, es).value; s.closer == Closed && s.swallowed == 0
    ensures Quiet(Run(c, es).value)
  {
    if es == [] {
      hide Inv;
    } else {
      var n := |es| - 1;
      assert es == es[..n] + [es[n]];
      hide Run;
      RunLast(c, es[..n], es[n]);
      var s := Run(c, es[..n]).value;
      SwallowStep(c, s, es[n]);
      ClosesOnce(c, s, es[n]);
      hide Inv, Step, Enabled, Quiet;
      if s.closer == Closed {
        ClosedIsQuiet(c, es[..n]);
        QuietStep(c, s, es[n]);
      } else {
        QuietWhenClosing(c, s);
      }
    }
  }

  lemma ClosesOnce(c: Config, s: Scan, e: Event)
    requires Enabled(c, s, e) && Step(c, s, e).closer == Closed
    ensures s.closer == Closed || (e == CloserAss && Step(c, s, e) == s.(closer := Closed))
  {
    hide Total, MayRetry, AfterTry;
  }

  lemma QuietWhenClosing(c: Config, s: Scan)
    requires Inv(c, s) && Enabled(c, s, CloserAss) && s.swallowed == 0
    ensures Quiet(s.(closer := Closed))
  {
    hide Total, ListerTotal;
  }

  // ---------------------------------------------------------------- errors

  lemma ErrorStep(c: Config, s: Scan, i: nat)
    requires Enabled(c, s, MainError(i))
    ensures i < |s.stage| && s.stage[i].HasError?
    ensures var s' := Step(c, s, MainError(i));
            var cause := s.stage[i].cause;
            if Harmless(cause) then s'.stage == s.stage[i := Dropped] && s'.retried == s.retried
            else if cause.CanRetry? && Tries(s.retries, cause.name) < 4
            then s'.stage == s.stage[i := Sleeping] && s'.retried == s.retried + [cause.name] && s'.outcome == Running
            else s'.stage == s.stage && s'.outcome == ReturnedErr
  {
    hide Total, Tries;
  }

  /** What the main loop makes of an assembly error: one of the three is dropped, one that can be
      retried is, up to four times for its name, and any other ends the scan. */
  lemma ErrorDecides(c: Config, es: seq<Event>, i: nat)
    requires ValidConfig(c) && Run(c, es + [MainError(i)]).Some?
    ensures Run(c, es).Some? && i < |Run(c, es).value.stage| && Run(c, es).value.stage[i].HasError?
    ensures var (s, s') := (Run(c, es).value, Run(c, es + [MainError(i)]).value);
            var cause := s.stage[i].cause;
            if Harmless(cause) then s'.stage == s.stage[i := Dropped] && s'.retried == s.retried
            else if cause.CanRetry? && multiset(s.retried)[cause.name] < 4
            then s'.stage == s.stage[i := Sleeping] && s'.retried == s.retried + [cause.name] && s'.outcome == Running
            else s'.stage == s.stage && s'.outcome == ReturnedErr
  {
    RunLast(c, es, MainError(i));
    ErrorStep(c, Run(c, es).value, i);
    CountsRetries(c, Run(c, es).value);
    hide Run, Inv, Step, Enabled, Tries;
  }

  lemma CountsRetries(c: Config, s: Scan)
    requires Inv(c, s)
    ensures forall name :: multiset(s.retried)[name] == Tries(s.retries, name)
  {}

  /** A listing error ends the scan if and only if it is none of the three. */
  lemma ListingErrorDecides(c: Config, es: seq<Event>, l: nat, cause: Cause)
    requires ValidConfig(c) && Run(c, es + [FailListing(l, cause)]).Some?
    ensures Run(c, es + [FailListing(l, cause)]).value.outcome == ReturnedErr <==> !Harmless(cause)
  {
    RunLast(c, es, FailListing(l, cause));
    hide Run, Inv, Total;
  }

  /** And nothing else returns an error. */
  lemma OnlyErrorsReturn(c: Config, es: seq<Event>, e: Event)
    requires ValidConfig(c) && Run(c, es + [e]).Some? && Run(c, es + [e]).value.outcome == ReturnedErr
    ensures e.MainError? || e.FailListing?
  {
    RunLast(c, es, e);
    hide Run, Inv, Total, MayRetry, AfterTry;
  }

  // ---------------------------------------------------------------- swallowed listing errors

  /** A listing error that the main loop takes for a malformed deploy. */
  predicate Swallows(e: Event) { e.FailListing? && Harmless(e.cause) }

  function SwallowedIn(es: seq<Event>): nat {
    if es == [] then 0 else SwallowedIn(es[..|es| - 1]) + if Swallows(es[|es| - 1]) then 1 else 0
  }

  lemma SwallowStep(c: Config, s: Scan, e: Event)
    requires Enabled(c, s, e)
    ensures Step(c, s, e).swallowed == s.swallowed + if Swallows(e) then 1 else 0
  {
    hide Total, Tries;
  }

  lemma {:induction false} SwallowedCounts(c: Config, es: seq<Event>)
    requires ValidConfig(c) && Run(c, es).Some?
    ensures Run(c, es).value.swallowed == SwallowedIn(es)
  {
    hide Inv, Step, Enabled, Swallows;
    if es != [] {
      var n := |es| - 1;
      SwallowedCounts(c, es[..n]);
      SwallowStep(c, Run(c, es[..n]).value, es[n]);
    }
  }

  /** The counter only goes below zero for a token that is outstanding, or for a listing error. */
  lemma PanicStep(c: Config, s: Scan, e: Event)
    requires Enabled(c, s, e) && Step(c, s, e).outcome == Panicked
    ensures s.depWait == 0
    ensures Swallows(e) || exists i :: 0 <= i < |s.stage| && Outstanding(s.stage[i]) == 1
  {
    hide Total, Tries, MayRetry, AfterTry;
    if Moved(e).Some? {
      assert Outstanding(s.stage[Moved(e).value]) == 1;
    }
  }

  lemma {:induction false} PanicsOnlyAfterSwallowing(c: Config, es: seq<Event>)
    requires ValidConfig(c) && Run(c, es).Some? && Run(c, es).value.outcome == Panicked
    ensures SwallowedIn(es) > 0
  {
    hide Inv, Step, Enabled, Outstanding, Swallows;
    if es != [] {
      var n := |es| - 1;
      var s := Run(c, es[..n]).value;
      assert s.outcome == Running by { OnlyRunning(c, s, es[n]); }
      SwallowedCounts(c, es[..n]);
      PanicStep(c, s, es[n]);
      TotalZero(s.stage, Outstanding);
      WaitGroupCountsUnresolved(c, es[..n]);
    }
  }

  lemma OnlyRunning(c: Config, s: Scan, e: Event)
    requires Enabled(c, s, e)
    ensures s.outcome == Running
  {}

  /** The scan is sound exactly as long as no listing error is swallowed. Without one it never
      panics, and if it returns without an error it is complete. With one, it has ended in a
      panic, with an error, or with a listed request missing from a result without an error. */
  lemma SoundUnlessSwallowed(c: Config, es: seq<Event>)
    requires ValidConfig(c) && Run(c, es).Some? && Run(c, es).value.outcome != Running
    ensures var s := Run(c, es).value;
            var complete := s.outcome == ReturnedOk && ListersOk(c, s)
                            && forall i | 0 <= i < |s.stage| :: Resolved(c, s, es, i);
            if SwallowedIn(es) == 0 then complete || s.outcome == ReturnedErr
            else !complete && (s.outcome == Panicked || s.outcome == ReturnedErr
                               || (s.outcome == ReturnedOk && ListersOk(c, s)
                                   && exists i :: 0 <= i < |s.stage| && !Resolved(c, s, es, i)))
  {
    var s := Run(c, es).value;
    SwallowedCounts(c, es);
    if s.outcome == ReturnedOk {
      ReturnedOkIsComplete(c, es);
    } else if s.outcome == Panicked {
      PanicsOnlyAfterSwallowing(c, es);
    }
    hide Run, ListersOk, Resolved;
  }

  ghost predicate Panics(c: Config, es: seq<Event>)
    requires ValidConfig(c)
  {
    Run(c, es).Some? && Run(c, es).value.outcome == Panicked
  }

  /** For every set of requests, some run panics if and only if there is a cluster to list: its
      listing fails to decode before any request is outstanding. */
  lemma SomeRunPanics(c: Config)
    requires ValidConfig(c)
    ensures (exists es :: Panics(c, es)) <==> c.listers > 0
  {
    if c.listers > 0 {
      PanicsAtOnce(c);
    }
    if es :| Panics(c, es) {
      hide Run, Inv;
      PanicsOnlyAfterSwallowing(c, es);
      SomeListerFails(c, es);
    }
  }

  lemma PanicsAtOnce(c: Config)
    requires ValidConfig(c) && c.listers > 0
    ensures Panics(c, [] + [FailListing(0, Malformed)])
  {
    assert Run(c, []) == Some(Init(c));
    assert Enabled(c, Init(c), FailListing(0, Malformed))
           && Step(c, Init(c), FailListing(0, Malformed)).outcome == Panicked;
    hide Inv, Run, Step, Enabled, Init;
    RunSnoc(c, [], Init(c), FailListing(0, Malformed));
  }

  lemma ListersKept(c: Config, s: Scan, e: Event)
    requires Enabled(c, s, e)
    ensures |Step(c, s, e).listers| == |s.listers|
    ensures Swallows(e) ==> |s.listers| > 0
  {
    hide Total, Tries, MayRetry, AfterTry;
  }

  lemma {:induction false} SomeListerFails(c: Config, es: seq<Event>)
    requires ValidConfig(c) && Run(c, es).Some?
    ensures |Run(c, es).value.listers| == c.listers
    ensures SwallowedIn(es) > 0 ==> c.listers > 0
  {
    hide Inv, Step, Enabled, Swallows;
    if es != [] {
      var n := |es| - 1;
      SomeListerFails(c, es[..n]);
      ListersKept(c, Run(c, es[..n]).value, es[n]);
    }
  }

  // ---------------------------------------------------------------- no deadlock

  /** The token a lister sends next. */
  lemma {:induction false} FirstUnlisted(c: Config, s: Scan, l: nat, n: nat) returns (r: Option<nat>)
    requires Shaped(c, s) && n <= |s.stage|
    ensures r.None? ==> forall j | 0 <= j < n && c.lister[j] == l :: s.stage[j] != Unlisted
    ensures r.Some? ==> r.value < n && c.lister[r.value] == l && s.stage[r.value] == Unlisted
                        && forall j | 0 <= j < r.value && c.lister[j] == l :: s.stage[j] != Unlisted
  {
    if n == 0 {
      r := None;
    } else {
      r := FirstUnlisted(c, s, l, n - 1);
      if r == None && c.lister[n - 1] == l && s.stage[n - 1] == Unlisted { r := Some(n - 1); }
    }
  }

  /** A token that is in no channel and no goroutine. */
  predicate AtRest(st: Stage) { st.Unlisted? || st.Offered? || st.Dropped? }

  lemma TokenProgress(c: Config, s: Scan, i: nat) returns (e: Event)
    requires s.outcome == Running && s.exiting == 0 && Shaped(c, s) && i < |s.stage| && !AtRest(s.stage[i])
    ensures Enabled(c, s, e)
  {
    if j :| 0 <= j < |s.stage| && s.stage[j].InDepCh? {
      e := MainDeploy(j);
    } else if j :| 0 <= j < |s.stage| && s.stage[j].HasError? {
      e := MainError(j);
    } else if j :| 0 <= j < |s.stage| && s.stage[j].HasDeploy? {
      NoneIn(s.stage, InDeployCh);
      e := if c.depCap == 0 then HandOverDeploy(j) else SendDeploy(j);
    } else if j :| 0 <= j < |s.stage| && s.stage[j].Working? {
      e := Assemble(j, None);
    } else if j :| 0 <= j < |s.stage| && s.stage[j].Spawned? {
      NoneIn(s.stage, Pooled);
      e := Start(j);
    } else if j :| 0 <= j < |s.stage| && s.stage[j].Queued? {
      e := Spawn(j);
    } else {
      NoneIn(s.stage, InReqCh);
      e := if c.reqCap == 0 then HandOver(i) else Send(i);
    }
  }

  lemma ListerProgress(c: Config, s: Scan, l: nat) returns (e: Event)
    requires s.outcome == Running && Shaped(c, s) && l < |s.listers| && s.listers[l] == Listing
    requires forall i | 0 <= i < |s.stage| :: AtRest(s.stage[i])
    ensures Enabled(c, s, e)
  {
    var first := FirstUnlisted(c, s, l, |s.stage|);
    e := if first == None then FinishListing(l) else Add(first.value);
  }

  lemma CloserProgress(c: Config, s: Scan) returns (e: Event)
    requires Inv(c, s) && s.outcome == Running && s.exiting == 0
    requires forall i | 0 <= i < |s.stage| :: AtRest(s.stage[i])
    requires forall l | 0 <= l < |s.listers| :: s.listers[l] == Done || s.listers[l] == Failed
    ensures Enabled(c, s, e)
  {
    ListerTotalZero(s.listers, Open);
    NoneIn(s.stage, Outstanding);
    NoneIn(s.stage, Assembling);
    e := match s.closer case AwaitSing => CloserSing case AwaitDep => CloserDep
        case AwaitAss => CloserAss case Closed => MainClosed;
  }

  /** While the scan runs, some goroutine can move, whatever the channel capacities: with
      `RunsTerminate`, every scan ends. `SoundUnlessSwallowed` says how. */
  lemma NoDeadlock(c: Config, s: Scan) returns (e: Event)
    requires Inv(c, s) && s.outcome == Running
    ensures Enabled(c, s, e)
  {
    if l :| 0 <= l < |s.listers| && s.listers[l] == Loading {
      e := Load(l);
    } else if s.exiting > 0 {
      e := Exit;
    } else if i :| 0 <= i < |s.stage| && !AtRest(s.stage[i]) {
      e := TokenProgress(c, s, i);
    } else if l :| 0 <= l < |s.listers| && s.listers[l] == Listing {
      e := ListerProgress(c, s, l);
    } else {
      e := CloserProgress(c, s);
    }
  }

  // ---------------------------------------------------------------- a lost request

  /** One request at the first of two base URLs. */
  const TWO_CLUSTERS := Config([Request("u", Some("r"))], [0], 2, 10, 10)

  function At(st: Stage, first: Lister, second: Lister, singWait: int, depWait: int,
              closer: Closer, outcome: Outcome, swallowed: nat): Scan
  {
    Scan([st], [first, second], singWait, depWait, 0, 0, map[], closer, outcome, [], [], swallowed)
  }

  lemma Next(es: seq<Event>, s: Scan, e: Event, s': Scan)
    requires ValidConfig(TWO_CLUSTERS) && Run(TWO_CLUSTERS, es) == Some(s)
    requires Enabled(TWO_CLUSTERS, s, e) && Step(TWO_CLUSTERS, s, e) == s'
    ensures Run(TWO_CLUSTERS, es + [e]) == Some(s')
  {
    hide Step, Enabled;
    RunSnoc(TWO_CLUSTERS, es, s, e);
  }

  lemma RequestListed()
    ensures ValidConfig(TWO_CLUSTERS)
    ensures Run(TWO_CLUSTERS, [] + [Load(0)] + [Add(0)])
            == Some(At(Added, Listing, Loading, 2, 1, AwaitSing, Running, 0))
  {
    assert Init(TWO_CLUSTERS) == At(Unlisted, Loading, Loading, 2, 0, AwaitSing, Running, 0);
    assert Run(TWO_CLUSTERS, []) == Some(Init(TWO_CLUSTERS));
    hide Run, Init, Total;
    Next([], At(Unlisted, Loading, Loading, 2, 0, AwaitSing, Running, 0), Load(0),
         At(Unlisted, Listing, Loading, 2, 0, AwaitSing, Running, 0));
    Next([] + [Load(0)], At(Unlisted, Listing, Loading, 2, 0, AwaitSing, Running, 0), Add(0),
         At(Added, Listing, Loading, 2, 1, AwaitSing, Running, 0));
  }

  lemma RequestSent(es: seq<Event>)
    requires ValidConfig(TWO_CLUSTERS) && Run(TWO_CLUSTERS, es)
             == Some(At(Added, Listing, Loading, 2, 1, AwaitSing, Running, 0))
    ensures Run(TWO_CLUSTERS, es + [Send(0)]) == Some(At(Queued, Listing, Loading, 2, 1, AwaitSing, Running, 0))
  {
    NoneIn([Added], InReqCh);
    hide Run, Total;
    Next(es, At(Added, Listing, Loading, 2, 1, AwaitSing, Running, 0), Send(0),
         At(Queued, Listing, Loading, 2, 1, AwaitSing, Running, 0));
  }

  lemma ListingsDone(es: seq<Event>)
    requires ValidConfig(TWO_CLUSTERS) && Run(TWO_CLUSTERS, es)
             == Some(At(Queued, Listing, Loading, 2, 1, AwaitSing, Running, 0))
    ensures Run(TWO_CLUSTERS, es + [FinishListing(0)] + [FailListing(1, Malformed)])
            == Some(At(Queued, Done, Failed, 0, 0, AwaitSing, Running, 1))
  {
    hide Run, Total;
    Next(es, At(Queued, Listing, Loading, 2, 1, AwaitSing, Running, 0), FinishListing(0),
         At(Queued, Done, Loading, 1, 1, AwaitSing, Running, 0));
    Next(es + [FinishListing(0)], At(Queued, Done, Loading, 1, 1, AwaitSing, Running, 0), FailListing(1, Malformed),
         At(Queued, Done, Failed, 0, 0, AwaitSing, Running, 1));
  }

  lemma ClosesEarly(es: seq<Event>)
    requires ValidConfig(TWO_CLUSTERS) && Run(TWO_CLUSTERS, es)
             == Some(At(Queued, Done, Failed, 0, 0, AwaitSing, Running, 1))
    ensures Run(TWO_CLUSTERS, es + [CloserSing] + [CloserDep])
            == Some(At(Queued, Done, Failed, 0, 0, AwaitAss, Running, 1))
  {
    hide Run, Total;
    Next(es, At(Queued, Done, Failed, 0, 0, AwaitSing, Running, 1), CloserSing,
         At(Queued, Done, Failed, 0, 0, AwaitDep, Running, 1));
    Next(es + [CloserSing], At(Queued, Done, Failed, 0, 0, AwaitDep, Running, 1), CloserDep,
         At(Queued, Done, Failed, 0, 0, AwaitAss, Running, 1));
  }

  lemma ReturnsEarly(es: seq<Event>)
    requires ValidConfig(TWO_CLUSTERS) && Run(TWO_CLUSTERS, es)
             == Some(At(Queued, Done, Failed, 0, 0, AwaitAss, Running, 1))
    ensures Run(TWO_CLUSTERS, es + [CloserAss] + [MainClosed])
            == Some(At(Queued, Done, Failed, 0, 0, Closed, ReturnedOk, 1))
  {
    hide Run, Total;
    Next(es, At(Queued, Done, Failed, 0, 0, AwaitAss, Running, 1), CloserAss,
         At(Queued, Done, Failed, 0, 0, Closed, Running, 1));
    Next(es + [CloserAss], At(Queued, Done, Failed, 0, 0, Closed, Running, 1), MainClosed,
         At(Queued, Done, Failed, 0, 0, Closed, ReturnedOk, 1));
  }

  /** Two clusters; one lists a request, the other's listing fails to decode. The scan returns
      without an error while the request is still in the channel. */
  lemma ListedRequestLost() returns (es: seq<Event>)
    ensures ValidConfig(TWO_CLUSTERS) && Run(TWO_CLUSTERS, es).Some?
    ensures Run(TWO_CLUSTERS, es).value.outcome == ReturnedOk && Run(TWO_CLUSTERS, es).value.stage == [Queued]
  {
    hide Run;
    RequestListed();
    es := [] + [Load(0)] + [Add(0)];
    RequestSent(es);
    es := es + [Send(0)];
    ListingsDone(es);
    es := es + [FinishListing(0)] + [FailListing(1, Malformed)];
    ClosesEarly(es);
    es := es + [CloserSing] + [CloserDep];
    ReturnsEarly(es);
    es := es + [CloserAss] + [MainClosed];
  }
}
