/** lib/subpoller.go: what one cluster's server says about one deployment. */
module SubPollers {
  import opened Types
  import opened StatusPollers

  const MAX_HTTP_ERRORS := 10
  const STABLE_DIFF := "unchanged"
  const COMING_DIFF := "coming"
  const NONE_IN_PROGRESS := "<none in progress>"

  datatype RezError = Transient | Permanent

  datatype LogEntry = LogEntry(manifestID: ManifestID, desc: string, error: Option<RezError>)

  datatype ResolveStatus = ResolveStatus(started: string, intended: seq<Deployment>, log: seq<LogEntry>)

  datatype StatusData = StatusData(
    deployments: seq<Deployment>,
    completed: Option<ResolveStatus>,
    inProgress: Option<ResolveStatus>)

  /** The filters: which deployments and manifests are at the location asked about, and which
      deployments have the version asked about. */
  datatype Filters = Filters(
    location: Deployment -> bool,
    manifest: ManifestID -> bool,
    id: Deployment -> bool)

  // ---------------------------------------------------------------- reading a resolve status

  function Matching<T>(xs: seq<T>, p: T -> bool): seq<T> {
    if xs == [] then []
    else Matching(xs[..|xs| - 1], p) + if p(xs[|xs| - 1]) then [xs[|xs| - 1]] else []
  }

  lemma MatchingSnoc<T>(xs: seq<T>, p: T -> bool, x: T)
    ensures Matching(xs + [x], p) == if p(x) then Matching(xs, p) + [x] else Matching(xs, p)
  {
    assert (xs + [x])[..|xs|] == xs;
  }

  lemma {:induction false} MatchingGrows<T>(xs: seq<T>, ys: seq<T>, p: T -> bool)
    ensures Matching(xs, p) <= Matching(xs + ys, p)
  {
    if ys == [] {
      assert xs + ys == xs;
    } else {
      var n := |ys| - 1;
      MatchingGrows(xs, ys[..n], p);
      assert xs + ys == (xs + ys[..n]) + [ys[n]];
      MatchingSnoc(xs + ys[..n], p, ys[n]);
    }
  }

  /** The only match. */
  function Sole<T>(xs: seq<T>, p: T -> bool): Option<T> {
    if |Matching(xs, p)| == 1 then Some(Matching(xs, p)[0]) else None
  }

  /** The first match. */
  function First<T>(xs: seq<T>, p: T -> bool): Option<T> {
    if Matching(xs, p) == [] then None else Some(Matching(xs, p)[0])
  }

  lemma NotSole<T>(xs: seq<T>, p: T -> bool, k: nat)
    requires k <= |xs| && |Matching(xs[..k], p)| > 1
    ensures Sole(xs, p) == None
  {
    assert xs == xs[..k] + xs[k..];
    MatchingGrows(xs[..k], xs[k..], p);
  }

  lemma SoleIs<T>(xs: seq<T>, p: T -> bool, x: Option<T>)
    requires Matching(xs, p) == if x.None? then [] else [x.value]
    ensures Sole(xs, p) == x
  {}

  /** `serverIntent`: the deployment the server means to have, unless there are none or several. */
  method ServerIntent(rstat: Option<ResolveStatus>, rf: Filters) returns (dep: Option<Deployment>)
    ensures dep == if rstat.None? then None else Sole(rstat.value.intended, rf.location)
  {
    dep := None;
    if rstat.None? {
      return;
    }
    var intended := rstat.value.intended;
    NothingMatches(intended[..0], rf.location);
    hide *;
    for i := 0 to |intended|
      invariant Matching(intended[..i], rf.location) == if dep.None? then [] else [dep.value]
    {
      assert intended[..i + 1] == intended[..i] + [intended[i]];
      MatchingSnoc(intended[..i], rf.location, intended[i]);
      if rf.location(intended[i]) {
        if dep.Some? {
          NotSole(intended, rf.location, i + 1);
          return None;
        }
        dep := Some(intended[i]);
      }
    }
    assert intended[..|intended|] == intended;
    SoleIs(intended, rf.location, dep);
  }

  lemma NothingMatches<T>(xs: seq<T>, p: T -> bool)
    requires xs == []
    ensures Matching(xs, p) == []
  {}

  lemma FirstIs<T>(xs: seq<T>, p: T -> bool, k: nat)
    requires k < |xs| && Matching(xs[..k], p) == [] && p(xs[k])
    ensures First(xs, p) == Some(xs[k])
  {
    assert xs[..k + 1] == xs[..k] + [xs[k]] && xs == xs[..k + 1] + xs[k + 1..];
    MatchingSnoc(xs[..k], p, xs[k]);
    MatchingGrows(xs[..k + 1], xs[k + 1..], p);
  }

  lemma StillNone<T>(xs: seq<T>, p: T -> bool, k: nat)
    requires k < |xs| && Matching(xs[..k], p) == [] && !p(xs[k])
    ensures Matching(xs[..k + 1], p) == []
  {
    assert xs[..k + 1] == xs[..k] + [xs[k]];
    MatchingSnoc(xs[..k], p, xs[k]);
  }

  /** `diffResolutionFor`: the first log entry about the manifest. */
  method DiffResolutionFor(rstat: Option<ResolveStatus>, rf: Filters) returns (rez: Option<LogEntry>)
    ensures rez == if rstat.None? then None else First(rstat.value.log, AboutManifest(rf))
  {
    if rstat.None? {
      return None;
    }
    var rezs := rstat.value.log;
    ghost var about := AboutManifest(rf);
    assert forall e :: about(e) == rf.manifest(e.manifestID);
    NothingMatches(rezs[..0], about);
    hide *;
    for i := 0 to |rezs|
      invariant Matching(rezs[..i], about) == []
    {
      if rf.manifest(rezs[i].manifestID) {
        FirstIs(rezs, about, i);
        return Some(rezs[i]);
      }
      StillNone(rezs, about, i);
    }
    assert rezs[..|rezs|] == rezs;
    NoneMatches(rezs, about);
    return None;
  }

  lemma NoneMatches<T>(xs: seq<T>, p: T -> bool)
    requires Matching(xs, p) == []
    ensures First(xs, p) == None
  {}

  function AboutManifest(rf: Filters): LogEntry -> bool { (e: LogEntry) => rf.manifest(e.manifestID) }

  /** `computeState`. */
  function ComputeState(rf: Filters, srvIntent: Option<Deployment>, current: Option<LogEntry>): ResolveState {
    if srvIntent.None? then NOT_STARTED
    else if !rf.id(srvIntent.value) then NOT_VERSION
    else if current.None? then PENDING_REQUEST
    else if current.value.error.Some? then (if current.value.error.value == Transient then ERRED_REZ else FAILED)
    else if current.value.desc == STABLE_DIFF then COMPLETE
    else if current.value.desc == COMING_DIFF then TASKS_STARTING
    else IN_PROGRESS
  }

  /** The state that one resolve status conveys. */
  function Conveyed(rf: Filters, rstat: Option<ResolveStatus>): ResolveState {
    if rstat.None? then NOT_STARTED
    else ComputeState(rf, Sole(rstat.value.intended, rf.location), First(rstat.value.log, AboutManifest(rf)))
  }

  method StateFeatures(rstat: Option<ResolveStatus>, rf: Filters) returns (state: ResolveState)
    ensures state == Conveyed(rf, rstat)
  {
    var current := DiffResolutionFor(rstat, rf);
    var srvIntent := ServerIntent(rstat, rf);
    state := ComputeState(rf, srvIntent, current);
  }

  /** Old servers list the intended deployments beside the statuses. */
  function WithIntended(rstat: Option<ResolveStatus>, deployments: seq<Deployment>): Option<ResolveStatus> {
    if rstat.Some? && rstat.value.intended == [] then Some(rstat.value.(intended := deployments)) else rstat
  }

  /** What a server's answer means: the resolve in progress decides once it has reached the
      deployment, otherwise the completed one does. */
  function Meaning(rf: Filters, data: StatusData): ResolveState {
    var current := Conveyed(rf, WithIntended(data.inProgress, data.deployments));
    if current == NOT_STARTED || current == NOT_VERSION || current == PENDING_REQUEST
    then Conveyed(rf, WithIntended(data.completed, data.deployments))
    else current
  }

  function ResolveID(data: Option<StatusData>): string {
    if data.Some? && data.value.inProgress.Some? then data.value.inProgress.value.started else NONE_IN_PROGRESS
  }

  // ---------------------------------------------------------------- polling

  /** The last 11 retrievals, and there were that many, failed. */
  ghost predicate GivenUp(history: seq<Option<StatusData>>) {
    |history| >= 11 && forall i | |history| - 11 <= i < |history| :: history[i] == None
  }

  /** `count` of the latest retrievals failed, and the one before them did not. */
  ghost predicate CountsFailures(history: seq<Option<StatusData>>, count: nat) {
    && count <= |history|
    && (forall i | |history| - count <= i < |history| :: history[i] == None)
    && (count < |history| ==> history[|history| - count - 1].Some?)
  }

  /** The counter exceeds its limit exactly if the last 11 retrievals failed. */
  lemma GivenUpByCount(history: seq<Option<StatusData>>, count: nat)
    requires CountsFailures(history, count)
    ensures count > MAX_HTTP_ERRORS <==> GivenUp(history)
  {
    if count < |history| {
      assert history[|history| - count - 1].Some?;
    }
  }

  class SubPoller {
    const url: string
    const filters: Filters
    var httpErrorCount: nat
    ghost var history: seq<Option<StatusData>>     // what the server answered, None for an error

    ghost predicate Valid() reads this { CountsFailures(history, httpErrorCount) }

    constructor (url: string, filters: Filters)
      ensures Valid() && history == [] && this.url == url && this.filters == filters
    {
      this.url, this.filters, httpErrorCount, history := url, filters, 0, [];
    }

    /** `pollOnce`, on the server's answer. */
    method PollOnce(data: Option<StatusData>) returns (r: PollResult)
      requires Valid()
      modifies this
      ensures Valid() && history == old(history) + [data]
      ensures r.url == url && r.resolveID == ResolveID(data)
      ensures r.resolveID == if data.Some? && data.value.inProgress.Some? then data.value.inProgress.value.started
                             else "<none in progress>"
      ensures r.stat == HTTP_FAILED <==> GivenUp(history)
      ensures r.stat == ERRED_HTTP <==> data == None && !GivenUp(history)
      ensures data.Some? ==> r.stat == Meaning(filters, data.value)
    {
      history := history + [data];
      if data.None? {
        httpErrorCount := httpErrorCount + 1;
        GivenUpByCount(history, httpErrorCount);
        return PollResult(url, if httpErrorCount > MAX_HTTP_ERRORS then HTTP_FAILED else ERRED_HTTP, NONE_IN_PROGRESS);
      }
      httpErrorCount := 0;
      var inProgress := WithIntended(data.value.inProgress, data.value.deployments);
      var completed := WithIntended(data.value.completed, data.value.deployments);
      var state := StateFeatures(inProgress, filters);
      if state == NOT_STARTED || state == NOT_VERSION || state == PENDING_REQUEST {
        state := StateFeatures(completed, filters);
      }
      assert history[|history| - 1].Some?;
      return PollResult(url, state, ResolveID(data));
    }

    /** `start`, for as many answers as arrive before the poller is done. */
    method Start(answers: seq<Option<StatusData>>) returns (rs: seq<PollResult>)
      requires Valid() && history == []
      modifies this
      ensures history == answers && rs == Reports(url, filters, answers)
    {
      rs := [PollResult(url, NOT_POLLED, "")];
      for i := 0 to |answers|
        invariant Valid() && history == answers[..i]
        invariant rs == Reports(url, filters, answers[..i])
      {
        var latest := PollOnce(answers[i]);
        assert answers[..i + 1] == answers[..i] + [answers[i]];
        ReportsSnoc(url, filters, answers[..i], answers[i]);
        rs := rs + [latest];
      }
      assert answers[..|answers|] == answers;
    }
  }

  // ---------------------------------------------------------------- the reports of a cluster

  ghost function Report(url: string, rf: Filters, history: seq<Option<StatusData>>): PollResult
    requires history != []
  {
    var data := history[|history| - 1];
    PollResult(url, if data.Some? then Meaning(rf, data.value)
               else if GivenUp(history) then HTTP_FAILED else ERRED_HTTP, ResolveID(data))
  }

  /** Everything a sub-poller sends. */
  ghost function Reports(url: string, rf: Filters, answers: seq<Option<StatusData>>): (rs: seq<PollResult>)
    ensures |rs| == |answers| + 1
  {
    if answers == [] then [PollResult(url, NOT_POLLED, "")]
    else Reports(url, rf, answers[..|answers| - 1]) + [Report(url, rf, answers)]
  }

  lemma ReportsSnoc(url: string, rf: Filters, answers: seq<Option<StatusData>>, data: Option<StatusData>)
    ensures Reports(url, rf, answers + [data]) == Reports(url, rf, answers) + [Report(url, rf, answers + [data])]
  {
    assert (answers + [data])[..|answers|] == answers;
  }

  /** No answer means that nothing is intended, nor that the server was not asked. */
  lemma MeaningRange(rf: Filters, data: StatusData)
    ensures var s := Meaning(rf, data);
            s != NOT_POLLED && s != NOT_INTENDED && s != ERRED_HTTP && s != HTTP_FAILED
  {}

  // ---------------------------------------------------------------- what an answer means

  /** `d` is the one deployment that the resolve intends at the location. */
  ghost predicate Intends(rf: Filters, rstat: Option<ResolveStatus>, d: Deployment) {
    rstat.Some? && exists i :: 0 <= i < |rstat.value.intended| && rstat.value.intended[i] == d && rf.location(d)
                               && forall j | 0 <= j < |rstat.value.intended| && j != i
                                  :: !rf.location(rstat.value.intended[j])
  }

  /** `e` is the first log entry of the resolve about the manifest. */
  ghost predicate Logs(rf: Filters, rstat: Option<ResolveStatus>, e: LogEntry) {
    rstat.Some? && exists i :: 0 <= i < |rstat.value.log| && rstat.value.log[i] == e && rf.manifest(e.manifestID)
                               && forall j | 0 <= j < i :: !rf.manifest(rstat.value.log[j].manifestID)
  }

  lemma {:induction false} NoMatch<T>(xs: seq<T>, p: T -> bool)
    ensures Matching(xs, p) == [] <==> forall i | 0 <= i < |xs| :: !p(xs[i])
  {
    if xs != [] {
      var n := |xs| - 1;
      NoMatch(xs[..n], p);
    }
  }

  lemma {:induction false} SoleMeans<T>(xs: seq<T>, p: T -> bool, x: T)
    ensures Sole(xs, p) == Some(x)
            <==> exists i :: 0 <= i < |xs| && xs[i] == x && p(x) && forall j | 0 <= j < |xs| && j != i :: !p(xs[j])
  {
    if xs != [] {
      var n := |xs| - 1;
      NoMatch(xs[..n], p);
      SoleMeans(xs[..n], p, x);
    }
  }

  lemma {:induction false} FirstMeans<T>(xs: seq<T>, p: T -> bool, x: T)
    ensures First(xs, p) == Some(x)
            <==> exists i :: 0 <= i < |xs| && xs[i] == x && p(x) && forall j | 0 <= j < i :: !p(xs[j])
  {
    if xs != [] {
      var n := |xs| - 1;
      NoMatch(xs[..n], p);
      FirstMeans(xs[..n], p, x);
    }
  }

  lemma SoleIntended(rf: Filters, rstat: Option<ResolveStatus>)
    ensures forall d :: Intends(rf, rstat, d) <==> rstat.Some? && Sole(rstat.value.intended, rf.location) == Some(d)
  {
    if rstat.Some? {
      forall d ensures Intends(rf, rstat, d) <==> Sole(rstat.value.intended, rf.location) == Some(d) {
        SoleMeans(rstat.value.intended, rf.location, d);
      }
    }
  }

  lemma FirstLogged(rf: Filters, rstat: Option<ResolveStatus>)
    ensures forall e :: Logs(rf, rstat, e) <==> rstat.Some? && First(rstat.value.log, AboutManifest(rf)) == Some(e)
  {
    if rstat.Some? {
      forall e ensures Logs(rf, rstat, e) <==> First(rstat.value.log, AboutManifest(rf)) == Some(e) {
        FirstMeans(rstat.value.log, AboutManifest(rf), e);
        hide First;
        assert forall x: LogEntry :: AboutManifest(rf)(x) == rf.manifest(x.manifestID);
      }
    }
  }

  /** The resolve intends the right version, and this is its first log entry about it. */
  ghost predicate Reaches(rf: Filters, rstat: Option<ResolveStatus>, e: LogEntry) {
    (exists d :: Intends(rf, rstat, d) && rf.id(d)) && Logs(rf, rstat, e)
  }

  /** The state that a resolve conveys before it has come to the deployment: not started unless it
      intends just one deployment at the location, not the version unless that has the right one,
      pending unless there is a log entry about it. */
  lemma UnreachedMeans(rf: Filters, rstat: Option<ResolveStatus>)
    ensures Conveyed(rf, rstat) == NOT_STARTED <==> forall d :: !Intends(rf, rstat, d)
    ensures Conveyed(rf, rstat) == NOT_VERSION <==> exists d :: Intends(rf, rstat, d) && !rf.id(d)
    ensures Conveyed(rf, rstat) == PENDING_REQUEST
            <==> (exists d :: Intends(rf, rstat, d) && rf.id(d)) && forall e :: !Logs(rf, rstat, e)
  {
    SoleIntended(rf, rstat);
    FirstLogged(rf, rstat);
    hide Intends, Logs, Sole, First, AboutManifest;
    if rstat.Some? {
      var (sole, first) := (Sole(rstat.value.intended, rf.location), First(rstat.value.log, AboutManifest(rf)));
      if sole.Some? { assert Intends(rf, rstat, sole.value); }
      if first.Some? { assert Logs(rf, rstat, first.value); }
    }
  }

  /** And once it has, the entry decides: a transient error, another error, or none and what was
      found or done. */
  lemma ReachedMeans(rf: Filters, rstat: Option<ResolveStatus>, e: LogEntry)
    requires Reaches(rf, rstat, e)
    ensures Conveyed(rf, rstat)
            == match e.error
               case Some(Transient) => ERRED_REZ
               case Some(Permanent) => FAILED
               case None =>
                 if e.desc == "unchanged" then COMPLETE else if e.desc == "coming" then TASKS_STARTING else IN_PROGRESS
  {
    SoleIntended(rf, rstat);
    FirstLogged(rf, rstat);
    hide Intends, Logs, Sole, First, AboutManifest;
  }

  ghost predicate Reached(rf: Filters, rstat: Option<ResolveStatus>) {
    exists e :: Reaches(rf, rstat, e)
  }

  lemma UnreachedIff(rf: Filters, rstat: Option<ResolveStatus>)
    ensures Conveyed(rf, rstat) in {NOT_STARTED, NOT_VERSION, PENDING_REQUEST} <==> !Reached(rf, rstat)
  {
    UnreachedMeans(rf, rstat);
    if e :| Reaches(rf, rstat, e) {
      ReachedMeans(rf, rstat, e);
    }
    SoleIntended(rf, rstat);
    FirstLogged(rf, rstat);
    hide Intends, Logs, Sole, First, AboutManifest;
    if rstat.Some? {
      var (sole, first) := (Sole(rstat.value.intended, rf.location), First(rstat.value.log, AboutManifest(rf)));
      if sole.Some? && rf.id(sole.value) && first.Some? {
        assert Intends(rf, rstat, sole.value) && Logs(rf, rstat, first.value);
        assert Reaches(rf, rstat, first.value);
      }
    }
  }

  /** What an answer means: what the resolve in progress conveys if it has reached the deployment,
      and what the completed one conveys otherwise; a status that lists no intentions has those
      listed beside it, as old servers do. */
  lemma MeaningMeans(rf: Filters, data: StatusData, inProgress: Option<ResolveStatus>, completed: Option<ResolveStatus>)
    requires inProgress == if data.inProgress.Some? && data.inProgress.value.intended == []
                           then Some(data.inProgress.value.(intended := data.deployments)) else data.inProgress
    requires completed == if data.completed.Some? && data.completed.value.intended == []
                          then Some(data.completed.value.(intended := data.deployments)) else data.completed
    ensures Meaning(rf, data) == if Reached(rf, inProgress) then Conveyed(rf, inProgress) else Conveyed(rf, completed)
  {
    UnreachedIff(rf, inProgress);
    hide Conveyed, Reached;
  }

  /** The deployment is as intended. */
  ghost predicate Settled(rf: Filters, rstat: Option<ResolveStatus>) {
    exists e :: Reaches(rf, rstat, e) && e.error == None && e.desc == "unchanged"
  }

  /** An answer means success exactly if one of its two resolves intends just one deployment at
      the location, of the right version, and its first log entry about it says `unchanged`; and
      the completed one only counts while the other has not come to the deployment. */
  lemma CompleteMeans(rf: Filters, data: StatusData)
    ensures Meaning(rf, data) == COMPLETE
            <==> || Settled(rf, WithIntended(data.inProgress, data.deployments))
                 || (Settled(rf, WithIntended(data.completed, data.deployments))
                     && !Reached(rf, WithIntended(data.inProgress, data.deployments)))
  {
    var inProgress := WithIntended(data.inProgress, data.deployments);
    var completed := WithIntended(data.completed, data.deployments);
    MeaningMeans(rf, data, inProgress, completed);
    SettledIff(rf, inProgress);
    SettledIff(rf, completed);
    hide Conveyed, Settled, Meaning, Reached;
  }

  lemma SettledIff(rf: Filters, rstat: Option<ResolveStatus>)
    ensures Conveyed(rf, rstat) == COMPLETE <==> Settled(rf, rstat)
    ensures Settled(rf, rstat) ==> Reached(rf, rstat)
  {
    UnreachedIff(rf, rstat);
    hide Conveyed, Reaches;
    if e :| Reaches(rf, rstat, e) {
      ReachedMeans(rf, rstat, e);
    }
    if Settled(rf, rstat) {
      var e :| Reaches(rf, rstat, e) && e.error == None && e.desc == "unchanged";
      ReachedMeans(rf, rstat, e);
    }
  }

  lemma {:induction false} ReportAt(url: string, rf: Filters, answers: seq<Option<StatusData>>, k: nat)
    requires k <= |answers|
    ensures Reports(url, rf, answers)[k]
            == if k == 0 then PollResult(url, NOT_POLLED, "") else Report(url, rf, answers[..k])
  {
    if k < |answers| {
      var n := |answers| - 1;
      ReportAt(url, rf, answers[..n], k);
      assert answers[..n][..k] == answers[..k];
    } else {
      assert answers[..k] == answers;
    }
  }

  lemma ReportIdAt(url: string, rf: Filters, answers: seq<Option<StatusData>>, k: nat)
    requires k <= |answers|
    ensures Reports(url, rf, answers)[k].resolveID == if k == 0 then "" else ResolveID(answers[k - 1])
  {
    ReportAt(url, rf, answers, k);
    hide Reports, Meaning, GivenUp, ResolveID;
    assert k > 0 ==> answers[..k][k - 1] == answers[k - 1];
  }

  /** What the sub-poller of a cluster sends makes it change to its last cycle exactly when two
      consecutive answers name different resolves in progress. */
  lemma CycleEndsWithResolve(url: string, rf: Filters, answers: seq<Option<StatusData>>)
    requires forall a | a in answers :: ResolveID(a) != ""
    ensures CycleEnded(Reports(url, rf, answers))
            <==> exists k :: 0 < k < |answers| && ResolveID(answers[k - 1]) != ResolveID(answers[k])
  {
    var rs := Reports(url, rf, answers);
    hide Reports, ResolveID, Report;
    forall k | 0 <= k <= |answers| ensures rs[k].resolveID == if k == 0 then "" else ResolveID(answers[k - 1]) {
      ReportIdAt(url, rf, answers, k);
    }
    if k :| 0 < k < |answers| && ResolveID(answers[k - 1]) != ResolveID(answers[k]) {
      assert CycleEnds(rs[k], rs[k + 1]);
    }
    if k :| 0 <= k < |rs| - 1 && CycleEnds(rs[k], rs[k + 1]) {
      assert k != 0 && ResolveID(answers[k - 1]) != ResolveID(answers[k]);
    }
  }

  /** A failed retrieval while a resolve is in progress names no resolve: one is enough to put
      the cluster into its last cycle, though its server is still at the same resolve. */
  lemma FailedRetrievalEndsCycle(url: string, rf: Filters, before: seq<Option<StatusData>>, data: StatusData)
    requires data.inProgress.Some? && data.inProgress.value.started != ""
             && data.inProgress.value.started != NONE_IN_PROGRESS
    requires forall a | a in before :: ResolveID(a) != ""
    ensures CycleEnded(Reports(url, rf, before + [Some(data), None, Some(data)]))
  {
    var answers := before + [Some(data), None, Some(data)];
    CycleEndsWithResolve(url, rf, answers);
    var k := |before| + 1;
    assert answers[k - 1] == Some(data) && answers[k] == None;
  }

  // ---------------------------------------------------------------- the poller and its sub-pollers

  /** What each cluster has reported is the beginning of what its sub-poller sends, given how its
      server answers. */
  ghost predicate SentBySubPollers(us: seq<PollResult>, rf: string -> Filters,
                                   answers: string -> seq<Option<StatusData>>) {
    forall url :: ReportsOf(us, url) <= Reports(url, rf(url), answers(url))
  }

  /** The last report of a cluster is what its sub-poller made of the last answer so far. */
  lemma LastReport(us: seq<PollResult>, rf: string -> Filters, answers: string -> seq<Option<StatusData>>, url: string)
    requires SentBySubPollers(us, rf, answers) && url in After(us)
    ensures var k := |ReportsOf(us, url)| - 1;
            && 0 <= k <= |answers(url)|
            && After(us)[url].lastResult
               == if k == 0 then PollResult(url, NOT_POLLED, "") else Report(url, rf(url), answers(url)[..k])
  {
    StateIsHistory(us, url);
    hide After, Report;
    assert ReportsOf(us, url) <= Reports(url, rf(url), answers(url));
    ReportAt(url, rf(url), answers(url), |ReportsOf(us, url)| - 1);
  }

  /** However the reports interleave, polling can only end as complete, failed or unreachable. */
  lemma PollingEnds(us: seq<PollResult>, rf: string -> Filters, answers: string -> seq<Option<StatusData>>)
    requires SentBySubPollers(us, rf, answers)
    ensures Terminal(Status(After(us)))
            ==> Status(After(us)) == COMPLETE || Status(After(us)) == FAILED || Status(After(us)) == HTTP_FAILED
  {
    forall url | url in After(us) ensures After(us)[url].lastResult.stat != NOT_INTENDED {
      LastReport(us, rf, answers, url);
      var k := |ReportsOf(us, url)| - 1;
      if k > 0 && answers(url)[k - 1].Some? {
        MeaningRange(rf(url), answers(url)[k - 1].value);
      }
      hide After, Meaning, SentBySubPollers;
    }
    TerminalStatuses(After(us));
  }

  /** Completion before any last cycle is sound: the latest answer of every cluster that has
      reported says that the deployment is settled there. */
  lemma CompletionMeans(us: seq<PollResult>, rf: string -> Filters, answers: string -> seq<Option<StatusData>>,
                        url: string)
    requires SentBySubPollers(us, rf, answers) && !SomeLastCycle(After(us))
    requires Status(After(us)) == COMPLETE && url in After(us)
    ensures var k := |ReportsOf(us, url)| - 1;
            && 0 < k <= |answers(url)| && answers(url)[k - 1].Some?
            && Meaning(rf(url), answers(url)[k - 1].value) == COMPLETE
  {
    FirstCycleStatus(After(us));
    LastReport(us, rf, answers, url);
    hide After, Meaning, SentBySubPollers, Status;
    var k := |ReportsOf(us, url)| - 1;
    assert k > 0 ==> answers(url)[..k][k - 1] == answers(url)[k - 1];
  }

  // ---------------------------------------------------------------- premature completion

  lemma NothingSent(rf: string -> Filters, answers: string -> seq<Option<StatusData>>)
    ensures SentBySubPollers([], rf, answers)
  {}

  /** The next report of a cluster arrives. */
  lemma Arrives(us: seq<PollResult>, u: PollResult, rf: string -> Filters, answers: string -> seq<Option<StatusData>>)
    requires SentBySubPollers(us, rf, answers)
    requires var k := |ReportsOf(us, u.url)|; k <= |answers(u.url)| && Reports(u.url, rf(u.url), answers(u.url))[k] == u
    ensures SentBySubPollers(us + [u], rf, answers)
    ensures After(us + [u]) == Updated(After(us), u)
    ensures forall url :: |ReportsOf(us + [u], url)| == |ReportsOf(us, url)| + if url == u.url then 1 else 0
  {
    assert (us + [u])[..|us|] == us;
    hide Reports, After;
    forall url ensures ReportsOf(us + [u], url) <= Reports(url, rf(url), answers(url)) {
      assert ReportsOf(us, url) <= Reports(url, rf(url), answers(url));
    }
  }

  const ALL_MATCH := Filters((_: Deployment) => true, (_: ManifestID) => true, (_: Deployment) => true)

  /** A resolve that intends the deployment and has logged what it did about it. */
  function Resolve(d: Deployment, started: string, desc: string): ResolveStatus {
    ResolveStatus(started, [d], [LogEntry(d.ManifestId(), desc, None)])
  }

  /** The server is at a resolve that has created the deployment. */
  function Deploying(d: Deployment, started: string): Option<StatusData> {
    Some(StatusData([], None, Some(Resolve(d, started, "created"))))
  }

  /** The server has completed a resolve that found the deployment as intended. */
  function Settling(d: Deployment): Option<StatusData> {
    Some(StatusData([], Some(Resolve(d, "", STABLE_DIFF)), None))
  }

  lemma ResolveConveys(d: Deployment, started: string, desc: string)
    ensures Conveyed(ALL_MATCH, Some(Resolve(d, started, desc)))
            == if desc == STABLE_DIFF then COMPLETE else if desc == COMING_DIFF then TASKS_STARTING else IN_PROGRESS
  {
    var rs := Resolve(d, started, desc);
    MatchingSnoc([], ALL_MATCH.location, d);
    MatchingSnoc([], AboutManifest(ALL_MATCH), rs.log[0]);
    assert [] + rs.intended == rs.intended && [] + rs.log == rs.log;
  }

  lemma AnswersMean(d: Deployment, started: string, before: seq<Option<StatusData>>, url: string)
    ensures Report(url, ALL_MATCH, before + [Deploying(d, started)]) == PollResult(url, IN_PROGRESS, started)
    ensures Report(url, ALL_MATCH, before + [Settling(d)]) == PollResult(url, COMPLETE, NONE_IN_PROGRESS)
  {
    ResolveConveys(d, started, "created");
    ResolveConveys(d, "", STABLE_DIFF);
    assert "created" != STABLE_DIFF && "created" != COMING_DIFF by {
      assert "created"[1] != STABLE_DIFF[1] && "created"[1] != COMING_DIFF[1];
    }
    hide Conveyed;
  }

  function TwoAnswers(first: string, a: seq<Option<StatusData>>, b: seq<Option<StatusData>>):
    string -> seq<Option<StatusData>>
  {
    (url: string) => if url == first then a else b
  }

  /** What sub-pollers send on these answers. */
  lemma SentDeploying(d: Deployment, url: string, one: string, two: string)
    ensures var sent := Reports(url, ALL_MATCH, [Deploying(d, one), Deploying(d, two)]);
            && sent[0] == PollResult(url, NOT_POLLED, "")
            && sent[1] == PollResult(url, IN_PROGRESS, one) && sent[2] == PollResult(url, IN_PROGRESS, two)
  {
    var (x, y) := (Deploying(d, one), Deploying(d, two));
    AnswersMean(d, one, [], url);
    AnswersMean(d, two, [x], url);
    SentAt(url, x, y);
    hide Report, Reports, Deploying;
  }

  lemma SentThenSettling(d: Deployment, url: string, one: string)
    ensures var sent := Reports(url, ALL_MATCH, [Deploying(d, one), Settling(d)]);
            && sent[0] == PollResult(url, NOT_POLLED, "")
            && sent[1] == PollResult(url, IN_PROGRESS, one) && sent[2] == PollResult(url, COMPLETE, NONE_IN_PROGRESS)
  {
    var (x, y) := (Deploying(d, one), Settling(d));
    AnswersMean(d, one, [], url);
    AnswersMean(d, one, [x], url);
    SentAt(url, x, y);
    hide Report, Reports, Deploying, Settling;
  }

  lemma SentSettling(d: Deployment, url: string)
    ensures var sent := Reports(url, ALL_MATCH, [Settling(d)]);
            sent[0] == PollResult(url, NOT_POLLED, "") && sent[1] == PollResult(url, COMPLETE, NONE_IN_PROGRESS)
  {
    AnswersMean(d, "", [], url);
    SentAt(url, Settling(d), Settling(d));
    hide Report, Reports, Settling;
  }

  lemma SentFirst(url: string)
    ensures Reports(url, ALL_MATCH, []) == [PollResult(url, NOT_POLLED, "")]
  {}

  lemma SentNext(url: string, before: seq<Option<StatusData>>, x: Option<StatusData>)
    ensures var sent := Reports(url, ALL_MATCH, before + [x]);
            && |sent| == |before| + 2 && sent[|before| + 1] == Report(url, ALL_MATCH, before + [x])
            && forall k | 0 <= k <= |before| :: sent[k] == Reports(url, ALL_MATCH, before)[k]
  {
    ReportsSnoc(url, ALL_MATCH, before, x);
    hide Reports, Report;
  }

  lemma SentAt(url: string, x: Option<StatusData>, y: Option<StatusData>)
    ensures var (one, two) := (Reports(url, ALL_MATCH, [x]), Reports(url, ALL_MATCH, [x, y]));
            && one[0] == two[0] == PollResult(url, NOT_POLLED, "")
            && one[1] == two[1] == Report(url, ALL_MATCH, [] + [x])
            && two[2] == Report(url, ALL_MATCH, [x] + [y])
  {
    hide Report, Reports;
    SentFirst(url);
    assert [] + [x] == [x] && [x] + [y] == [x, y];
    SentNext(url, [], x);
    SentNext(url, [x], y);
  }

  /** Polling goes on after each of the reports. */
  ghost predicate Ongoing(us: seq<PollResult>) {
    forall k | 0 < k <= |us| :: !Terminal(StatusAt(us, k))
  }

  lemma StaysOngoing(us: seq<PollResult>, u: PollResult)
    requires Ongoing(us) && !Terminal(Status(After(us + [u])))
    ensures Ongoing(us + [u])
  {
    var longer := us + [u];
    assert longer[..|longer|] == longer;
    forall k | 0 < k <= |longer| ensures !Terminal(StatusAt(longer, k)) {
      if k <= |us| {
        assert longer[..k] == us[..k];
        assert !Terminal(StatusAt(us, k));
      }
    }
  }

  /** So many reports of two clusters have arrived, this is known of them, and polling goes on. */
  ghost predicate Received(us: seq<PollResult>, rf: string -> Filters, answers: string -> seq<Option<StatusData>>,
                           a: string, na: nat, b: string, nb: nat, m: States) {
    && SentBySubPollers(us, rf, answers) && After(us) == m && Ongoing(us)
    && |ReportsOf(us, a)| == na && |ReportsOf(us, b)| == nb
  }

  lemma NoneReceived(rf: string -> Filters, answers: string -> seq<Option<StatusData>>, a: string, b: string)
    ensures Received([], rf, answers, a, 0, b, 0, map[])
  {
    NothingSent(rf, answers);
  }

  lemma NextReceived(us: seq<PollResult>, rf: string -> Filters, answers: string -> seq<Option<StatusData>>,
                     a: string, na: nat, b: string, nb: nat, m: States, u: PollResult, m': States)
    requires Received(us, rf, answers, a, na, b, nb, m) && a != b && (u.url == a || u.url == b)
    requires var k := if u.url == a then na else nb;
             k <= |answers(u.url)| && Reports(u.url, rf(u.url), answers(u.url))[k] == u
    requires m' == Updated(m, u)
    ensures SentBySubPollers(us + [u], rf, answers) && After(us + [u]) == m' && Ongoing(us)
    ensures !Terminal(Status(m'))
            ==> Received(us + [u], rf, answers, a, if u.url == a then na + 1 else na,
                         b, if u.url == b then nb + 1 else nb, m')
  {
    Arrives(us, u, rf, answers);
    if !Terminal(Status(Updated(m, u))) {
      StaysOngoing(us, u);
    }
    hide SentBySubPollers, Reports, After, ReportsOf, Updated, Ongoing, Status;
  }

  lemma OneCluster(a: string, r: PollResult, lastCycle: bool)
    ensures Status(map[a := PollerState(r, lastCycle)])
            == if lastCycle then Overall({}, {r.stat}) else Overall({r.stat}, {})
  {
    var m := map[a := PollerState(r, lastCycle)];
    assert m[a].lastResult.stat in Stats(m, lastCycle);
    assert Stats(m, lastCycle) == {r.stat} && Stats(m, !lastCycle) == {};
  }

  lemma TwoClusters(a: string, b: string, ra: PollResult, rb: PollResult, lastCycle: bool)
    requires a != b
    ensures Status(map[a := PollerState(ra, lastCycle), b := PollerState(rb, false)])
            == if lastCycle then Overall({rb.stat}, {ra.stat}) else Overall({ra.stat, rb.stat}, {})
  {
    var m := map[a := PollerState(ra, lastCycle), b := PollerState(rb, false)];
    assert m[a].lastResult.stat in Stats(m, lastCycle) && m[b].lastResult.stat in Stats(m, false);
    if lastCycle {
      assert Stats(m, true) == {ra.stat} && Stats(m, false) == {rb.stat};
    } else {
      assert Stats(m, false) == {ra.stat, rb.stat} && Stats(m, true) == {};
    }
  }

  function One(a: string, r: PollResult, lastCycle: bool): States { map[a := PollerState(r, lastCycle)] }

  function Two(a: string, ra: PollResult, lastCycle: bool, b: string, rb: PollResult): States {
    map[a := PollerState(ra, lastCycle), b := PollerState(rb, false)]
  }

  lemma UpdatedStates(a: string, b: string, r: PollResult, lastCycle: bool, u: PollResult, other: PollResult)
    requires a != b
    ensures u.url == a ==> Updated(map[], u) == One(a, u, false)
    ensures u.url == a ==> Updated(One(a, r, lastCycle), u) == One(a, u, lastCycle || CycleEnds(r, u))
    ensures u.url == b ==> Updated(One(a, r, lastCycle), u) == Two(a, r, lastCycle, b, u)
    ensures u.url == a
            ==> Updated(Two(a, r, lastCycle, b, other), u) == Two(a, u, lastCycle || CycleEnds(r, u), b, other)
    ensures u.url == b && other.resolveID == ""
            ==> Updated(Two(a, r, lastCycle, b, other), u) == Two(a, r, lastCycle, b, u)
  {}

  /** The statuses on the way are not terminal. */
  lemma StatusesOnTheWay(a: string, b: string, r: PollResult, b0: PollResult)
    requires a != b && b0.stat == NOT_POLLED
    ensures r.stat <= IN_PROGRESS ==> !Terminal(Status(One(a, r, false)))
    ensures r.stat == IN_PROGRESS ==> !Terminal(Status(One(a, r, true)))
    ensures r.stat == IN_PROGRESS ==> !Terminal(Status(Two(a, r, false, b, b0)))
    ensures r.stat == IN_PROGRESS ==> !Terminal(Status(Two(a, r, true, b, b0)))
  {
    OneCluster(a, r, false);
    OneCluster(a, r, true);
    TwoClusters(a, b, r, b0, false);
    TwoClusters(a, b, r, b0, true);
    hide Status;
  }

  /** One cluster announces itself and reports that it is deploying. */
  lemma StartsDeploying(rf: string -> Filters, answers: string -> seq<Option<StatusData>>, a: string, b: string,
                        a0: PollResult, a1: PollResult)
    requires a != b && a0 == PollResult(a, NOT_POLLED, "") && a1.url == a && a1.stat == IN_PROGRESS
    requires |answers(a)| >= 1
    requires Reports(a, rf(a), answers(a))[0] == a0 && Reports(a, rf(a), answers(a))[1] == a1
    ensures Received([] + [a0] + [a1], rf, answers, a, 2, b, 0, One(a, a1, false))
  {
    NoneReceived(rf, answers, a, b);
    var b0 := PollResult(b, NOT_POLLED, "");
    StatusesOnTheWay(a, b, a0, b0);
    StatusesOnTheWay(a, b, a1, b0);
    UpdatedStates(a, b, a0, false, a0, b0);
    UpdatedStates(a, b, a0, false, a1, b0);
    assert !CycleEnds(a0, a1);
    hide *;
    NextReceived([], rf, answers, a, 0, b, 0, map[], a0, One(a, a0, false));
    NextReceived([] + [a0], rf, answers, a, 1, b, 0, One(a, a0, false), a1, One(a, a1, false));
  }

  /** One cluster goes on to another resolve, and the other announces itself and completes. */
  lemma OtherCompletes(rf: string -> Filters, answers: string -> seq<Option<StatusData>>, a: string, b: string,
                       us: seq<PollResult>, a1: PollResult, a2: PollResult, b0: PollResult, b1: PollResult)
    requires a != b && Received(us, rf, answers, a, 2, b, 0, One(a, a1, false))
    requires a1.url == a2.url == a && a2.stat == IN_PROGRESS && CycleEnds(a1, a2)
    requires b0 == PollResult(b, NOT_POLLED, "") && b1.url == b && b1.stat == COMPLETE
    requires |answers(a)| >= 2 && Reports(a, rf(a), answers(a))[2] == a2
    requires |answers(b)| >= 1
    requires Reports(b, rf(b), answers(b))[0] == b0 && Reports(b, rf(b), answers(b))[1] == b1
    ensures var all := us + [a2] + [b0] + [b1];
            && SentBySubPollers(all, rf, answers) && Ongoing(us + [a2] + [b0])
            && After(all) == Two(a, a2, true, b, b1)
  {
    StatusesOnTheWay(a, b, a2, b0);
    UpdatedStates(a, b, a1, false, a2, b0);
    UpdatedStates(a, b, a2, true, b0, b0);
    UpdatedStates(a, b, a2, true, b1, b0);
    hide *;
    NextReceived(us, rf, answers, a, 2, b, 0, One(a, a1, false), a2, One(a, a2, true));
    NextReceived(us + [a2], rf, answers, a, 3, b, 0, One(a, a2, true), b0, Two(a, a2, true, b, b0));
    NextReceived(us + [a2] + [b0], rf, answers, a, 3, b, 1, Two(a, a2, true, b, b0), b1, Two(a, a2, true, b, b1));
  }

  /** Premature completion happens, for any deployment: while one cluster goes from one resolve
      to the next with the deployment in progress, the other completes. Polling ends there. */
  lemma CompleteWhileInProgress(d: Deployment, one: string, two: string, a: string, b: string)
    returns (us: seq<PollResult>, rf: string -> Filters, answers: string -> seq<Option<StatusData>>)
    requires one != "" && one != two && a != b
    ensures SentBySubPollers(us, rf, answers) && us != [] && Ongoing(us[..|us| - 1])
    ensures Status(After(us)) == COMPLETE
    ensures a in After(us) && After(us)[a].lastResult == PollResult(a, IN_PROGRESS, two)
  {
    rf, answers := (_: string) => ALL_MATCH, TwoAnswers(a, [Deploying(d, one), Deploying(d, two)], [Settling(d)]);
    SentDeploying(d, a, one, two);
    SentSettling(d, b);
    var (a0, a1) := (PollResult(a, NOT_POLLED, ""), PollResult(a, IN_PROGRESS, one));
    var (a2, b0) := (PollResult(a, IN_PROGRESS, two), PollResult(b, NOT_POLLED, ""));
    var b1 := PollResult(b, COMPLETE, NONE_IN_PROGRESS);
    assert rf(a) == rf(b) == ALL_MATCH && CycleEnds(a1, a2);
    assert answers(a) == [Deploying(d, one), Deploying(d, two)] && answers(b) == [Settling(d)];
    TwoClusters(a, b, a2, b1, true);
    assert Status(Two(a, a2, true, b, b1)) == COMPLETE;
    hide Received, Reports, Status, SentBySubPollers, Ongoing, After, Deploying, Settling, Overall, TwoAnswers;
    StartsDeploying(rf, answers, a, b, a0, a1);
    var start := [] + [a0] + [a1];
    OtherCompletes(rf, answers, a, b, start, a1, a2, b0, b1);
    us := start + [a2] + [b0] + [b1];
    assert us[..|us| - 1] == start + [a2] + [b0];
  }

  /** The other announces itself, and the first cluster completes in its next resolve. */
  lemma FirstCompletes(rf: string -> Filters, answers: string -> seq<Option<StatusData>>, a: string, b: string,
                       us: seq<PollResult>, a1: PollResult, a2: PollResult, b0: PollResult)
    requires a != b && Received(us, rf, answers, a, 2, b, 0, One(a, a1, false))
    requires a1.url == a2.url == a && a1.stat == IN_PROGRESS && CycleEnds(a1, a2)
    requires b0 == PollResult(b, NOT_POLLED, "")
    requires |answers(a)| >= 2 && Reports(a, rf(a), answers(a))[2] == a2
    requires Reports(b, rf(b), answers(b))[0] == b0
    ensures var all := us + [b0] + [a2];
            && SentBySubPollers(all, rf, answers) && Ongoing(us + [b0])
            && After(all) == Two(a, a2, true, b, b0)
  {
    StatusesOnTheWay(a, b, a1, b0);
    UpdatedStates(a, b, a1, false, b0, b0);
    UpdatedStates(a, b, a1, false, a2, b0);
    hide *;
    NextReceived(us, rf, answers, a, 2, b, 0, One(a, a1, false), b0, Two(a, a1, false, b, b0));
    NextReceived(us + [b0], rf, answers, a, 2, b, 1, Two(a, a1, false, b, b0), a2, Two(a, a2, true, b, b0));
  }

  /** And while one cluster, in its last cycle, completes, the other may not have been polled. */
  lemma CompleteWhileNotPolled(d: Deployment, one: string, a: string, b: string)
    returns (us: seq<PollResult>, rf: string -> Filters, answers: string -> seq<Option<StatusData>>)
    requires one != "" && one != NONE_IN_PROGRESS && a != b
    ensures SentBySubPollers(us, rf, answers) && us != [] && Ongoing(us[..|us| - 1])
    ensures Status(After(us)) == COMPLETE
    ensures b in After(us) && After(us)[b].lastResult == PollResult(b, NOT_POLLED, "")
  {
    rf, answers := (_: string) => ALL_MATCH, TwoAnswers(a, [Deploying(d, one), Settling(d)], []);
    SentThenSettling(d, a, one);
    var (a0, a1) := (PollResult(a, NOT_POLLED, ""), PollResult(a, IN_PROGRESS, one));
    var (a2, b0) := (PollResult(a, COMPLETE, NONE_IN_PROGRESS), PollResult(b, NOT_POLLED, ""));
    assert rf(a) == rf(b) == ALL_MATCH && CycleEnds(a1, a2);
    assert answers(a) == [Deploying(d, one), Settling(d)] && answers(b) == [];
    TwoClusters(a, b, a2, b0, true);
    assert Status(Two(a, a2, true, b, b0)) == COMPLETE;
    assert Reports(b, ALL_MATCH, []) == [b0];
    hide Received, Reports, Status, SentBySubPollers, Ongoing, After, Deploying, Settling, Overall, TwoAnswers;
    StartsDeploying(rf, answers, a, b, a0, a1);
    var start := [] + [a0] + [a1];
    FirstCompletes(rf, answers, a, b, start, a1, a2, b0);
    us := start + [b0] + [a2];
    assert us[..|us| - 1] == start + [b0];
  }
}
