/** lib/status_poller.go and lib/resolvestate.go: one status from the histories of many clusters. */
module StatusPollers {
  import opened Types

  /** Resolve states are ordered; a poller reports one below the end marker. */
  type ResolveState = s: int | 0 <= s < RESOLVE_MAX

  const NOT_POLLED: ResolveState := 0
  const NOT_STARTED: ResolveState := 1
  const NOT_VERSION: ResolveState := 2
  const PENDING_REQUEST: ResolveState := 3
  const IN_PROGRESS: ResolveState := 4
  const TASKS_STARTING: ResolveState := 5
  const ERRED_HTTP: ResolveState := 6
  const ERRED_REZ: ResolveState := 7
  const NOT_INTENDED: ResolveState := 8
  const COMPLETE: ResolveState := 9
  const FAILED: ResolveState := 10
  const HTTP_FAILED: ResolveState := 11
  const RESOLVE_MAX := 12
  const TERMINALS: ResolveState := NOT_INTENDED

  /** The states that end polling. */
  predicate Terminal(s: ResolveState) { s == NOT_INTENDED || s == COMPLETE || s == FAILED || s == HTTP_FAILED }

  datatype PollResult = PollResult(url: string, stat: ResolveState, resolveID: string)

  datatype PollerState = PollerState(lastResult: PollResult, lastCycle: bool)

  type States = map<string, PollerState>

  function MinStatus(a: int, b: int): int { if a < b then a else b }
  function MaxStatus(a: int, b: int): int { if a > b then a else b }

  /** The resolve that a cluster was working on is over. */
  predicate CycleEnds(before: PollResult, update: PollResult) {
    before.resolveID != "" && before.resolveID != update.resolveID
  }

  function Updated(m: States, update: PollResult): States {
    m[update.url := PollerState(update,
        update.url in m && (m[update.url].lastCycle || CycleEnds(m[update.url].lastResult, update)))]
  }

  // ---------------------------------------------------------------- the status of a set of clusters

  ghost function Stats(m: States, lastCycle: bool): set<ResolveState> {
    set url | url in m && m[url].lastCycle == lastCycle :: m[url].lastResult.stat
  }

  ghost predicate All(stats: set<ResolveState>, stat: ResolveState) { stats == {stat} }

  /** The least of a non-empty set. */
  ghost function Least(stats: set<ResolveState>): (r: ResolveState)
    requires stats != {}
    ensures r in stats && forall s | s in stats :: r <= s
  {
    var s :| s in stats;
    if stats == {s} then s
    else
      assert stats == {s} + (stats - {s});
      var rest := Least(stats - {s});
      if s <= rest then s else rest
  }

  ghost function Greatest(stats: set<ResolveState>): (r: ResolveState)
    requires stats != {}
    ensures r in stats && forall s | s in stats :: s <= r
  {
    var s :| s in stats;
    if stats == {s} then s
    else
      assert stats == {s} + (stats - {s});
      var rest := Greatest(stats - {s});
      if s >= rest then s else rest
  }

  /** The status of clusters whose last reports are `first`, in their first cycle, and `last`,
      in their last. */
  ghost function Overall(first: set<ResolveState>, last: set<ResolveState>): ResolveState {
    if NOT_VERSION in last || NOT_STARTED in last then FAILED
    else if All(first, COMPLETE) then COMPLETE
    else if HTTP_FAILED in first + last then HTTP_FAILED
    else if FAILED in last then FAILED
    else if last == {} then (if first == {} then NOT_POLLED else MinStatus(Greatest(first), IN_PROGRESS))
    else if !(first <= {NOT_POLLED}) then IN_PROGRESS
    else if All(last, COMPLETE) then COMPLETE
    else MaxStatus(IN_PROGRESS, Least(last))
  }

  ghost function Status(m: States): ResolveState { Overall(Stats(m, false), Stats(m, true)) }

  ghost predicate Accumulated(stats: set<ResolveState>, most: int, least: int) {
    && (most == 0 || most in stats) && (forall s | s in stats :: s <= most)
    && (least == RESOLVE_MAX || least in stats) && (forall s | s in stats :: least <= s)
  }

  lemma AccumulateOne(stats: set<ResolveState>, most: int, least: int, stat: ResolveState)
    requires Accumulated(stats, most, least)
    ensures Accumulated(stats + {stat}, MaxStatus(most, stat), MinStatus(least, stat))
  {}

  lemma StatsOneMore(m: States, seen: set<string>, url: string, lastCycle: bool)
    requires seen <= m.Keys && url in m && url !in seen
    ensures Stats(Restricted(m, seen + {url}), lastCycle)
            == if m[url].lastCycle == lastCycle then Stats(Restricted(m, seen), lastCycle) + {m[url].lastResult.stat}
               else Stats(Restricted(m, seen), lastCycle)
  {
    var (small, large) := (Restricted(m, seen), Restricted(m, seen + {url}));
    forall s ensures s in Stats(large, lastCycle)
                     <==> s in Stats(small, lastCycle) || (m[url].lastCycle == lastCycle && s == m[url].lastResult.stat)
    {
      if s in Stats(large, lastCycle) {
        var u :| u in large && large[u].lastCycle == lastCycle && large[u].lastResult.stat == s;
        assert u == url || u in small;
      }
      if s in Stats(small, lastCycle) {
        var u :| u in small && small[u].lastCycle == lastCycle && small[u].lastResult.stat == s;
        assert u in large;
      }
      if m[url].lastCycle == lastCycle && s == m[url].lastResult.stat {
        assert url in large;
      }
    }
  }

  ghost function Restricted(m: States, seen: set<string>): States
    requires seen <= m.Keys
  {
    map url | url in seen :: m[url]
  }

  /** What the comparisons on the four accumulators say about the two sets. */
  lemma Accumulators(stats: set<ResolveState>, most: int, least: int)
    requires Accumulated(stats, most, least)
    ensures most == COMPLETE && least == COMPLETE <==> All(stats, COMPLETE)
    ensures most == HTTP_FAILED <==> HTTP_FAILED in stats
    ensures HTTP_FAILED !in stats ==> (most == FAILED <==> FAILED in stats)
    ensures most == 0 && least == RESOLVE_MAX <==> stats == {}
    ensures most != 0 && least != RESOLVE_MAX <==> !(stats <= {NOT_POLLED})
    ensures stats != {} ==> most == Greatest(stats) && least == Least(stats)
  {}

  class StatusPoller {
    var statePerCluster: States
    var status: ResolveState
    var oldStatus: ResolveState

    constructor ()
      ensures statePerCluster == map[] && status == NOT_POLLED && oldStatus == NOT_POLLED
    {
      statePerCluster, status, oldStatus := map[], NOT_POLLED, NOT_POLLED;
    }

    /** `nextSubStatus`. */
    method NextSubStatus(update: PollResult)
      modifies this
      ensures statePerCluster == Updated(old(statePerCluster), update)
      ensures status == old(status) && oldStatus == old(oldStatus)
    {
      if update.url in statePerCluster {
        var lastState := statePerCluster[update.url];
        if lastState.lastResult.resolveID != "" && lastState.lastResult.resolveID != update.resolveID {
          statePerCluster := statePerCluster[update.url := lastState.(lastCycle := true)];
        }
      } else {
        statePerCluster := statePerCluster[update.url := PollerState(update, false)];
      }
      var state := statePerCluster[update.url];
      statePerCluster := statePerCluster[update.url := state.(lastResult := update)];
    }

    /** `computeStatus`, which visits the clusters in any order. */
    method ComputeStatus() returns (r: ResolveState)
      ensures r == Status(statePerCluster)
    {
      ghost var m := statePerCluster;
      hide Overall, Stats, Restricted, Accumulated;
      var firstCycleMax: int, firstCycleMin: int := 0, RESOLVE_MAX;
      var lastCycleMax: int, lastCycleMin: int := 0, RESOLVE_MAX;
      var rest := statePerCluster.Keys;
      ghost var seen: set<string> := {};
      NothingSeen(m);
      while rest != {}
        invariant rest <= m.Keys && seen == m.Keys - rest
        invariant Accumulated(Stats(Restricted(m, seen), false), firstCycleMax, firstCycleMin)
        invariant Accumulated(Stats(Restricted(m, seen), true), lastCycleMax, lastCycleMin)
        invariant NOT_VERSION !in Stats(Restricted(m, seen), true) && NOT_STARTED !in Stats(Restricted(m, seen), true)
        decreases rest
      {
        var url :| url in rest;
        var s := statePerCluster[url];
        StatsOneMore(m, seen, url, false);
        StatsOneMore(m, seen, url, true);
        if s.lastCycle {
          AccumulateOne(Stats(Restricted(m, seen), true), lastCycleMax, lastCycleMin, s.lastResult.stat);
          lastCycleMax := MaxStatus(lastCycleMax, s.lastResult.stat);
          lastCycleMin := MinStatus(lastCycleMin, s.lastResult.stat);
          if s.lastResult.stat == NOT_VERSION || s.lastResult.stat == NOT_STARTED {
            FailedEarly(m, url);
            return FAILED;
          }
        } else {
          AccumulateOne(Stats(Restricted(m, seen), false), firstCycleMax, firstCycleMin, s.lastResult.stat);
          firstCycleMax := MaxStatus(firstCycleMax, s.lastResult.stat);
          firstCycleMin := MinStatus(firstCycleMin, s.lastResult.stat);
        }
        rest, seen := rest - {url}, seen + {url};
      }
      assert seen == m.Keys;
      AllSeen(m);
      r := Combine(Stats(m, false), Stats(m, true), firstCycleMax, firstCycleMin, lastCycleMax, lastCycleMin);
    }

    /** `updateStatus` and `finished`. */
    method Finished() returns (done: bool)
      modifies this`status, this`oldStatus
      ensures status == Status(statePerCluster) && oldStatus == status
      ensures done <==> Terminal(status)
    {
      status := ComputeStatus();
      oldStatus := status;
      return status >= TERMINALS;
    }
  }

  lemma NothingSeen(m: States)
    ensures Accumulated(Stats(Restricted(m, {}), false), 0, RESOLVE_MAX)
    ensures Accumulated(Stats(Restricted(m, {}), true), 0, RESOLVE_MAX)
    ensures Stats(Restricted(m, {}), true) == {}
  {}

  lemma AllSeen(m: States)
    ensures Restricted(m, m.Keys) == m
  {}

  lemma FailedEarly(m: States, url: string)
    requires url in m && m[url].lastCycle
             && (m[url].lastResult.stat == NOT_VERSION || m[url].lastResult.stat == NOT_STARTED)
    ensures Status(m) == FAILED
  {
    assert m[url].lastResult.stat in Stats(m, true);
  }

  /** The decisions of `computeStatus` after its loop. */
  method Combine(ghost first: set<ResolveState>, ghost last: set<ResolveState>,
                 firstCycleMax: int, firstCycleMin: int, lastCycleMax: int, lastCycleMin: int) returns (r: ResolveState)
    requires Accumulated(first, firstCycleMax, firstCycleMin) && Accumulated(last, lastCycleMax, lastCycleMin)
    requires NOT_VERSION !in last && NOT_STARTED !in last
    ensures r == Overall(first, last)
  {
    Accumulators(first, firstCycleMax, firstCycleMin);
    Accumulators(last, lastCycleMax, lastCycleMin);
    if firstCycleMax == COMPLETE && firstCycleMin == COMPLETE {
      return COMPLETE;
    }
    if firstCycleMax == HTTP_FAILED || lastCycleMax == HTTP_FAILED {
      return HTTP_FAILED;
    }
    if lastCycleMax == FAILED {
      return FAILED;
    }
    if lastCycleMax == 0 && lastCycleMin == RESOLVE_MAX {
      return MinStatus(firstCycleMax, IN_PROGRESS);
    }
    if firstCycleMax != 0 && firstCycleMin != RESOLVE_MAX {
      return IN_PROGRESS;
    }
    if lastCycleMax == COMPLETE && lastCycleMin == COMPLETE {
      return COMPLETE;
    }
    return MaxStatus(IN_PROGRESS, lastCycleMin);
  }

  // ---------------------------------------------------------------- runs

  /** What the poller knows after a sequence of reports. */
  function After(us: seq<PollResult>): States {
    if us == [] then map[] else Updated(After(us[..|us| - 1]), us[|us| - 1])
  }

  /** The status after the first `k` reports. */
  ghost function StatusAt(us: seq<PollResult>, k: nat): ResolveState
    requires k <= |us|
  {
    Status(After(us[..k]))
  }

  lemma AfterNext(us: seq<PollResult>, k: nat)
    requires k < |us|
    ensures After(us[..k + 1]) == Updated(After(us[..k]), us[k])
  {
    assert us[..k + 1][..k] == us[..k];
  }

  /** The receiving goroutine of `poll`, on the reports that arrive, in the order they do: it
      returns the status after the first report that makes it terminal. */
  method Poll(clusters: nat, updates: seq<PollResult>) returns (status: ResolveState, taken: nat)
    ensures clusters == 0 ==> status == NOT_INTENDED && taken == 0
    ensures clusters > 0 ==> taken <= |updates|
    ensures clusters > 0 && taken > 0 ==> status == StatusAt(updates, taken)
    ensures clusters > 0 && taken < |updates| ==> taken > 0 && Terminal(status)
    ensures clusters > 0 ==> forall k | 0 < k < taken :: !Terminal(StatusAt(updates, k))
  {
    status, taken := NOT_INTENDED, 0;
    if clusters == 0 {
      return;
    }
    assert updates[..0] == [] && After([]) == map[];
    hide *;
    var sp := new StatusPoller();
    status := sp.status;
    while taken < |updates|
      invariant taken <= |updates| && sp.statePerCluster == After(updates[..taken])
      invariant taken > 0 ==> status == StatusAt(updates, taken)
      invariant forall k | 0 < k <= taken :: !Terminal(StatusAt(updates, k))
      decreases |updates| - taken
    {
      AfterNext(updates, taken);
      sp.NextSubStatus(updates[taken]);
      var done := sp.Finished();
      status, taken := sp.status, taken + 1;
      StatusAtIs(updates, taken);
      if done {
        return;
      }
    }
  }

  lemma StatusAtIs(us: seq<PollResult>, k: nat)
    requires k <= |us|
    ensures StatusAt(us, k) == Status(After(us[..k]))
  {}

  /** One cluster's reports, in order. */
  function ReportsOf(us: seq<PollResult>, url: string): seq<PollResult> {
    if us == [] then []
    else ReportsOf(us[..|us| - 1], url) + if us[|us| - 1].url == url then [us[|us| - 1]] else []
  }

  predicate CycleEnded(reports: seq<PollResult>) {
    exists k :: 0 <= k < |reports| - 1 && CycleEnds(reports[k], reports[k + 1])
  }

  lemma CycleEndedSnoc(reports: seq<PollResult>, update: PollResult)
    ensures CycleEnded(reports + [update])
            <==> CycleEnded(reports) || (reports != [] && CycleEnds(reports[|reports| - 1], update))
  {
    var longer := reports + [update];
    if CycleEnded(reports) {
      var k :| 0 <= k < |reports| - 1 && CycleEnds(reports[k], reports[k + 1]);
      assert CycleEnds(longer[k], longer[k + 1]);
    }
    if reports != [] && CycleEnds(reports[|reports| - 1], update) {
      assert CycleEnds(longer[|reports| - 1], longer[|reports| - 1 + 1]);
    }
    if k :| 0 <= k < |longer| - 1 && CycleEnds(longer[k], longer[k + 1]) {
      assert k < |reports| - 1 ==> CycleEnds(reports[k], reports[k + 1]);
    }
  }

  /** The incremental state equals history: a cluster is in its last cycle exactly if two
      consecutive reports of it had a resolve ID and then a different one. */
  lemma {:induction false} StateIsHistory(us: seq<PollResult>, url: string)
    ensures var reports := ReportsOf(us, url);
            && (url in After(us) <==> reports != [])
            && (reports != [] ==> After(us)[url] == PollerState(reports[|reports| - 1], CycleEnded(reports)))
  {
    if us != [] {
      var n := |us| - 1;
      StateIsHistory(us[..n], url);
      assert us[n].url != url ==> ReportsOf(us, url) == ReportsOf(us[..n], url);
      if us[n].url == url {
        CycleEndedSnoc(ReportsOf(us[..n], url), us[n]);
      }
    }
  }

  /** In the reports' own terms. */
  lemma LastCycleMeans(us: seq<PollResult>, url: string)
    requires url in After(us)
    ensures var reports := ReportsOf(us, url);
            After(us)[url].lastCycle
            <==> exists k :: 0 <= k < |reports| - 1 && reports[k].resolveID != ""
                             && reports[k + 1].resolveID != reports[k].resolveID
  {
    StateIsHistory(us, url);
    hide After, ReportsOf;
    var reports := ReportsOf(us, url);
    if k :| 0 <= k < |reports| - 1 && reports[k].resolveID != "" && reports[k + 1].resolveID != reports[k].resolveID {
      assert CycleEnds(reports[k], reports[k + 1]);
    }
    if k :| 0 <= k < |reports| - 1 && CycleEnds(reports[k], reports[k + 1]) {
      assert reports[k].resolveID != "" && reports[k + 1].resolveID != reports[k].resolveID;
    }
  }

  ghost predicate SomeLastCycle(m: States) {
    exists url :: url in m && m[url].lastCycle
  }

  lemma {:induction false} LastCycleStays(us: seq<PollResult>, k: nat)
    requires k <= |us| && SomeLastCycle(After(us[..k]))
    ensures SomeLastCycle(After(us))
  {
    if k == |us| {
      assert us[..k] == us;
    } else {
      var n := |us| - 1;
      assert us[..n][..k] == us[..k];
      LastCycleStays(us[..n], k);
      var url :| url in After(us[..n]) && After(us[..n])[url].lastCycle;
      assert url in After(us) && After(us)[url].lastCycle;
    }
  }

  lemma StatsEmpty(m: States)
    ensures Stats(m, true) == {} <==> !SomeLastCycle(m)
    ensures Stats(m, false) == {} && Stats(m, true) == {} <==> m == map[]
  {
    if url :| url in m && m[url].lastCycle { assert m[url].lastResult.stat in Stats(m, true); }
    if url :| url in m { assert m[url].lastResult.stat in Stats(m, m[url].lastCycle); }
  }

  lemma AllStats(m: States, lastCycle: bool, stat: ResolveState)
    ensures Stats(m, lastCycle) <= {stat}
            <==> forall url | url in m && m[url].lastCycle == lastCycle :: m[url].lastResult.stat == stat
  {
    if Stats(m, lastCycle) <= {stat} {
      forall url | url in m && m[url].lastCycle == lastCycle ensures m[url].lastResult.stat == stat {
        assert m[url].lastResult.stat in Stats(m, lastCycle);
      }
    }
  }

  lemma SomeStats(m: States, stat: ResolveState)
    ensures stat in Stats(m, false) + Stats(m, true) <==> exists url :: url in m && m[url].lastResult.stat == stat
  {
    if url :| url in m && m[url].lastResult.stat == stat { assert stat in Stats(m, m[url].lastCycle); }
  }

  ghost predicate AllComplete(m: States) {
    forall url | url in m :: m[url].lastResult.stat == COMPLETE
  }

  /** Before any cluster is in its last cycle, polling ends only when all reported clusters are
      complete or one of them cannot be reached. */
  lemma FirstCycleStatus(m: States)
    requires !SomeLastCycle(m)
    ensures Status(m) == COMPLETE <==> m != map[] && AllComplete(m)
    ensures Status(m) == HTTP_FAILED <==> exists url :: url in m && m[url].lastResult.stat == HTTP_FAILED
    ensures Terminal(Status(m)) ==> Status(m) == COMPLETE || Status(m) == HTTP_FAILED
  {
    StatsEmpty(m);
    AllStats(m, false, COMPLETE);
    SomeStats(m, HTTP_FAILED);
  }

  /** When every cluster is in its last cycle: complete exactly if all are. */
  lemma LastCycleStatus(m: States)
    requires forall url | url in m :: m[url].lastCycle
    ensures Status(m) == COMPLETE <==> m != map[] && AllComplete(m)
  {
    StatsEmpty(m);
    AllStats(m, true, COMPLETE);
    assert Stats(m, false) == {};
    var last := Stats(m, true);
    if last != {} && HTTP_FAILED !in last && FAILED !in last {
      LeastComplete(last);
    }
  }

  lemma LeastComplete(stats: set<ResolveState>)
    requires stats != {} && HTTP_FAILED !in stats && FAILED !in stats
    ensures Least(stats) == COMPLETE ==> All(stats, COMPLETE)
  {}

  /** Once a cluster is in its last cycle, the status never again falls below in-progress. */
  lemma NeverSlipsBack(us: seq<PollResult>, k: nat)
    requires k <= |us| && SomeLastCycle(After(us[..k]))
    ensures Status(After(us)) >= IN_PROGRESS
  {
    LastCycleStays(us, k);
    StatsEmpty(After(us));
    LastCycleFloor(Stats(After(us), false), Stats(After(us), true));
    hide After, SomeLastCycle, Stats, Overall;
  }

  lemma LastCycleFloor(first: set<ResolveState>, last: set<ResolveState>)
    requires last != {}
    ensures Overall(first, last) >= IN_PROGRESS
  {}

  /** If no cluster reports that nothing is intended, which no sub-poller does, polling can only
      end as complete, failed or unreachable. */
  lemma TerminalStatuses(m: States)
    requires forall url | url in m :: m[url].lastResult.stat != NOT_INTENDED
    ensures Terminal(Status(m)) ==> Status(m) == COMPLETE || Status(m) == FAILED || Status(m) == HTTP_FAILED
  {
    forall s | s in Stats(m, true) ensures s != NOT_INTENDED {
      var url :| url in m && m[url].lastCycle && m[url].lastResult.stat == s;
    }
  }

  /** Completion can be premature, exactly in two ways: the clusters still in their first cycle
      are complete while one in its last is not, or all in their last cycle are complete while
      the others have not been polled yet. */
  lemma PrematureCompletion(m: States)
    ensures Status(m) == COMPLETE && !AllComplete(m)
            <==> || (Stats(m, false) == {COMPLETE} && !(Stats(m, true) <= {COMPLETE})
                     && NOT_VERSION !in Stats(m, true) && NOT_STARTED !in Stats(m, true))
                 || (Stats(m, false) == {NOT_POLLED} && Stats(m, true) == {COMPLETE})
  {
    AllStats(m, false, COMPLETE);
    AllStats(m, true, COMPLETE);
    var (first, last) := (Stats(m, false), Stats(m, true));
    if HTTP_FAILED !in last && FAILED !in last && last != {} {
      LeastComplete(last);
    }
  }

  // ---------------------------------------------------------------- what each status means

  /** Some cluster on this side of its last cycle reported this last. */
  ghost predicate Reported(m: States, lastCycle: bool, stat: ResolveState) {
    exists url :: url in m && m[url].lastCycle == lastCycle && m[url].lastResult.stat == stat
  }

  /** Some cluster is in its first cycle, and all that are are complete. */
  ghost predicate FirstCycleComplete(m: States) {
    && (exists url :: url in m && !m[url].lastCycle)
    && (forall url | url in m && !m[url].lastCycle :: m[url].lastResult.stat == COMPLETE)
  }

  /** A cluster in its last cycle has not even come to the deployment's version. */
  ghost predicate Overtaken(m: States) { Reported(m, true, NOT_VERSION) || Reported(m, true, NOT_STARTED) }

  lemma ReportedStats(m: States, lastCycle: bool, stat: ResolveState)
    ensures Reported(m, lastCycle, stat) <==> stat in Stats(m, lastCycle)
  {}

  lemma FirstCycleStats(m: States)
    ensures FirstCycleComplete(m) <==> Stats(m, false) == {COMPLETE}
    ensures (exists url :: url in m && m[url].lastCycle) <==> Stats(m, true) != {}
    ensures (exists url :: url in m && !m[url].lastCycle) <==> Stats(m, false) != {}
  {
    AllStats(m, false, COMPLETE);
    if url :| url in m && !m[url].lastCycle { assert m[url].lastResult.stat in Stats(m, false); }
    if url :| url in m && m[url].lastCycle { assert m[url].lastResult.stat in Stats(m, true); }
  }

  lemma ReportedAll(m: States)
    ensures forall stat, lastCycle :: Reported(m, lastCycle, stat) <==> stat in Stats(m, lastCycle)
  {
    forall stat, lastCycle ensures Reported(m, lastCycle, stat) <==> stat in Stats(m, lastCycle) {
      ReportedStats(m, lastCycle, stat);
    }
  }

  /** Polling fails exactly if a cluster was overtaken, or failed in its last cycle while none is
      unreachable and the first cycle is not complete. */
  lemma FailedMeans(m: States)
    ensures Status(m) == FAILED
            <==> || Overtaken(m)
                 || (Reported(m, true, FAILED) && !Reported(m, true, HTTP_FAILED) && !Reported(m, false, HTTP_FAILED)
                     && !FirstCycleComplete(m))
  {
    ReportedAll(m);
    FirstCycleStats(m);
    hide Reported, FirstCycleComplete, Stats;
  }

  /** It finds a server unreachable exactly if one is, no cluster was overtaken and the first cycle
      is not complete. */
  lemma HttpFailedMeans(m: States)
    ensures Status(m) == HTTP_FAILED
            <==> && !Overtaken(m) && !FirstCycleComplete(m)
                 && (Reported(m, true, HTTP_FAILED) || Reported(m, false, HTTP_FAILED))
  {
    ReportedAll(m);
    FirstCycleStats(m);
    hide Reported, FirstCycleComplete, Stats;
  }

  /** It completes exactly if no cluster was overtaken, and either the first cycle is complete or
      all clusters in their last cycle are while the others have not been polled. */
  lemma CompleteMeans(m: States)
    ensures Status(m) == COMPLETE
            <==> && !Overtaken(m)
                 && (FirstCycleComplete(m)
                     || ((exists url :: url in m && m[url].lastCycle)
                         && forall url | url in m ::
                              m[url].lastResult.stat == if m[url].lastCycle then COMPLETE else NOT_POLLED))
  {
    ReportedAll(m);
    FirstCycleStats(m);
    AllStats(m, true, COMPLETE);
    AllStats(m, false, NOT_POLLED);
    if Stats(m, true) != {} && HTTP_FAILED !in Stats(m, true) && FAILED !in Stats(m, true) {
      LeastComplete(Stats(m, true));
    }
    hide Reported, FirstCycleComplete, Stats;
  }

  /** While no cluster is in its last cycle, a status that does not end polling is the furthest of
      their reports, but never further than in-progress. */
  lemma EarlyMeans(m: States)
    requires !SomeLastCycle(m) && !FirstCycleComplete(m) && !Reported(m, false, HTTP_FAILED)
    ensures Status(m)
            == if PolledBeyond(m, {NOT_POLLED, NOT_STARTED, NOT_VERSION, PENDING_REQUEST})
               then IN_PROGRESS
               else if Reported(m, false, PENDING_REQUEST) then PENDING_REQUEST
               else if Reported(m, false, NOT_VERSION) then NOT_VERSION
               else if Reported(m, false, NOT_STARTED) then NOT_STARTED
               else NOT_POLLED
  {
    ReportedAll(m);
    FirstCycleStats(m);
    StatsEmpty(m);
    Beyond(m, {NOT_POLLED, NOT_STARTED, NOT_VERSION, PENDING_REQUEST});
    hide Reported, FirstCycleComplete, Stats, SomeLastCycle, PolledBeyond;
  }

  /** Some cluster's last report is none of these. */
  ghost predicate PolledBeyond(m: States, stats: set<ResolveState>) {
    exists url :: url in m && m[url].lastResult.stat !in stats
  }

  lemma Beyond(m: States, stats: set<ResolveState>)
    ensures PolledBeyond(m, stats)
            <==> exists s :: s in Stats(m, false) + Stats(m, true) && s !in stats
  {
    if url :| url in m && m[url].lastResult.stat !in stats {
      assert m[url].lastResult.stat in Stats(m, m[url].lastCycle);
    }
    if s :| s in Stats(m, false) + Stats(m, true) && s !in stats {
      var lastCycle :| s in Stats(m, lastCycle);
      var url :| url in m && m[url].lastCycle == lastCycle && m[url].lastResult.stat == s;
    }
  }

  /** Once some are, it is in-progress while another cluster has been polled in its first cycle or
      one in its last is no further; otherwise the least of the last cycle's reports. */
  lemma LateMeans(m: States)
    requires SomeLastCycle(m) && !Overtaken(m) && !FirstCycleComplete(m)
    requires !Reported(m, true, HTTP_FAILED) && !Reported(m, false, HTTP_FAILED) && !Reported(m, true, FAILED)
    ensures Status(m)
            == if exists url :: url in m && !m[url].lastCycle && m[url].lastResult.stat != NOT_POLLED then IN_PROGRESS
               else if Reported(m, true, NOT_POLLED) || Reported(m, true, PENDING_REQUEST)
                       || Reported(m, true, IN_PROGRESS) then IN_PROGRESS
               else if Reported(m, true, TASKS_STARTING) then TASKS_STARTING
               else if Reported(m, true, ERRED_HTTP) then ERRED_HTTP
               else if Reported(m, true, ERRED_REZ) then ERRED_REZ
               else if Reported(m, true, NOT_INTENDED) then NOT_INTENDED
               else COMPLETE
  {
    ReportedAll(m);
    FirstCycleStats(m);
    StatsEmpty(m);
    AllStats(m, false, NOT_POLLED);
    hide Reported, FirstCycleComplete, Stats, SomeLastCycle;
  }
}
