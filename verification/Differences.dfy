/** What differs between two deployments: the lists built by lib/deployment.go,
    lib/deploy_config.go, lib/startup.go and lib/owner_set.go. */
module Differences {
  import opened Ordering
  import opened Types
  import Volumes

  datatype CheckField =
    | SkipCheck | ConnectDelay | ConnectInterval | Timeout | Protocol | PortIndex
    | FailureStatuses | Interval | Retries | UriPath | UriTimeout

  datatype Difference =
    | ClusterName | Source | Flavor | Kind | Schedule | OwnerCount | Owner(name: string)
    | NumInstances | EnvVars | Metadata | Usage | VolumeList
    | Check(field: CheckField)

  /** What the strings of a resource map parse to, defaults filled in. */
  datatype Parsed = Parsed(ports: int, cpus: real, memory: real)

  type Reader = map<string, string> -> Parsed

  // ---------------------------------------------------------------- what counts as a difference

  /** Skipping the checks makes all their other settings irrelevant. */
  function Effective(s: Startup): Startup { if s.skipCheck then ZERO_STARTUP else s }

  ghost predicate ChecksDiffer(s: Startup, o: Startup, f: CheckField) {
    var (l, r) := (Effective(s), Effective(o));
    match f
    case SkipCheck => s.skipCheck != o.skipCheck
    case ConnectDelay => l.connectDelay != r.connectDelay
    case ConnectInterval => l.connectInterval != r.connectInterval
    case Timeout => l.timeout != r.timeout
    case Protocol => l.protocol != r.protocol
    case PortIndex => l.portIndex != r.portIndex
    case FailureStatuses => multiset(l.failureStatuses) != multiset(r.failureStatuses)
    case Interval => l.interval != r.interval
    case Retries => l.retries != r.retries
    case UriPath => l.uriPath != r.uriPath
    case UriTimeout => l.uriTimeout != r.uriTimeout
  }

  predicate Near(a: real, b: real) { -0.001 <= a - b <= 0.001 }

  /** `Resources.Equal`. */
  predicate SameResources(read: Reader, r: map<string, string>, o: map<string, string>) {
    var (u, v) := (read(r), read(o));
    |r| == |o| && u.ports == v.ports && Near(u.cpus, v.cpus) && Near(u.memory, v.memory)
  }

  ghost predicate ConfigDiffers(read: Reader, c: DeployConfig, o: DeployConfig, t: Difference) {
    match t
    case NumInstances => c.numInstances != o.numInstances
    case EnvVars => c.env != o.env
    case Metadata => c.metadata != o.metadata
    case Usage => !SameResources(read, c.resources, o.resources)
    case VolumeList => multiset(c.volumes) != multiset(o.volumes)
    case Check(f) => ChecksDiffer(c.startup, o.startup, f)
    case _ => false
  }

  ghost predicate OwnersDiffer(os: set<string>, o: set<string>, t: Difference) {
    match t
    case OwnerCount => |os| != |o|
    case Owner(name) => name in os && name !in o
    case _ => false
  }

  ghost predicate Differs(read: Reader, d: Deployment, o: Deployment, t: Difference) {
    match t
    case ClusterName => d.clusterName != o.clusterName
    case Source => !d.sourceID.Equal(o.sourceID)
    case Flavor => d.flavor != o.flavor
    case Kind => d.kind != o.kind
    case Schedule => d.kind == KIND_SCHEDULED && d.config.schedule != o.config.schedule
    case OwnerCount => OwnersDiffer(d.owners, o.owners, t)
    case Owner(_) => OwnersDiffer(d.owners, o.owners, t)
    case _ => ConfigDiffers(read, d.config, o.config, t)
  }

  // ---------------------------------------------------------------- the lists

  /** The entries of a list of checks that apply, in order. */
  function Noted<T(!new)>(checks: seq<(T, bool)>): (r: seq<T>)
    ensures forall u :: u in r <==> (u, true) in checks
  {
    if checks == [] then []
    else
      assert checks == [checks[0]] + checks[1..];
      (if checks[0].1 then [checks[0].0] else []) + Noted(checks[1..])
  }

  /** Go's `sort.Ints`. */
  method SortInts(a: array<int>)
    modifies a
    ensures a[..] == Sort(IntLe, old(a[..]))
    ensures forall i, j | 0 <= i < j < a.Length :: a[i] <= a[j]
  {
    IntOrder();
    SortSorted(IntLe, a[..]);
    var sorted := Sort(IntLe, a[..]);
    assert |sorted| == |multiset(sorted)| == |multiset(a[..])| == a.Length;
    forall i | 0 <= i < a.Length { a[i] := sorted[i]; }
  }

  method SameSlots(l: array<int>, r: array<int>) returns (same: bool)
    requires l.Length == r.Length
    ensures same <==> l[..] == r[..]
  {
    for n := 0 to l.Length
      invariant l[..n] == r[..n]
    {
      if l[n] != r[n] {
        assert l[..][n] != r[..][n];
        return false;
      }
    }
    assert l[..l.Length] == l[..] && r[..r.Length] == r[..];
    return true;
  }

  /** The comparison of failure statuses inside `Startup.diff`: it sorts both lists in place
      and then compares them slot by slot. The two may be one list. */
  method StatusesDiffer(l: array<int>, r: array<int>) returns (differ: bool)
    modifies l, r
    ensures differ <==> multiset(old(l[..])) != multiset(old(r[..]))
    ensures l.Length == r.Length ==> l[..] == Sort(IntLe, old(l[..])) && r[..] == Sort(IntLe, old(r[..]))
    ensures l.Length != r.Length ==> l[..] == old(l[..]) && r[..] == old(r[..])
  {
    hide Sort;
    ghost var (left, right) := (l[..], r[..]);
    assert |multiset(left)| == l.Length && |multiset(right)| == r.Length;
    if l.Length != r.Length {
      return true;
    }
    IntOrder();
    SortEqualIffSameElements(IntLe, left, right);
    SortTwice(left);
    SortInts(r);
    SortInts(l);
    var same := SameSlots(l, r);
    return !same;
  }

  lemma SortTwice(s: seq<int>)
    ensures Sort(IntLe, Sort(IntLe, s)) == Sort(IntLe, s)
  {
    IntOrder();
    SortEqualIffSameElements(IntLe, Sort(IntLe, s), s);
  }

  method ArrayOf<T>(s: seq<T>) returns (a: array<T>)
    ensures fresh(a) && a[..] == s
  {
    a := new T[|s|](i requires 0 <= i < |s| => s[i]);
  }

  method StatusListsDiffer(l: seq<int>, r: seq<int>) returns (differ: bool)
    ensures differ <==> multiset(l) != multiset(r)
  {
    var ls := ArrayOf(l);
    var rs := ArrayOf(r);
    differ := StatusesDiffer(ls, rs);
  }

  /** The comparisons of `Startup.diff`, in order. */
  function StartupChecks(s: Startup, o: Startup, statusesDiffer: bool): (r: seq<(CheckField, bool)>)
    requires statusesDiffer <==> ChecksDiffer(s, o, FailureStatuses)
    ensures forall f :: (f, true) in r <==> ChecksDiffer(s, o, f)
  {
    var (l, r) := (Effective(s), Effective(o));
    [ (SkipCheck, s.skipCheck != o.skipCheck),
      (ConnectDelay, l.connectDelay != r.connectDelay),
      (ConnectInterval, l.connectInterval != r.connectInterval),
      (Timeout, l.timeout != r.timeout),
      (Protocol, l.protocol != r.protocol),
      (PortIndex, l.portIndex != r.portIndex),
      (FailureStatuses, statusesDiffer),
      (Interval, l.interval != r.interval),
      (Retries, l.retries != r.retries),
      (UriPath, l.uriPath != r.uriPath),
      (UriTimeout, l.uriTimeout != r.uriTimeout) ]
  }

  /** `Startup.diff`. */
  method StartupDiff(s: Startup, o: Startup) returns (diffs: seq<CheckField>)
    ensures forall f :: f in diffs <==> ChecksDiffer(s, o, f)
  {
    var statusesDiffer := StatusListsDiffer(Effective(s).failureStatuses, Effective(o).failureStatuses);
    diffs := Noted(StartupChecks(s, o, statusesDiffer));
  }

  /** `Env.Equal` and `Metadata.Equal`: equal sizes, and every entry of the first in the second. */
  method MapEqual(e: map<string, string>, o: map<string, string>) returns (equal: bool)
    ensures equal <==> e == o
  {
    if |e| != |o| {
      return false;
    }
    var rest := e.Keys;
    while rest != {}
      invariant rest <= e.Keys
      invariant forall k | k in e && k !in rest :: k in o && o[k] == e[k]
      decreases rest
    {
      var name :| name in rest;
      if name !in o || o[name] != e[name] {
        return false;
      }
      rest := rest - {name};
    }
    SubsetOfSameSize(e.Keys, o.Keys);
    return true;
  }

  lemma SubsetOfSameSize<T>(a: set<T>, b: set<T>)
    requires a <= b && |a| == |b|
    ensures a == b
  {
    assert |b - a| == |b| - |a|;
  }

  /** The owner comparison of `OwnerSet.Diff` and `Deployment.Diff`. */
  method OwnerDiff(os: set<string>, o: set<string>) returns (diffs: seq<Difference>)
    ensures forall t :: t in diffs <==> OwnersDiffer(os, o, t)
    ensures diffs == [] <==> os == o
  {
    diffs := if |os| != |o| then [OwnerCount] else [];
    var rest := os;
    while rest != {}
      invariant rest <= os
      invariant forall name :: Owner(name) in diffs <==> name in os && name !in rest && name !in o
      invariant OwnerCount in diffs <==> |os| != |o|
      invariant forall t | t in diffs :: t.Owner? || t.OwnerCount?
      decreases rest
    {
      var owner :| owner in rest;
      if owner !in o {
        diffs := diffs + [Owner(owner)];
      }
      rest := rest - {owner};
    }
    forall t ensures t in diffs <==> OwnersDiffer(os, o, t) {
      match t case Owner(name) => case _ =>
    }
    if diffs == [] {
      assert OwnerCount !in diffs;
      forall name | name in os ensures name in o { assert Owner(name) !in diffs; }
      SubsetOfSameSize(os, o);
    } else {
      assert diffs[0] in diffs;
    }
  }

  /** Maps are only compared if one has entries, which makes nil equal to empty. */
  method MapsDiffer(e: map<string, string>, o: map<string, string>) returns (differ: bool)
    ensures differ <==> e != o
  {
    var equal := true;
    if |e| != 0 || |o| != 0 {
      equal := MapEqual(e, o);
    }
    return !equal;
  }

  method VolumesDiffer(vs: seq<Volume>, o: seq<Volume>) returns (differ: bool)
    ensures differ <==> multiset(vs) != multiset(o)
  {
    var equal := true;
    if |vs| != 0 || |o| != 0 {
      var left := ArrayOf(vs);
      var right := ArrayOf(o);
      equal := Volumes.Equal(left, right);
    }
    return !equal;
  }

  function Checks(fields: seq<CheckField>): (r: seq<Difference>)
    ensures forall t :: t in r <==> t.Check? && t.field in fields
  {
    if fields == [] then [] else [Check(fields[0])] + Checks(fields[1..])
  }

  /** The comparisons of `DeployConfig.Diff` before the startup checks, in order. */
  function ConfigChecks(read: Reader, dc: DeployConfig, o: DeployConfig, envs: bool, metadatas: bool,
                        volumes: bool): (r: seq<(Difference, bool)>)
    requires envs == (dc.env != o.env) && metadatas == (dc.metadata != o.metadata)
    requires volumes == (multiset(dc.volumes) != multiset(o.volumes))
    ensures forall t :: (t, true) in r <==> !t.Check? && ConfigDiffers(read, dc, o, t)
  {
    var resourced := |dc.resources| != 0 || |o.resources| != 0;
    [ (NumInstances, dc.numInstances != o.numInstances),
      (EnvVars, envs),
      (Metadata, metadatas),
      (Usage, resourced && !SameResources(read, dc.resources, o.resources)),
      (VolumeList, volumes) ]
  }

  /** `DeployConfig.Diff`. Its first result is true when there are no differences, the
      reverse of what `Deployment.Diff` returns. */
  method ConfigDiff(read: Reader, dc: DeployConfig, o: DeployConfig) returns (same: bool, diffs: seq<Difference>)
    ensures forall t :: t in diffs <==> ConfigDiffers(read, dc, o, t)
    ensures same <==> diffs == []
  {
    var envs := MapsDiffer(dc.env, o.env);
    var metadatas := MapsDiffer(dc.metadata, o.metadata);
    var volumes := VolumesDiffer(dc.volumes, o.volumes);
    var checks := StartupDiff(dc.startup, o.startup);
    hide ChecksDiffer, Noted, ConfigChecks, Checks;
    diffs := Noted(ConfigChecks(read, dc, o, envs, metadatas, volumes)) + Checks(checks);
    same := |diffs| == 0;
  }

  /** `Deployment.Diff`, which panics on deployments of different identity. */
  method DeploymentDiff(read: Reader, d: Deployment, o: Deployment) returns (different: bool, diffs: seq<Difference>)
    requires d.ID() == o.ID()
    ensures forall t :: t in diffs <==> Differs(read, d, o, t)
    ensures different <==> exists t :: Differs(read, d, o, t)
  {
    diffs := Noted([
      (ClusterName, d.clusterName != o.clusterName),
      (Source, !d.sourceID.Equal(o.sourceID)),
      (Flavor, d.flavor != o.flavor),
      (Kind, d.kind != o.kind),
      (Schedule, d.kind == KIND_SCHEDULED && d.config.schedule != o.config.schedule)]);
    var owners := OwnerDiff(d.owners, o.owners);
    var _, configs := ConfigDiff(read, d.config, o.config);
    diffs := diffs + owners + configs;
    different := |diffs| != 0;
    if different {
      assert diffs[0] in diffs;
    }
  }

  // ---------------------------------------------------------------- what the lists say

  /** Both skip their checks, or neither does and their settings are equal, the failure statuses
      as multisets. */
  ghost predicate SameChecks(s: Startup, o: Startup) {
    && s.skipCheck == o.skipCheck
    && (!s.skipCheck ==> && s.(failureStatuses := []) == o.(failureStatuses := [])
                         && multiset(s.failureStatuses) == multiset(o.failureStatuses))
  }

  /** As many entries, as many ports, and CPUs and memory within a thousandth. */
  ghost predicate SameUse(read: Reader, r: map<string, string>, o: map<string, string>) {
    && |r| == |o| && read(r).ports == read(o).ports
    && -0.001 <= read(r).cpus - read(o).cpus <= 0.001
    && -0.001 <= read(r).memory - read(o).memory <= 0.001
  }

  /** The same location, and versions of the same precedence; build metadata does not count. */
  ghost predicate SameSource(s: SourceID, o: SourceID) {
    s.location == o.location && s.version.core == o.version.core
  }

  /** What two deployments of equal identity without differences share. */
  ghost predicate Same(read: Reader, d: Deployment, o: Deployment) {
    && SameSource(d.sourceID, o.sourceID)
    && d.kind == o.kind && d.owners == o.owners
    && (d.kind == "scheduled" ==> d.config.schedule == o.config.schedule)
    && d.config.numInstances == o.config.numInstances
    && d.config.env == o.config.env && d.config.metadata == o.config.metadata
    && SameUse(read, d.config.resources, o.config.resources)
    && multiset(d.config.volumes) == multiset(o.config.volumes)
    && SameChecks(d.config.startup, o.config.startup)
  }

  /** What the source's own comparisons decide. */
  lemma SourceAndUse(read: Reader, s: SourceID, o: SourceID, a: map<string, string>, b: map<string, string>)
    ensures s.Equal(o) <==> SameSource(s, o)
    ensures SameResources(read, a, b) <==> SameUse(read, a, b)
  {}

  ghost predicate AnyDifference(read: Reader, d: Deployment, o: Deployment) {
    exists t :: Differs(read, d, o, t)
  }

  lemma NoChecksDiffer(s: Startup, o: Startup)
    ensures (forall f :: !ChecksDiffer(s, o, f)) <==> SameChecks(s, o)
  {
    if forall f :: !ChecksDiffer(s, o, f) {
      assert !ChecksDiffer(s, o, SkipCheck) && !ChecksDiffer(s, o, ConnectDelay)
             && !ChecksDiffer(s, o, ConnectInterval);
      assert !ChecksDiffer(s, o, Timeout) && !ChecksDiffer(s, o, Protocol) && !ChecksDiffer(s, o, PortIndex);
      assert !ChecksDiffer(s, o, FailureStatuses) && !ChecksDiffer(s, o, Interval) && !ChecksDiffer(s, o, Retries);
      assert !ChecksDiffer(s, o, UriPath) && !ChecksDiffer(s, o, UriTimeout);
    }
  }

  lemma NoOwnersDiffer(os: set<string>, o: set<string>)
    ensures (forall t :: !OwnersDiffer(os, o, t)) <==> os == o
  {
    if forall t :: !OwnersDiffer(os, o, t) {
      assert !OwnersDiffer(os, o, OwnerCount);
      forall name | name in os ensures name in o { assert !OwnersDiffer(os, o, Owner(name)); }
      SubsetOfSameSize(os, o);
    }
  }

  /** Deployments of one identity have no differences exactly when they are the same but for
      schedules that do not matter, the order of lists, build metadata and checks that are skipped. */
  lemma NoDifference(read: Reader, d: Deployment, o: Deployment)
    requires d.ID() == o.ID()
    ensures !AnyDifference(read, d, o) <==> Same(read, d, o)
  {
    NoChecksDiffer(d.config.startup, o.config.startup);
    NoOwnersDiffer(d.owners, o.owners);
    SourceAndUse(read, d.sourceID, o.sourceID, d.config.resources, o.config.resources);
    hide ChecksDiffer, SameChecks, SameResources, SameUse, SameSource;
    if Same(read, d, o) {
      forall t ensures !Differs(read, d, o, t) { }
    }
    if !AnyDifference(read, d, o) {
      assert !Differs(read, d, o, Source) && !Differs(read, d, o, Kind) && !Differs(read, d, o, Schedule);
      assert !Differs(read, d, o, NumInstances) && !Differs(read, d, o, EnvVars) && !Differs(read, d, o, Metadata);
      assert !Differs(read, d, o, Usage) && !Differs(read, d, o, VolumeList);
      forall f ensures !ChecksDiffer(d.config.startup, o.config.startup, f) {
        assert !Differs(read, d, o, Check(f));
      }
      forall t ensures !OwnersDiffer(d.owners, o.owners, t) {
        assert !Differs(read, d, o, t);
      }
    }
  }

  /** Whether there is a difference does not depend on the direction of the comparison, and
      nothing differs from itself. */
  lemma DifferenceSymmetric(read: Reader, d: Deployment, o: Deployment)
    requires d.ID() == o.ID()
    ensures AnyDifference(read, d, o) <==> AnyDifference(read, o, d)
    ensures !AnyDifference(read, d, d)
  {
    NoDifference(read, d, o);
    NoDifference(read, o, d);
    NoDifference(read, d, d);
  }

  /** Having no difference is not transitive, because resource use is compared with a tolerance:
      two steps without a difference make one exactly when neither tolerance is exceeded over
      both steps. */
  lemma TransitiveIffNear(read: Reader, a: Deployment, b: Deployment, c: Deployment)
    requires a.ID() == b.ID() == c.ID()
    requires !AnyDifference(read, a, b) && !AnyDifference(read, b, c)
    ensures !AnyDifference(read, a, c)
            <==> && Near(read(a.config.resources).cpus, read(c.config.resources).cpus)
                 && Near(read(a.config.resources).memory, read(c.config.resources).memory)
  {
    NoDifference(read, a, b);
    NoDifference(read, b, c);
    NoDifference(read, a, c);
  }

  function WithResources(d: Deployment, resources: map<string, string>): Deployment {
    d.(config := d.config.(resources := resources))
  }

  /** It happens, well within the tolerance at each step. */
  lemma DifferenceNotTransitive(read: Reader, d: Deployment, a: map<string, string>, b: map<string, string>,
                                c: map<string, string>)
    requires |a| == |b| == |c|
    requires read(a) == Parsed(1, 0.1, 100.0) && read(b) == Parsed(1, 0.1008, 100.0)
             && read(c) == Parsed(1, 0.1016, 100.0)
    ensures !AnyDifference(read, WithResources(d, a), WithResources(d, b))
    ensures !AnyDifference(read, WithResources(d, b), WithResources(d, c))
    ensures AnyDifference(read, WithResources(d, a), WithResources(d, c))
  {
    NoDifference(read, WithResources(d, a), WithResources(d, b));
    NoDifference(read, WithResources(d, b), WithResources(d, c));
    TransitiveIffNear(read, WithResources(d, a), WithResources(d, b), WithResources(d, c));
  }
}
