/** lib/map_state_to_deployments.go: expanding manifests into deployments, and putting
    deployments back into manifests. */
module ManifestMapping {
  import opened Types
  import opened StartupDefaults
  import opened DeployConfigs
  import opened OwnerSets
  import opened Families

  // ---------------------------------------------------------------- expansion

  function BuiltConfig(cluster: Cluster, c: DeployConfig): DeployConfig {
    c.(startup := MergeDefaults(cluster.startup, c.startup), env := cluster.env + c.env)
  }

  function Built(m: Manifest, nick: string, cluster: Cluster, spec: DeploySpec): Deployment {
    Deployment(BuiltConfig(cluster, spec.config), nick, Some(cluster),
               SourceID(m.source, spec.version), m.flavor, (set o | o in m.owners), m.kind)
  }

  function Configs(specs: seq<DeploySpec>): seq<DeployConfig> {
    seq(|specs|, i requires 0 <= i < |specs| => specs[i].config)
  }

  function Versions(specs: seq<DeploySpec>): seq<Version> {
    seq(|specs|, i requires 0 <= i < |specs| => specs[i].version)
  }

  const ZERO_VERSION := Version("", "")

  /** The configs overlaid, under the earliest version that is set. */
  function FlattenedSpecs(specs: seq<DeploySpec>): DeploySpec {
    DeploySpec(Flattened(Configs(specs)), FirstNonZero(ZERO_VERSION, Versions(specs)))
  }

  lemma FlattenedAlone(spec: DeploySpec)
    ensures FlattenedSpecs([spec]) == spec
  {
    assert Configs([spec]) == [spec.config] && Versions([spec]) == [spec.version];
    FlattenSingle(spec.config);
    FirstNonZeroSingle(ZERO_VERSION, spec.version);
  }

  /** What a spec sets itself wins over what it inherits, ... */
  lemma OwnValuesWin(spec: DeploySpec, inherit: seq<DeploySpec>)
    ensures var flat := FlattenedSpecs([spec] + inherit);
            && (spec.config.numInstances != 0 ==> flat.config.numInstances == spec.config.numInstances)
            && (spec.config.volumes != [] ==> flat.config.volumes == spec.config.volumes)
            && (spec.config.schedule != "" ==> flat.config.schedule == spec.config.schedule)
            && (spec.version != ZERO_VERSION ==> flat.version == spec.version)
            && Wins(spec.config.env, flat.config.env) && Wins(spec.config.resources, flat.config.resources)
            && Wins(spec.config.metadata, flat.config.metadata)
  {
    var dcs := Configs([spec] + inherit);
    assert dcs[0] == spec.config;
    FirstNonZeroAt(0, Instances(dcs), 0);
    FirstNonZeroAt([], VolumeLists(dcs), 0);
    FirstNonZeroAt("", Schedules(dcs), 0);
    FirstNonZeroAt(ZERO_VERSION, Versions([spec] + inherit), 0);
    hide FirstNonZero;
    FirstMapWins(Envs(dcs));
    FirstMapWins(Resources(dcs));
    FirstMapWins(Metadatas(dcs));
  }

  ghost predicate Wins(own: StringMap, all: StringMap) {
    forall k | k in own :: k in all && all[k] == own[k]
  }

  lemma FirstMapWins(ms: seq<StringMap>)
    requires ms != []
    ensures Wins(ms[0], FirstWins(ms))
  {
    forall k | k in ms[0] ensures k in FirstWins(ms) && FirstWins(ms)[k] == ms[0][k] {
      FirstWinsAt(ms, k, 0);
    }
  }

  /** ... except its startup checks, which it keeps exactly if it inherits from none or the last
      it inherits from has the same. */
  lemma OwnStartupKept(spec: DeploySpec, inherit: seq<DeploySpec>)
    ensures FlattenedSpecs([spec] + inherit).config.startup == spec.config.startup
            <==> inherit == [] || inherit[|inherit| - 1].config.startup == spec.config.startup
  {
    var dcs := Configs([spec] + inherit);
    assert dcs[|dcs| - 1] == if inherit == [] then spec.config else inherit[|inherit| - 1].config;
    hide FirstWins, FirstNonZero;
  }

  lemma OwnStartupLost(spec: DeploySpec) returns (inherit: seq<DeploySpec>)
    ensures FlattenedSpecs([spec] + inherit).config.startup != spec.config.startup
  {
    var other := spec.config.startup.(retries := spec.config.startup.retries + 1);
    inherit := [spec.(config := spec.config.(startup := other))];
    OwnStartupKept(spec, inherit);
  }

  method FlattenDeploySpecs(specs: seq<DeploySpec>) returns (ds: DeploySpec)
    ensures ds == FlattenedSpecs(specs)
  {
    var config := FlattenDeployConfigs(Configs(specs));
    var version := FirstSet(ZERO_VERSION, Versions(specs));
    ds := DeploySpec(config, version);
  }

  /** A deployment built from a spec and those it inherits from; the expansion passes none. */
  method BuildDeployment(m: Manifest, nick: string, cluster: Cluster, spec: DeploySpec, inherit: seq<DeploySpec>)
    returns (d: Deployment)
    ensures d == Built(m, nick, cluster, FlattenedSpecs([spec] + inherit))
    ensures inherit == [] ==> d == Built(m, nick, cluster, spec)
  {
    var owners := NewOwnerSet(m.owners);
    var ds := FlattenDeploySpecs([spec] + inherit);
    assert inherit == [] ==> [spec] + inherit == [spec];
    FlattenedAlone(spec);
    hide FlattenedSpecs, MergeDefaults;
    var startup := MergeDefaults(cluster.startup, ds.config.startup);
    var env := AddMissing(ds.config.env, cluster.env);
    d := Deployment(ds.config.(startup := startup, env := env), nick, Some(cluster),
                    SourceID(m.source, ds.version), m.flavor, owners, m.kind);
  }

  ghost predicate ManifestDefined(defs: Clusters, m: Manifest) {
    m.deployments.Keys <= defs.Keys
  }

  function ExpandedManifest(defs: Clusters, m: Manifest): Deployments
    requires ManifestDefined(defs, m)
  {
    map id | id in (set c | c in m.deployments :: DeploymentID(m.ID(), c)) ::
      Built(m, id.cluster, defs[id.cluster], m.deployments[id.cluster])
  }

  method DeploymentsFromManifest(defs: Clusters, m: Manifest) returns (r: Result<Deployments>)
    ensures r.Ok? <==> ManifestDefined(defs, m)
    ensures r.Ok? ==> r.value == ExpandedManifest(defs, m)
    ensures r.Err? ==> r.error.UndefinedCluster? && r.error.cluster in m.deployments.Keys - defs.Keys
  {
    var ds: Deployments := map[];
    var names := m.deployments.Keys;
    while names != {}
      invariant names <= m.deployments.Keys
      invariant m.deployments.Keys - names <= defs.Keys
      invariant ds.Keys == set c | c in m.deployments && c !in names :: DeploymentID(m.ID(), c)
      invariant forall id | id in ds :: ds[id] == Built(m, id.cluster, defs[id.cluster], m.deployments[id.cluster])
      decreases names
    {
      var clusterName :| clusterName in names;
      if clusterName !in defs {
        return Err(UndefinedCluster(clusterName));
      }
      var d := BuildDeployment(m, clusterName, defs[clusterName], m.deployments[clusterName], []);
      // Add stores a value only under a key that is still free
      if d.ID() !in ds {
        ds := ds[d.ID() := d];
      }
      names := names - {clusterName};
    }
    r := Ok(ds);
  }

  /** `Deployments.AddAll`: all entries or none. */
  method AddAll(into: Deployments, from: Deployments) returns (r: Deployments, conflict: Option<DeploymentID>)
    ensures conflict.None? <==> into.Keys !! from.Keys
    ensures r == if conflict.None? then into + from else into
    ensures conflict.Some? ==> conflict.value in into.Keys * from.Keys
  {
    r, conflict := into, None;
    var keys := from.Keys;
    while keys != {}
      invariant keys <= from.Keys && into.Keys !! (from.Keys - keys)
      decreases keys
    {
      var k :| k in keys;
      if k in into {
        conflict := Some(k);
        return;
      }
      keys := keys - {k};
    }
    keys := from.Keys;
    while keys != {}
      invariant keys <= from.Keys
      invariant r.Keys == into.Keys + (from.Keys - keys)
      invariant forall k | k in r :: r[k] == if k in from && k !in keys then from[k] else into[k]
      decreases keys
    {
      var k :| k in keys;
      r := r[k := from[k]];
      keys := keys - {k};
    }
  }

  ghost predicate AllDefined(defs: Clusters, ms: Manifests) {
    forall k | k in ms :: ManifestDefined(defs, ms[k])
  }

  /** The expansions of the manifests, one by one. */
  function Expansions(defs: Clusters, ms: Manifests): map<ManifestID, Deployments>
    requires AllDefined(defs, ms)
  {
    map k | k in ms :: ExpandedManifest(defs, ms[k])
  }

  method ManifestsDeployments(ms: Manifests, defs: Clusters) returns (r: Result<Deployments>)
    ensures r.Ok? <==> AllDefined(defs, ms) && PairwiseDisjoint(Expansions(defs, ms))
    ensures r.Ok? ==> IsUnion(Expansions(defs, ms), r.value)
  {
    hide ExpandedManifest, PairwiseDisjoint, Within, Covered, SubMap;
    var ds: Deployments := map[];
    var keys := ms.Keys;
    ghost var f: map<ManifestID, Deployments> := map[];
    EmptyUnion(f, ds);
    while keys != {}
      invariant keys <= ms.Keys && f.Keys == ms.Keys - keys
      invariant forall k | k in f :: ManifestDefined(defs, ms[k]) && f[k] == ExpandedManifest(defs, ms[k])
      invariant PairwiseDisjoint(f) && IsUnion(f, ds)
      decreases keys
    {
      var k :| k in keys;
      var deployments := DeploymentsFromManifest(defs, ms[k]);
      if deployments.Err? {
        return Err(deployments.error);
      }
      var added, conflict := AddAll(ds, deployments.value);
      DisjointWith(f, ds, k, deployments.value);
      if conflict.None? {
        WithinUnion(f, ds, k, deployments.value);
        CoveredUnion(f, ds, k, deployments.value);
      }
      f := f[k := deployments.value];
      if conflict.Some? {
        if AllDefined(defs, ms) {
          DisjointPart(Expansions(defs, ms), f);
        }
        return Err(ConflictingDeploys(conflict.value));
      }
      ds := added;
      keys := keys - {k};
    }
    assert AllDefined(defs, ms) && f == Expansions(defs, ms);
    r := Ok(ds);
  }

  function SpecIDs(ms: Manifests): set<DeploymentID> {
    set mid, c | mid in ms && c in ms[mid].deployments :: DeploymentID(mid, c)
  }

  /** The expansion of manifests that are keyed by their own IDs. */
  function Expanded(defs: Clusters, ms: Manifests): Deployments
    requires AllDefined(defs, ms)
  {
    map id | id in SpecIDs(ms) ::
      assert ManifestDefined(defs, ms[id.manifestID]);
      Built(ms[id.manifestID], id.cluster, defs[id.cluster], ms[id.manifestID].deployments[id.cluster])
  }

  predicate FilledIn<T(==)>(zero: T, value: T, default: T, result: T) {
    (value != zero ==> result == value) && (value == zero ==> result == default)
  }

  /** The startup checks a spec writes, with the cluster's in the place of those it does not. */
  predicate StartupFilledIn(value: Startup, default: Startup, result: Startup) {
    && FilledIn(false, value.skipCheck, default.skipCheck, result.skipCheck)
    && FilledIn(0, value.connectDelay, default.connectDelay, result.connectDelay)
    && FilledIn(0, value.timeout, default.timeout, result.timeout)
    && FilledIn(0, value.connectInterval, default.connectInterval, result.connectInterval)
    && FilledIn("", value.protocol, default.protocol, result.protocol)
    && FilledIn("", value.uriPath, default.uriPath, result.uriPath)
    && FilledIn(0, value.portIndex, default.portIndex, result.portIndex)
    && FilledIn([], value.failureStatuses, default.failureStatuses, result.failureStatuses)
    && FilledIn(0, value.uriTimeout, default.uriTimeout, result.uriTimeout)
    && FilledIn(0, value.interval, default.interval, result.interval)
    && FilledIn(0, value.retries, default.retries, result.retries)
  }

  /** `d` is the deployment of a manifest's spec on a cluster, field by field. */
  ghost predicate DeploymentOf(m: Manifest, name: string, cluster: Cluster, spec: DeploySpec, d: Deployment) {
    && d.clusterName == name && d.cluster == Some(cluster)
    && d.sourceID.location == m.source && d.sourceID.version == spec.version
    && d.flavor == m.flavor && d.kind == m.kind && (forall o :: o in d.owners <==> o in m.owners)
    && d.config.resources == spec.config.resources && d.config.metadata == spec.config.metadata
    && d.config.numInstances == spec.config.numInstances
    && d.config.volumes == spec.config.volumes && d.config.schedule == spec.config.schedule
    && (forall k :: k in d.config.env <==> k in spec.config.env || k in cluster.env)
    && (forall k | k in d.config.env ::
          d.config.env[k] == if k in spec.config.env then spec.config.env[k] else cluster.env[k])
    && StartupFilledIn(spec.config.startup, cluster.startup, d.config.startup)
  }

  lemma BuiltFields(m: Manifest, name: string, cluster: Cluster, spec: DeploySpec)
    ensures DeploymentOf(m, name, cluster, spec, Built(m, name, cluster, spec))
  {
    FilledFields(cluster.startup, spec.config.startup);
    hide MergeDefaults, StartupFilledIn;
  }

  lemma FilledFields(s: Startup, base: Startup)
    ensures StartupFilledIn(base, s, MergeDefaults(s, base))
  {}

  /** The expansion has one deployment for each spec of a manifest, and what that is. */
  ghost predicate Expands(defs: Clusters, ms: Manifests, ds: Deployments) {
    && (forall id :: id in ds <==> id.manifestID in ms && id.cluster in ms[id.manifestID].deployments)
    && (forall id | id in ds ::
          && id.cluster in defs
          && DeploymentOf(ms[id.manifestID], id.cluster, defs[id.cluster],
                          ms[id.manifestID].deployments[id.cluster], ds[id]))
  }

  lemma ExpandedExpands(defs: Clusters, ms: Manifests)
    requires AllDefined(defs, ms)
    ensures Expands(defs, ms, Expanded(defs, ms))
  {
    hide Built, DeploymentOf;
    forall id | id in Expanded(defs, ms)
      ensures id.cluster in defs
      ensures DeploymentOf(ms[id.manifestID], id.cluster, defs[id.cluster],
                           ms[id.manifestID].deployments[id.cluster], Expanded(defs, ms)[id])
    {
      assert ManifestDefined(defs, ms[id.manifestID]);
      BuiltFields(ms[id.manifestID], id.cluster, defs[id.cluster], ms[id.manifestID].deployments[id.cluster]);
    }
  }

  lemma ExpandedFromManifest(defs: Clusters, ms: Manifests, mid: ManifestID)
    requires KeyedManifests(ms) && AllDefined(defs, ms) && mid in ms
    ensures SubMap(ExpandedManifest(defs, ms[mid]), Expanded(defs, ms))
  {
    hide Built;
  }

  lemma KeyedExpansionUnion(defs: Clusters, ms: Manifests)
    requires KeyedManifests(ms) && AllDefined(defs, ms)
    ensures IsUnion(Expansions(defs, ms), Expanded(defs, ms))
  {
    var f, e := Expansions(defs, ms), Expanded(defs, ms);
    forall k | k in f ensures SubMap(f[k], e) {
      ExpandedFromManifest(defs, ms, k);
    }
    forall id | id in e ensures InMember(f, id, id.manifestID) {
      hide Built;
    }
  }

  /** Keyed manifests never conflict, and they have exactly one expansion. */
  lemma KeyedExpansion(defs: Clusters, ms: Manifests, ds: Deployments)
    requires KeyedManifests(ms) && AllDefined(defs, ms)
    ensures PairwiseDisjoint(Expansions(defs, ms))
    ensures IsUnion(Expansions(defs, ms), ds) <==> ds == Expanded(defs, ms)
    ensures KeyedDeployments(Expanded(defs, ms))
  {
    var f, e := Expansions(defs, ms), Expanded(defs, ms);
    KeyedExpansionUnion(defs, ms);
    if IsUnion(f, ds) {
      hide *;
      UnionUnique(f, ds, e);
    }
  }

  // ---------------------------------------------------------------- putting back

  /** The spec the old manifests hold for a deployment, if any. */
  function OldSpec(olds: Manifests, id: DeploymentID): Option<DeploySpec> {
    if id.manifestID in olds && id.cluster in olds[id.manifestID].deployments
    then Some(olds[id.manifestID].deployments[id.cluster])
    else None
  }

  /** A deployment written back as a spec, stripped of the defaults the old spec left out. */
  function PutSpec(cluster: Cluster, d: Deployment, was: Option<DeploySpec>): DeploySpec {
    var oldStartup := if was.Some? then was.value.config.startup else ZERO_STARTUP;
    var oldEnv := if was.Some? then Some(was.value.config.env) else None;
    DeploySpec(
      d.config.(startup := UnmergeDefaults(cluster.startup, d.config.startup, oldStartup),
                env := StrippedEnv(cluster.env, d.config.env, oldEnv)),
      d.sourceID.version)
  }

  ghost predicate ClusterKnown(defs: Clusters, d: Deployment) {
    d.clusterName != "" && (d.cluster.Some? || d.clusterName in defs)
  }

  ghost predicate AllKnown(defs: Clusters, ds: Deployments) {
    forall id | id in ds :: ClusterKnown(defs, ds[id])
  }

  /** The cluster on the deployment takes precedence over the definitions. */
  function ClusterFor(defs: Clusters, d: Deployment): Cluster
    requires ClusterKnown(defs, d)
  {
    if d.cluster.Some? then d.cluster.value else defs[d.clusterName]
  }

  function SpecFor(defs: Clusters, olds: Manifests, d: Deployment): DeploySpec
    requires ClusterKnown(defs, d)
  {
    PutSpec(ClusterFor(defs, d), d, OldSpec(olds, d.ID()))
  }

  /** The manifest a deployment is put into: the first visited decides the owners... */
  ghost function Opened(ms: Manifests, d: Deployment): Manifest {
    if d.ManifestId() in ms then ms[d.ManifestId()]
    else Manifest(d.sourceID.location, d.flavor, Listing(d.owners), "", map[])
  }

  /** ... and the last visited decides the kind. */
  ghost function PutOne(ms: Manifests, d: Deployment, spec: DeploySpec): Manifests {
    var m := Opened(ms, d);
    ms[d.ManifestId() := m.(deployments := m.deployments[d.clusterName := spec], kind := d.kind)]
  }

  /** Putting deployments back one after the other, in the order the map loop visits them. */
  ghost function PutInOrder(ds: Deployments, order: seq<DeploymentID>, defs: Clusters, olds: Manifests): Manifests
    requires (forall id | id in order :: id in ds) && AllKnown(defs, ds)
  {
    if order == [] then map[]
    else
      var n := |order| - 1;
      assert order[n] in order;
      PutOne(PutInOrder(ds, order[..n], defs, olds), ds[order[n]], SpecFor(defs, olds, ds[order[n]]))
  }

  /** `order` visits every deployment once. */
  ghost predicate Visits<I(!new)>(order: seq<I>, ids: set<I>) {
    && (forall i, j | 0 <= i < j < |order| :: order[i] != order[j])
    && (forall id :: id in ids <==> id in order)
  }

  /** `ms` is what putting `ds` back can yield for some order of the map loop. */
  ghost predicate PutBack(ds: Deployments, defs: Clusters, olds: Manifests, ms: Manifests) {
    && AllKnown(defs, ds)
    && exists order :: Visits(order, ds.Keys) && ms == PutInOrder(ds, order, defs, olds)
  }

  lemma PutInOrderSnoc(ds: Deployments, order: seq<DeploymentID>, k: DeploymentID, defs: Clusters, olds: Manifests)
    requires (forall id | id in order + [k] :: id in ds) && AllKnown(defs, ds)
    ensures forall id | id in order :: id in ds
    ensures k in ds && PutInOrder(ds, order + [k], defs, olds)
            == PutOne(PutInOrder(ds, order, defs, olds), ds[k], SpecFor(defs, olds, ds[k]))
  {
    hide PutOne, SpecFor;
    assert k == (order + [k])[|order|];
    assert (order + [k])[..|order|] == order;
    forall id | id in order ensures id in ds { assert id in order + [k]; }
  }

  lemma {:induction false} PutInOrderFrame(ds: Deployments, es: Deployments, order: seq<DeploymentID>, defs: Clusters,
                                           olds: Manifests)
    requires (forall id | id in order :: id in ds && id in es && ds[id] == es[id])
             && AllKnown(defs, ds) && AllKnown(defs, es)
    ensures PutInOrder(ds, order, defs, olds) == PutInOrder(es, order, defs, olds)
  {
    hide PutOne, SpecFor;
    if order != [] {
      assert order[|order| - 1] in order;
      PutInOrderFrame(ds, es, order[..|order| - 1], defs, olds);
    }
  }

  /** One round of the loop: the manifest is looked up or opened, and the spec is set on it. */
  method PutDeployment(defs: Clusters, olds: Manifests, ms: Manifests, d: Deployment) returns (ms': Manifests)
    requires ClusterKnown(defs, d)
    ensures ms' == PutOne(ms, d, SpecFor(defs, olds, d))
  {
    var cluster := if d.cluster.Some? then d.cluster.value else defs[d.clusterName];
    var mid := d.ManifestId();
    var oldSpec := None;
    if mid in olds && d.clusterName in olds[mid].deployments {
      oldSpec := Some(olds[mid].deployments[d.clusterName]);
    }
    var m;
    if mid in ms {
      m := ms[mid];
    } else {
      var owners := Slice(d.owners);
      ListingIs(owners, d.owners);
      m := Manifest(mid.source, mid.flavor, owners, "", map[]);
    }
    var oldStartup := if oldSpec.Some? then oldSpec.value.config.startup else ZERO_STARTUP;
    var oldEnv := if oldSpec.Some? then Some(oldSpec.value.config.env) else None;
    var startup := UnmergeDefaults(cluster.startup, d.config.startup, oldStartup);
    var env := StripEnv(cluster.env, d.config.env, oldEnv);
    var spec := DeploySpec(d.config.(startup := startup, env := env), d.sourceID.version);
    ms' := ms[mid := m.(deployments := m.deployments[d.clusterName := spec], kind := d.kind)];
  }

  /** The deployments outside `keys` have been put back, in some order. */
  ghost predicate PutSoFar(ds: Deployments, keys: set<DeploymentID>, order: seq<DeploymentID>, defs: Clusters,
                           olds: Manifests, ms: Manifests) {
    && Visits(order, ds.Keys - keys)
    && AllKnown(defs, ds - keys)
    && ms == PutInOrder(ds - keys, order, defs, olds)
  }

  lemma PutNothing(ds: Deployments, defs: Clusters, olds: Manifests)
    ensures PutSoFar(ds, ds.Keys, [], defs, olds, map[])
  {}

  lemma PutNext(ds: Deployments, keys: set<DeploymentID>, order: seq<DeploymentID>, defs: Clusters, olds: Manifests,
                ms: Manifests, k: DeploymentID)
    requires PutSoFar(ds, keys, order, defs, olds, ms) && k in keys && k in ds && ClusterKnown(defs, ds[k])
    ensures PutSoFar(ds, keys - {k}, order + [k], defs, olds, PutOne(ms, ds[k], SpecFor(defs, olds, ds[k])))
  {
    hide PutOne, SpecFor, PutInOrder;
    var more := ds - (keys - {k});
    PutInOrderFrame(ds - keys, more, order, defs, olds);
    PutInOrderSnoc(more, order, k, defs, olds);
  }

  lemma PutAll(ds: Deployments, order: seq<DeploymentID>, defs: Clusters, olds: Manifests, ms: Manifests)
    requires PutSoFar(ds, {}, order, defs, olds, ms)
    ensures PutBack(ds, defs, olds, ms)
  {
    assert ds - {} == ds;
  }

  method PutbackManifests(ds: Deployments, defs: Clusters, olds: Manifests) returns (r: Result<Manifests>)
    ensures r.Ok? <==> AllKnown(defs, ds)
    ensures r.Ok? <==> forall id | id in ds :: ds[id].clusterName != ""
                         && (ds[id].cluster.Some? || ds[id].clusterName in defs)
    ensures r.Ok? ==> PutBack(ds, defs, olds, r.value)
    ensures r.Err? ==> r.error == NoClusterName || (r.error.UndefinedCluster? && r.error.cluster !in defs)
  {
    var ms: Manifests := map[];
    ghost var order: seq<DeploymentID> := [];
    PutNothing(ds, defs, olds);
    var keys := ds.Keys;
    while keys != {}
      invariant keys <= ds.Keys && PutSoFar(ds, keys, order, defs, olds, ms)
      decreases keys
    {
      hide PutOne, SpecFor, PutSoFar;
      var k :| k in keys;
      if ds[k].clusterName == "" {
        return Err(NoClusterName);
      }
      if ds[k].cluster == None && ds[k].clusterName !in defs {
        return Err(UndefinedCluster(ds[k].clusterName));
      }
      PutNext(ds, keys, order, defs, olds, ms, k);
      ms := PutDeployment(defs, olds, ms, ds[k]);
      order := order + [k];
      keys := keys - {k};
    }
    PutAll(ds, order, defs, olds, ms);
    r := Ok(ms);
  }
}
