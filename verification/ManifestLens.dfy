/** The two-way mapping between manifests and deployments: exactly when expanding and
    putting back undo each other. */
module ManifestLens {
  import opened Ordering
  import opened Types
  import opened StartupDefaults
  import opened DeployConfigs
  import opened OwnerSets
  import opened ManifestMapping

  // ---------------------------------------------------------------- one spec

  /** Putting back the deployment built from a spec, against that spec, gives the spec
      exactly, also where it redundantly repeats the cluster's defaults. */
  lemma SpecGetPut(m: Manifest, nick: string, cluster: Cluster, spec: DeploySpec)
    ensures PutSpec(cluster, Built(m, nick, cluster, spec), Some(spec)) == spec
  {
    hide MergeDefaults, UnmergeDefaults;
    StartupGetPut(cluster.startup, spec.config.startup);
    EnvGetPut(cluster.env, spec.config.env);
  }

  /** Equality of deployments up to the order of failure statuses and the cluster reference. */
  ghost predicate SameDeployment(a: Deployment, b: Deployment) {
    && a.(cluster := None, config := a.config.(startup := ZERO_STARTUP))
       == b.(cluster := None, config := b.config.(startup := ZERO_STARTUP))
    && SameStartup(a.config.startup, b.config.startup)
  }

  /** The deployment sets everything its cluster has a default for. */
  predicate Carries(cluster: Cluster, d: Deployment) {
    cluster.env.Keys <= d.config.env.Keys && CarriesStartup(cluster.startup, d.config.startup)
  }

  lemma BuiltCarries(m: Manifest, nick: string, cluster: Cluster, spec: DeploySpec)
    ensures Carries(cluster, Built(m, nick, cluster, spec))
  {
    hide MergeDefaults;
    MergedCarries(cluster.startup, spec.config.startup);
  }

  function OldStartup(was: Option<DeploySpec>): Startup {
    if was.Some? then was.value.config.startup else ZERO_STARTUP
  }

  function OldEnv(was: Option<DeploySpec>): Option<StringMap> {
    if was.Some? then Some(was.value.config.env) else None
  }

  /** What the deployment's own cluster strips from it, the defined one fills in again. */
  ghost predicate StripsAlike(own: Cluster, cluster: Cluster, d: Deployment, was: Option<DeploySpec>) {
    && StartupStripsAlike(own.startup, cluster.startup, d.config.startup, OldStartup(was))
    && EnvStripsAlike(own.env, cluster.env, d.config.env, OldEnv(was))
  }

  /** Clusters with the same defaults strip alike, whatever the deployment. */
  lemma SameDefaultsStripAlike(own: Cluster, cluster: Cluster, d: Deployment, was: Option<DeploySpec>)
    requires own.env == cluster.env && SameStartup(own.startup, cluster.startup)
    ensures StripsAlike(own, cluster, d, was)
  {
    EqualDefaultsStripAlike(own.startup, cluster.startup, d.config.startup, OldStartup(was));
    hide StartupStripsAlike;
  }

  /** Building on one cluster from a spec that another has stripped: what survives and what
      decides it. */
  lemma SpecPutGet(m: Manifest, own: Cluster, cluster: Cluster, d: Deployment, was: Option<DeploySpec>)
    requires m.ID() == d.ManifestId()
    ensures SameDeployment(Built(m, d.clusterName, cluster, PutSpec(own, d, was)), d)
            <==> Carries(cluster, d) && StripsAlike(own, cluster, d, was)
                 && (set o | o in m.owners) == d.owners && m.kind == d.kind
  {
    hide MergeDefaults, UnmergeDefaults, SameStartup, CarriesStartup, StartupStripsAlike, StrippedEnv, EnvStripsAlike;
    StartupPutGet(own.startup, cluster.startup, d.config.startup, OldStartup(was));
    EnvPutGet(own.env, cluster.env, d.config.env, OldEnv(was));
  }

  // ---------------------------------------------------------------- the outcome of putting back

  ghost predicate HasSpec(ms: Manifests, id: DeploymentID) {
    id.manifestID in ms && id.cluster in ms[id.manifestID].deployments
  }

  function SpecAt(ms: Manifests, id: DeploymentID): DeploySpec
    requires HasSpec(ms, id)
  {
    ms[id.manifestID].deployments[id.cluster]
  }

  ghost predicate SpecsPut(defs: Clusters, olds: Manifests, ds: Deployments, done: set<DeploymentID>, ms: Manifests)
    requires AllKnown(defs, ds) && done <= ds.Keys
  {
    && (forall id :: HasSpec(ms, id) <==> id in done)
    && (forall id | id in done :: HasSpec(ms, id) && SpecAt(ms, id) == SpecFor(defs, olds, ds[id]))
  }

  ghost predicate OwnersAndKindFrom(ds: Deployments, done: set<DeploymentID>, mid: ManifestID, m: Manifest)
    requires done <= ds.Keys
  {
    && (exists id :: id in done && id.manifestID == mid && m.owners == Listing(ds[id].owners))
    && (exists id :: id in done && id.manifestID == mid && m.kind == ds[id].kind)
  }

  ghost predicate ManifestsPut(ds: Deployments, done: set<DeploymentID>, ms: Manifests)
    requires done <= ds.Keys
  {
    forall mid | mid in ms :: ms[mid].ID() == mid && OwnersAndKindFrom(ds, done, mid, ms[mid])
  }

  lemma SpecsPutOne(defs: Clusters, olds: Manifests, ds: Deployments, done: set<DeploymentID>, ms: Manifests,
                    k: DeploymentID)
    requires AllKnown(defs, ds) && KeyedDeployments(ds) && done <= ds.Keys && k in ds && k !in done
    requires SpecsPut(defs, olds, ds, done, ms)
    ensures SpecsPut(defs, olds, ds, done + {k}, PutOne(ms, ds[k], SpecFor(defs, olds, ds[k])))
  {
    hide SpecFor;
    var ms' := PutOne(ms, ds[k], SpecFor(defs, olds, ds[k]));
    assert ds[k].ManifestId() == k.manifestID && ds[k].clusterName == k.cluster;
    forall id ensures HasSpec(ms', id) <==> HasSpec(ms, id) || id == k {}
    forall id | id in done ensures HasSpec(ms', id) && SpecAt(ms', id) == SpecAt(ms, id) {
      assert HasSpec(ms, id) && id != k;
    }
  }

  lemma ManifestsPutOne(ds: Deployments, done: set<DeploymentID>, ms: Manifests, k: DeploymentID, spec: DeploySpec)
    requires KeyedDeployments(ds) && done <= ds.Keys && k in ds
    requires ManifestsPut(ds, done, ms)
    ensures ManifestsPut(ds, done + {k}, PutOne(ms, ds[k], spec))
  {
    var ms', done' := PutOne(ms, ds[k], spec), done + {k};
    assert ds[k].ManifestId() == k.manifestID;
    forall mid | mid in ms && mid != k.manifestID ensures OwnersAndKindFrom(ds, done', mid, ms[mid]) {
      var i :| i in done && i.manifestID == mid && ms[mid].owners == Listing(ds[i].owners);
      var j :| j in done && j.manifestID == mid && ms[mid].kind == ds[j].kind;
      assert i in done' && j in done';
    }
    assert OwnersAndKindFrom(ds, done', k.manifestID, ms'[k.manifestID]) by {
      assert k in done';
      if k.manifestID in ms {
        var i :| i in done && i.manifestID == k.manifestID && ms[k.manifestID].owners == Listing(ds[i].owners);
        assert i in done';
      }
    }
  }

  lemma {:induction false} PutInOrderOutcome(ds: Deployments, order: seq<DeploymentID>, defs: Clusters, olds: Manifests)
    requires KeyedDeployments(ds) && AllKnown(defs, ds)
    requires forall id | id in order :: id in ds
    requires forall i, j | 0 <= i < j < |order| :: order[i] != order[j]
    ensures (set id | id in order) <= ds.Keys
    ensures SpecsPut(defs, olds, ds, (set id | id in order), PutInOrder(ds, order, defs, olds))
    ensures ManifestsPut(ds, (set id | id in order), PutInOrder(ds, order, defs, olds))
  {
    hide SpecsPut, ManifestsPut, PutOne, SpecFor;
    if order == [] {
      assert (set id | id in order) == {};
      EmptyOutcome(defs, olds, ds);
    } else {
      var n := |order| - 1;
      var before, k := order[..n], order[n];
      assert k in order;
      PutInOrderOutcome(ds, before, defs, olds);
      var done := set id | id in before;
      assert (set id | id in order) == done + {k};
      var ms := PutInOrder(ds, before, defs, olds);
      SpecsPutOne(defs, olds, ds, done, ms, k);
      ManifestsPutOne(ds, done, ms, k, SpecFor(defs, olds, ds[k]));
    }
  }

  lemma EmptyOutcome(defs: Clusters, olds: Manifests, ds: Deployments)
    requires AllKnown(defs, ds)
    ensures SpecsPut(defs, olds, ds, {}, map[]) && ManifestsPut(ds, {}, map[])
  {}

  /** Whatever the order of the map loop: exactly one spec per deployment, each computed from
      that deployment and its own old spec alone, under manifests keyed by their IDs. */
  lemma PutBackOutcome(ds: Deployments, defs: Clusters, olds: Manifests, ms: Manifests)
    requires KeyedDeployments(ds) && PutBack(ds, defs, olds, ms)
    ensures SpecsPut(defs, olds, ds, ds.Keys, ms) && ManifestsPut(ds, ds.Keys, ms)
    ensures KeyedManifests(ms)
  {
    hide SpecsPut, PutInOrder;
    var order :| Visits(order, ds.Keys) && ms == PutInOrder(ds, order, defs, olds);
    PutInOrderOutcome(ds, order, defs, olds);
    assert ds.Keys == set id | id in order;
  }

  // ---------------------------------------------------------------- get-put

  /** What `Manifests.Deployments` and `PutbackManifests` both demand of the manifests. */
  ghost predicate Expandable(defs: Clusters, ms: Manifests) {
    KeyedManifests(ms) && AllDefined(defs, ms) && forall id :: HasSpec(ms, id) ==> id.cluster != ""
  }

  /** The manifest has a deployment, and lists its owners alphabetically and once each. */
  ghost predicate Canonical(m: Manifest) {
    m.deployments != map[] && IsSlice(m.owners, set o | o in m.owners)
  }

  lemma ExpandedFacts(defs: Clusters, ms: Manifests)
    requires Expandable(defs, ms)
    ensures KeyedDeployments(Expanded(defs, ms)) && AllKnown(defs, Expanded(defs, ms))
    ensures forall id :: id in Expanded(defs, ms) <==> HasSpec(ms, id)
    ensures forall id | HasSpec(ms, id) :: var e := Expanded(defs, ms)[id];
              id.cluster in defs && e == Built(ms[id.manifestID], id.cluster, defs[id.cluster], SpecAt(ms, id))
  {
    hide MergeDefaults;
    assert forall id :: id in SpecIDs(ms) <==> HasSpec(ms, id);
    forall id | HasSpec(ms, id) ensures id.cluster in defs {
      assert ManifestDefined(defs, ms[id.manifestID]);
    }
  }

  /** A spec that was expanded and is put back against itself is unchanged. */
  lemma ExpandedSpecPut(defs: Clusters, ms: Manifests, id: DeploymentID)
    requires Expandable(defs, ms) && HasSpec(ms, id)
    ensures AllKnown(defs, Expanded(defs, ms)) && id in Expanded(defs, ms)
    ensures SpecFor(defs, ms, Expanded(defs, ms)[id]) == SpecAt(ms, id)
  {
    hide BuiltConfig, PutSpec;
    ExpandedFacts(defs, ms);
    SpecGetPut(ms[id.manifestID], id.cluster, defs[id.cluster], SpecAt(ms, id));
  }

  /** The specs of a manifest survive the round trip... */
  lemma GetPutSpecs(defs: Clusters, ms: Manifests, out: Manifests, mid: ManifestID)
    requires Expandable(defs, ms) && PutBack(Expanded(defs, ms), defs, ms, out)
    ensures forall c :: HasSpec(out, DeploymentID(mid, c)) <==> HasSpec(ms, DeploymentID(mid, c))
    ensures mid in out && mid in ms ==> out[mid].deployments == ms[mid].deployments
  {
    hide Expanded, Built, PutBack, SpecFor;
    ExpandedFacts(defs, ms);
    PutBackOutcome(Expanded(defs, ms), defs, ms, out);
    forall c | HasSpec(ms, DeploymentID(mid, c))
      ensures HasSpec(out, DeploymentID(mid, c))
              && SpecAt(out, DeploymentID(mid, c)) == SpecAt(ms, DeploymentID(mid, c))
    {
      ExpandedSpecPut(defs, ms, DeploymentID(mid, c));
    }
    if mid in out && mid in ms {
      forall c ensures c in out[mid].deployments <==> c in ms[mid].deployments {
        assert HasSpec(out, DeploymentID(mid, c)) <==> HasSpec(ms, DeploymentID(mid, c));
      }
      forall c | c in ms[mid].deployments ensures out[mid].deployments[c] == ms[mid].deployments[c] {
        assert HasSpec(ms, DeploymentID(mid, c));
      }
    }
  }

  /** ... and what else a manifest says comes back except that its owners are listed anew. */
  lemma GetPutManifest(defs: Clusters, ms: Manifests, out: Manifests, mid: ManifestID)
    requires Expandable(defs, ms) && PutBack(Expanded(defs, ms), defs, ms, out)
    ensures mid in out <==> mid in ms && ms[mid].deployments != map[]
    ensures mid in out ==> out[mid] == ms[mid].(owners := Listing(set o | o in ms[mid].owners))
  {
    hide Expanded, BuiltConfig, PutBack, SpecsPut;
    var ds := Expanded(defs, ms);
    ExpandedFacts(defs, ms);
    PutBackOutcome(ds, defs, ms, out);
    GetPutSpecs(defs, ms, out, mid);
    if mid in ms && ms[mid].deployments != map[] {
      var c :| c in ms[mid].deployments;
      assert HasSpec(ms, DeploymentID(mid, c));
      assert HasSpec(out, DeploymentID(mid, c));
    }
    if mid in out {
      var i :| i in ds && i.manifestID == mid && out[mid].owners == Listing(ds[i].owners);
      var j :| j in ds && j.manifestID == mid && out[mid].kind == ds[j].kind;
      assert HasSpec(ms, i) && HasSpec(ms, j);
      assert ms[mid].deployments != map[];
      assert out[mid].ID() == ms[mid].ID() == mid;
    }
  }

  /** get-put: for keyed manifests over defined clusters, putting the expansion back against
      the same manifests returns exactly those manifests if and only if each has a deployment
      and an alphabetical, duplicate-free owner list. */
  lemma GetPut(defs: Clusters, ms: Manifests, out: Manifests)
    requires Expandable(defs, ms) && PutBack(Expanded(defs, ms), defs, ms, out)
    ensures out == ms <==> forall mid | mid in ms :: Canonical(ms[mid])
  {
    hide PutBack, Expanded;
    forall mid ensures mid in out <==> mid in ms && ms[mid].deployments != map[] {
      GetPutManifest(defs, ms, out, mid);
    }
    forall mid | mid in out
      ensures out[mid] == ms[mid] <==> IsSlice(ms[mid].owners, set o | o in ms[mid].owners)
    {
      GetPutManifest(defs, ms, out, mid);
      if IsSlice(ms[mid].owners, set o | o in ms[mid].owners) {
        ListingIs(ms[mid].owners, set o | o in ms[mid].owners);
      }
    }
  }

  /** A manifest without deployments does not come back. */
  lemma EmptyManifestDropped(defs: Clusters, m: Manifest)
    requires m.deployments == map[]
    ensures var ms := map[m.ID() := m];
            && Expandable(defs, ms)
            && PutBack(Expanded(defs, ms), defs, ms, map[]) && map[] != ms
  {
    var ms := map[m.ID() := m];
    assert m.ID() in ms && forall id :: !HasSpec(ms, id);
    hide PutBack, Expanded;
    NothingExpanded(defs, ms);
    NothingPutBack(defs, ms);
  }

  lemma NothingExpanded(defs: Clusters, ms: Manifests)
    requires Expandable(defs, ms) && forall id :: !HasSpec(ms, id)
    ensures Expanded(defs, ms) == map[]
  {
    hide Expanded, Built;
    ExpandedFacts(defs, ms);
  }

  lemma NothingPutBack(defs: Clusters, olds: Manifests)
    ensures PutBack(map[], defs, olds, map[])
  {
    var none: Deployments := map[];
    assert Visits([], none.Keys) && PutInOrder(none, [], defs, olds) == map[];
  }

  // ---------------------------------------------------------------- put-get

  /** Each deployment names a defined cluster. The one it carries itself may be another. */
  ghost predicate Placed(defs: Clusters, ds: Deployments) {
    forall id | id in ds :: ds[id].clusterName != "" && ds[id].clusterName in defs
  }

  /** Each deployment is stripped by its own cluster as the defined one would have done. */
  ghost predicate AllStripAlike(defs: Clusters, ds: Deployments, olds: Manifests)
    requires Placed(defs, ds)
  {
    forall id | id in ds ::
      StripsAlike(ClusterFor(defs, ds[id]), defs[ds[id].clusterName], ds[id], OldSpec(olds, id))
  }

  ghost predicate AllCarry(defs: Clusters, ds: Deployments)
    requires Placed(defs, ds)
  {
    forall id | id in ds :: Carries(defs[ds[id].clusterName], ds[id])
  }

  /** Deployments of one manifest have the same owners and kind. */
  ghost predicate Agree(ds: Deployments) {
    forall i, j | i in ds && j in ds && i.manifestID == j.manifestID ::
      ds[i].owners == ds[j].owners && ds[i].kind == ds[j].kind
  }

  ghost predicate SameDeployments(a: Deployments, b: Deployments) {
    a.Keys == b.Keys && forall id | id in a :: SameDeployment(a[id], b[id])
  }

  /** What was put back can be expanded exactly if every deployment names a defined cluster. */
  lemma PutExpandable(defs: Clusters, ds: Deployments, olds: Manifests, ms: Manifests)
    requires KeyedDeployments(ds) && PutBack(ds, defs, olds, ms)
    ensures Expandable(defs, ms) <==> Placed(defs, ds)
  {
    hide SpecFor;
    assert AllKnown(defs, ds);
    PutBackOutcome(ds, defs, olds, ms);
    hide PutBack;
    if Placed(defs, ds) {
      forall mid, c | mid in ms && c in ms[mid].deployments ensures c in defs {
        assert HasSpec(ms, DeploymentID(mid, c));
        assert DeploymentID(mid, c) in ds;
      }
      forall id | HasSpec(ms, id) ensures id.cluster != "" { assert id in ds; }
    }
    if Expandable(defs, ms) {
      forall id | id in ds ensures ds[id].clusterName != "" && ds[id].clusterName in defs {
        assert HasSpec(ms, id) && ds[id].clusterName == id.cluster;
        assert ManifestDefined(defs, ms[id.manifestID]);
      }
    }
  }

  /** The manifest of a deployment lists its owners and names its kind. */
  ghost predicate OwnersAndKindKept(ds: Deployments, ms: Manifests, id: DeploymentID)
    requires id in ds
  {
    && id.manifestID in ms
    && (set o | o in ms[id.manifestID].owners) == ds[id].owners
    && ms[id.manifestID].kind == ds[id].kind
  }

  lemma PutGetAt(defs: Clusters, ds: Deployments, olds: Manifests, ms: Manifests, id: DeploymentID)
    requires KeyedDeployments(ds) && Placed(defs, ds) && PutBack(ds, defs, olds, ms)
    requires Expandable(defs, ms) && id in ds
    ensures id in Expanded(defs, ms)
    ensures SameDeployment(Expanded(defs, ms)[id], ds[id])
            <==> && Carries(defs[ds[id].clusterName], ds[id])
                 && StripsAlike(ClusterFor(defs, ds[id]), defs[ds[id].clusterName], ds[id], OldSpec(olds, id))
                 && OwnersAndKindKept(ds, ms, id)
  {
    var d := ds[id];
    assert d.ID() == id && id.cluster == d.clusterName;
    hide PutBack, Expanded, BuiltConfig, PutSpec, SameDeployment, Carries, StripsAlike, ManifestsPut, ClusterFor;
    PutBackOutcome(ds, defs, olds, ms);
    assert HasSpec(ms, id);
    ExpandedFacts(defs, ms);
    assert SpecAt(ms, id) == PutSpec(ClusterFor(defs, d), d, OldSpec(olds, id));
    assert ms[id.manifestID].ID() == id.manifestID;
    hide KeyedDeployments, Placed, SpecsPut, Expandable;
    SpecPutGet(ms[id.manifestID], ClusterFor(defs, d), defs[id.cluster], d, OldSpec(olds, id));
  }

  lemma PutKeys(defs: Clusters, ds: Deployments, olds: Manifests, ms: Manifests)
    requires KeyedDeployments(ds) && Placed(defs, ds) && PutBack(ds, defs, olds, ms) && Expandable(defs, ms)
    ensures Expanded(defs, ms).Keys == ds.Keys
    ensures ManifestsPut(ds, ds.Keys, ms) && forall id | id in ds :: id.manifestID in ms
  {
    hide PutBack, Expanded, SpecFor, Built, ManifestsPut;
    PutBackOutcome(ds, defs, olds, ms);
    ExpandedFacts(defs, ms);
    forall id | id in ds ensures id.manifestID in ms { assert HasSpec(ms, id); }
  }

  /** Owners and kinds survive exactly when the deployments of each manifest agree on them. */
  lemma AgreeIffKept(ds: Deployments, ms: Manifests)
    requires ManifestsPut(ds, ds.Keys, ms) && forall id | id in ds :: id.manifestID in ms
    ensures Agree(ds) <==> forall id | id in ds :: OwnersAndKindKept(ds, ms, id)
  {
    if Agree(ds) {
      forall id | id in ds ensures OwnersAndKindKept(ds, ms, id) {
        AgreedManifest(ds, ms, id);
      }
    } else {
      var i, j :| i in ds && j in ds && i.manifestID == j.manifestID
                  && !(ds[i].owners == ds[j].owners && ds[i].kind == ds[j].kind);
      assert !OwnersAndKindKept(ds, ms, i) || !OwnersAndKindKept(ds, ms, j);
    }
  }

  /** What decides whether one deployment survives. */
  ghost predicate Survives(defs: Clusters, ds: Deployments, olds: Manifests, ms: Manifests, id: DeploymentID)
    requires Placed(defs, ds) && id in ds
  {
    && Carries(defs[ds[id].clusterName], ds[id])
    && StripsAlike(ClusterFor(defs, ds[id]), defs[ds[id].clusterName], ds[id], OldSpec(olds, id))
    && OwnersAndKindKept(ds, ms, id)
  }

  lemma SurviveEach(defs: Clusters, ds: Deployments, olds: Manifests, ms: Manifests)
    requires KeyedDeployments(ds) && Placed(defs, ds) && PutBack(ds, defs, olds, ms) && Expandable(defs, ms)
    ensures SameDeployments(Expanded(defs, ms), ds) <==> forall id | id in ds :: Survives(defs, ds, olds, ms, id)
  {
    PutKeys(defs, ds, olds, ms);
    hide PutBack, Expanded, SameDeployment, Survives, KeyedDeployments;
    forall id | id in ds ensures SameDeployment(Expanded(defs, ms)[id], ds[id]) <==> Survives(defs, ds, olds, ms, id) {
      SurvivesAt(defs, ds, olds, ms, id);
    }
  }

  lemma SurvivesAt(defs: Clusters, ds: Deployments, olds: Manifests, ms: Manifests, id: DeploymentID)
    requires KeyedDeployments(ds) && Placed(defs, ds) && PutBack(ds, defs, olds, ms) && Expandable(defs, ms) && id in ds
    ensures id in Expanded(defs, ms)
    ensures SameDeployment(Expanded(defs, ms)[id], ds[id]) <==> Survives(defs, ds, olds, ms, id)
  {
    PutGetAt(defs, ds, olds, ms, id);
    hide PutBack, Expanded, SameDeployment, Carries, StripsAlike, OwnersAndKindKept, KeyedDeployments;
  }

  lemma AllSurvive(defs: Clusters, ds: Deployments, olds: Manifests, ms: Manifests)
    requires Placed(defs, ds)
    ensures (forall id | id in ds :: Survives(defs, ds, olds, ms, id))
            <==> && AllCarry(defs, ds) && AllStripAlike(defs, ds, olds)
                 && forall id | id in ds :: OwnersAndKindKept(ds, ms, id)
  {
    hide Carries, StripsAlike, OwnersAndKindKept, ClusterFor, OldSpec;
    if forall id | id in ds :: Survives(defs, ds, olds, ms, id) {
      forall id | id in ds
        ensures Carries(defs[ds[id].clusterName], ds[id]) && OwnersAndKindKept(ds, ms, id)
        ensures StripsAlike(ClusterFor(defs, ds[id]), defs[ds[id].clusterName], ds[id], OldSpec(olds, id))
      {
        assert Survives(defs, ds, olds, ms, id);
      }
    }
  }

  /** put-get: whatever the old manifests and the order of the map loop, expanding what was put
      back gives the same deployments if and only if each deployment carries the defaults of its
      defined cluster, which fills in again what the deployment's own cluster stripped, and the
      deployments of each manifest agree on owners and kind. */
  lemma PutGet(defs: Clusters, ds: Deployments, olds: Manifests, ms: Manifests)
    requires KeyedDeployments(ds) && Placed(defs, ds) && PutBack(ds, defs, olds, ms)
    ensures Expandable(defs, ms)
    ensures SameDeployments(Expanded(defs, ms), ds)
            <==> AllCarry(defs, ds) && AllStripAlike(defs, ds, olds) && Agree(ds)
  {
    PutExpandable(defs, ds, olds, ms);
    SurviveEach(defs, ds, olds, ms);
    PutKeys(defs, ds, olds, ms);
    AgreeIffKept(ds, ms);
    AllSurvive(defs, ds, olds, ms);
    hide PutBack, Expanded, SameDeployments, AllCarry, AllStripAlike, Agree, Survives, ManifestsPut, OwnersAndKindKept,
         KeyedDeployments, AllDefined, KeyedManifests, HasSpec;
  }

  /** The deployments carry the defined clusters themselves, or none. */
  ghost predicate AsDefined(defs: Clusters, ds: Deployments)
    requires Placed(defs, ds)
  {
    forall id | id in ds :: ClusterFor(defs, ds[id]) == defs[ds[id].clusterName]
  }

  /** So for deployments with the defined clusters, only defaults, owners and kinds matter. */
  lemma DefinedStripAlike(defs: Clusters, ds: Deployments, olds: Manifests)
    requires Placed(defs, ds) && AsDefined(defs, ds)
    ensures AllStripAlike(defs, ds, olds)
  {
    hide StripsAlike, OldSpec;
    forall id | id in ds
      ensures StripsAlike(ClusterFor(defs, ds[id]), defs[ds[id].clusterName], ds[id], OldSpec(olds, id))
    {
      SameDefaultsStripAlike(ClusterFor(defs, ds[id]), defs[ds[id].clusterName], ds[id], OldSpec(olds, id));
    }
  }

  // ---------------------------------------------------------------- the visiting order

  lemma {:induction false} OpenedByVisit(ds: Deployments, order: seq<DeploymentID>, defs: Clusters, olds: Manifests,
                                         mid: ManifestID)
    requires KeyedDeployments(ds) && AllKnown(defs, ds) && forall id | id in order :: id in ds
    requires mid in PutInOrder(ds, order, defs, olds)
    ensures exists j :: 0 <= j < |order| && order[j].manifestID == mid
  {
    hide SpecFor;
    if order != [] {
      var n := |order| - 1;
      assert order[n] in order && ds[order[n]].ManifestId() == order[n].manifestID;
      if order[n].manifestID != mid {
        OpenedByVisit(ds, order[..n], defs, olds, mid);
        var j :| 0 <= j < n && order[..n][j].manifestID == mid;
        assert order[j].manifestID == mid;
      }
    }
  }

  /** The deployment of a manifest that is visited first decides its owners... */
  lemma {:induction false} FirstDecidesOwners(ds: Deployments, order: seq<DeploymentID>, defs: Clusters,
                                              olds: Manifests, i: nat)
    requires KeyedDeployments(ds) && AllKnown(defs, ds) && forall id | id in order :: id in ds
    requires i < |order| && forall j | 0 <= j < i :: order[j].manifestID != order[i].manifestID
    ensures order[i] in ds
    ensures var ms := PutInOrder(ds, order, defs, olds);
            order[i].manifestID in ms && ms[order[i].manifestID].owners == Listing(ds[order[i]].owners)
  {
    hide SpecFor;
    var n := |order| - 1;
    assert order[n] in order && order[i] in order && ds[order[n]].ManifestId() == order[n].manifestID;
    if i < n {
      FirstDecidesOwners(ds, order[..n], defs, olds, i);
    } else if order[i].manifestID in PutInOrder(ds, order[..n], defs, olds) {
      OpenedByVisit(ds, order[..n], defs, olds, order[i].manifestID);
    }
  }

  /** ... and the one visited last decides its kind. */
  lemma {:induction false} LastDecidesKind(ds: Deployments, order: seq<DeploymentID>, defs: Clusters,
                                           olds: Manifests, i: nat)
    requires KeyedDeployments(ds) && AllKnown(defs, ds) && forall id | id in order :: id in ds
    requires i < |order| && forall j | i < j < |order| :: order[j].manifestID != order[i].manifestID
    ensures order[i] in ds
    ensures var ms := PutInOrder(ds, order, defs, olds);
            order[i].manifestID in ms && ms[order[i].manifestID].kind == ds[order[i]].kind
  {
    hide SpecFor;
    var n := |order| - 1;
    assert order[n] in order && order[i] in order && ds[order[n]].ManifestId() == order[n].manifestID;
    if i < n {
      LastDecidesKind(ds, order[..n], defs, olds, i);
    }
  }

  lemma SomeOrder(ids: set<DeploymentID>) returns (order: seq<DeploymentID>)
    ensures Visits(order, ids)
  {
    order := SetToSeq(ids);
    SetListingDistinct(order, ids);
  }

  lemma FirstVisited(ds: Deployments, defs: Clusters, olds: Manifests, i: DeploymentID) returns (ms: Manifests)
    requires KeyedDeployments(ds) && AllKnown(defs, ds) && i in ds
    ensures PutBack(ds, defs, olds, ms) && i.manifestID in ms && ms[i.manifestID].owners == Listing(ds[i].owners)
  {
    var rest := SomeOrder(ds.Keys - {i});
    var order := [i] + rest;
    assert Visits(order, ds.Keys);
    hide PutInOrder;
    ms := PutInOrder(ds, order, defs, olds);
    FirstDecidesOwners(ds, order, defs, olds, 0);
  }

  lemma LastVisited(ds: Deployments, defs: Clusters, olds: Manifests, i: DeploymentID) returns (ms: Manifests)
    requires KeyedDeployments(ds) && AllKnown(defs, ds) && i in ds
    ensures PutBack(ds, defs, olds, ms) && i.manifestID in ms && ms[i.manifestID].kind == ds[i].kind
  {
    var rest := SomeOrder(ds.Keys - {i});
    var order := rest + [i];
    assert Visits(order, ds.Keys);
    hide PutInOrder;
    ms := PutInOrder(ds, order, defs, olds);
    LastDecidesKind(ds, order, defs, olds, |rest|);
  }

  lemma SpecsEqual(ds: Deployments, defs: Clusters, olds: Manifests, a: Manifests, b: Manifests, mid: ManifestID)
    requires AllKnown(defs, ds)
    requires SpecsPut(defs, olds, ds, ds.Keys, a) && SpecsPut(defs, olds, ds, ds.Keys, b)
    requires mid in a && mid in b
    ensures a[mid].deployments == b[mid].deployments
  {
    hide SpecFor;
    forall c ensures c in a[mid].deployments <==> c in b[mid].deployments {
      assert HasSpec(a, DeploymentID(mid, c)) <==> HasSpec(b, DeploymentID(mid, c));
    }
    forall c | c in a[mid].deployments ensures a[mid].deployments[c] == b[mid].deployments[c] {
      assert HasSpec(a, DeploymentID(mid, c)) && SpecAt(a, DeploymentID(mid, c)) == SpecAt(b, DeploymentID(mid, c));
    }
  }

  lemma AgreedFields(ds: Deployments, ms: Manifests, id: DeploymentID)
    requires Agree(ds) && ManifestsPut(ds, ds.Keys, ms) && id in ds && id.manifestID in ms
    ensures var m := ms[id.manifestID];
            m.ID() == id.manifestID && m.owners == Listing(ds[id].owners) && m.kind == ds[id].kind
  {
    var m := ms[id.manifestID];
    var i :| i in ds && i.manifestID == id.manifestID && m.owners == Listing(ds[i].owners);
    var j :| j in ds && j.manifestID == id.manifestID && m.kind == ds[j].kind;
  }

  lemma OutcomeMids(ds: Deployments, defs: Clusters, olds: Manifests, ms: Manifests, mid: ManifestID)
    requires AllKnown(defs, ds) && SpecsPut(defs, olds, ds, ds.Keys, ms) && ManifestsPut(ds, ds.Keys, ms)
    ensures mid in ms <==> exists id :: id in ds && id.manifestID == mid
  {
    hide SpecFor;
    if mid in ms {
      var i :| i in ds && i.manifestID == mid && ms[mid].owners == Listing(ds[i].owners);
    }
    if id :| id in ds && id.manifestID == mid {
      assert HasSpec(ms, id);
    }
  }

  lemma AgreedManifestsEqual(ds: Deployments, defs: Clusters, olds: Manifests, a: Manifests, b: Manifests,
                             mid: ManifestID)
    requires Agree(ds) && AllKnown(defs, ds)
    requires SpecsPut(defs, olds, ds, ds.Keys, a) && SpecsPut(defs, olds, ds, ds.Keys, b)
    requires ManifestsPut(ds, ds.Keys, a) && ManifestsPut(ds, ds.Keys, b)
    ensures mid in a <==> mid in b
    ensures mid in a ==> a[mid] == b[mid]
  {
    OutcomeMids(ds, defs, olds, a, mid);
    OutcomeMids(ds, defs, olds, b, mid);
    hide SpecsPut, ManifestsPut, Agree, AllKnown;
    if mid in a {
      var id :| id in ds && id.manifestID == mid;
      AgreedFields(ds, a, id);
      AgreedFields(ds, b, id);
      SpecsEqual(ds, defs, olds, a, b, mid);
    }
  }

  lemma PutBackKnown(ds: Deployments, defs: Clusters, olds: Manifests, ms: Manifests)
    requires PutBack(ds, defs, olds, ms)
    ensures AllKnown(defs, ds)
  {}

  lemma SameEntries<K, V>(a: map<K, V>, b: map<K, V>)
    requires forall k :: (k in a <==> k in b) && (k in a ==> a[k] == b[k])
    ensures a == b
  {}

  lemma OneOutcome(ds: Deployments, defs: Clusters, olds: Manifests, a: Manifests, b: Manifests)
    requires KeyedDeployments(ds) && Agree(ds)
    requires PutBack(ds, defs, olds, a) && PutBack(ds, defs, olds, b)
    ensures a == b
  {
    hide *;
    PutBackKnown(ds, defs, olds, a);
    PutBackOutcome(ds, defs, olds, a);
    PutBackOutcome(ds, defs, olds, b);
    forall mid ensures (mid in a <==> mid in b) && (mid in a ==> a[mid] == b[mid]) {
      AgreedManifestsEqual(ds, defs, olds, a, b, mid);
    }
    SameEntries(a, b);
  }

  lemma TwoOutcomes(ds: Deployments, defs: Clusters, olds: Manifests, i: DeploymentID, j: DeploymentID)
    requires KeyedDeployments(ds) && AllKnown(defs, ds)
    requires forall a, b | PutBack(ds, defs, olds, a) && PutBack(ds, defs, olds, b) :: a == b
    requires i in ds && j in ds && i.manifestID == j.manifestID
    ensures ds[i].owners == ds[j].owners && ds[i].kind == ds[j].kind
  {
    hide PutBack, KeyedDeployments, AllKnown, IsSlice;
    var a := FirstVisited(ds, defs, olds, i);
    var b := FirstVisited(ds, defs, olds, j);
    assert a == b;
    ListingFrom(ds[i].owners, ds[j].owners);
    var c := LastVisited(ds, defs, olds, i);
    var d := LastVisited(ds, defs, olds, j);
    assert c == d;
  }

  lemma ListingFrom(a: set<string>, b: set<string>)
    ensures Listing(a) == Listing(b) ==> a == b
  {
    assert IsSlice(Listing(a), a) && IsSlice(Listing(b), b);
  }

  /** Putting back gives the same manifests in every visiting order if and only if the deployments
      of each manifest agree on owners and kind. */
  lemma OrderIrrelevantIffAgree(ds: Deployments, defs: Clusters, olds: Manifests)
    requires KeyedDeployments(ds) && AllKnown(defs, ds)
    ensures (forall a, b | PutBack(ds, defs, olds, a) && PutBack(ds, defs, olds, b) :: a == b) <==> Agree(ds)
  {
    if Agree(ds) {
      hide PutBack, Agree, KeyedDeployments, AllKnown;
      forall a, b | PutBack(ds, defs, olds, a) && PutBack(ds, defs, olds, b) ensures a == b {
        OneOutcome(ds, defs, olds, a, b);
      }
    }
    if forall a, b | PutBack(ds, defs, olds, a) && PutBack(ds, defs, olds, b) :: a == b {
      hide PutBack, KeyedDeployments, AllKnown;
      forall i, j | i in ds && j in ds && i.manifestID == j.manifestID
        ensures ds[i].owners == ds[j].owners && ds[i].kind == ds[j].kind
      {
        TwoOutcomes(ds, defs, olds, i, j);
      }
    }
  }

  // ---------------------------------------------------------------- what is lost

  /** One deployment on one cluster, put back into nothing. */
  lemma AlonePutBack(cluster: Cluster, d: Deployment) returns (ms: Manifests)
    requires d.clusterName != ""
    ensures var (defs, ds) := (map[d.clusterName := cluster], map[d.ID() := d]);
            KeyedDeployments(ds) && Placed(defs, ds) && PutBack(ds, defs, map[], ms) && Agree(ds)
  {
    var (defs, ds) := (map[d.clusterName := cluster], map[d.ID() := d]);
    assert AllKnown(defs, ds);
    hide SpecFor, PutOne;
    ms := PutInOrder(ds, [d.ID()], defs, map[]);
    assert Visits([d.ID()], ds.Keys);
  }

  /** An explicit zero does not come back where the cluster has a default. */
  lemma ExplicitZeroLost(cluster: Cluster, d: Deployment) returns (ms: Manifests)
    requires d.clusterName != ""
    requires cluster.startup.connectDelay != 0 && d.config.startup.connectDelay == 0
    ensures var (defs, ds) := (map[d.clusterName := cluster], map[d.ID() := d]);
            && PutBack(ds, defs, map[], ms) && Expandable(defs, ms)
            && !SameDeployments(Expanded(defs, ms), ds)
  {
    var (defs, ds) := (map[d.clusterName := cluster], map[d.ID() := d]);
    ms := AlonePutBack(cluster, d);
    assert !Carries(cluster, d) && d.ID() in ds && ds[d.ID()] == d && defs[d.clusterName] == cluster;
    hide Expanded, Carries, KeyedDeployments, PutBack, Agree, SameDeployments, AllDefined, KeyedManifests, HasSpec,
         AllStripAlike;
    PutGet(defs, ds, map[], ms);
  }

  /** Nor does a value that was a default in an outdated copy of the cluster, though the deployment
      carries all of today's defaults. */
  lemma StaleDefaultLost(own: Cluster, cluster: Cluster, d: Deployment) returns (ms: Manifests)
    requires d.clusterName != "" && d.cluster == Some(own) && Carries(cluster, d)
    requires own.startup.connectDelay == d.config.startup.connectDelay != 0
    requires cluster.startup.connectDelay != own.startup.connectDelay
    ensures var (defs, ds) := (map[d.clusterName := cluster], map[d.ID() := d]);
            && Placed(defs, ds) && AllCarry(defs, ds) && Agree(ds)
            && PutBack(ds, defs, map[], ms) && Expandable(defs, ms)
            && !SameDeployments(Expanded(defs, ms), ds)
  {
    var (defs, ds) := (map[d.clusterName := cluster], map[d.ID() := d]);
    ms := AlonePutBack(cluster, d);
    assert !StripsAlike(own, cluster, d, None) && d.ID() in ds && ds[d.ID()] == d && defs[d.clusterName] == cluster;
    assert OldSpec(map[], d.ID()) == None;
    hide Expanded, Carries, StripsAlike, KeyedDeployments, PutBack, Agree, SameDeployments, AllDefined,
         KeyedManifests, HasSpec;
    PutGet(defs, ds, map[], ms);
  }

  lemma AgreedManifest(ds: Deployments, ms: Manifests, id: DeploymentID)
    requires Agree(ds) && ManifestsPut(ds, ds.Keys, ms) && id in ds && id.manifestID in ms
    ensures (set o | o in ms[id.manifestID].owners) == ds[id].owners && ms[id.manifestID].kind == ds[id].kind
  {
    var m := ms[id.manifestID];
    var i :| i in ds && i.manifestID == id.manifestID && m.owners == Listing(ds[i].owners);
    var j :| j in ds && j.manifestID == id.manifestID && m.kind == ds[j].kind;
    assert IsSlice(m.owners, ds[i].owners);
  }
}
