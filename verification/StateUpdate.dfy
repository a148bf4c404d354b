/** lib/state.go and lib/cluster_manager.go: upserting deployments into the state, and
    reading and writing the deployments of one cluster. */
module StateUpdate {
  import opened Types
  import opened Families
  import opened ManifestMapping
  import opened ManifestLens

  /** Setting deployments one after the other; the last one of an ID stays. */
  function SetEach(base: Deployments, ds: seq<Deployment>): Deployments {
    if ds == [] then base
    else SetEach(base, ds[..|ds| - 1])[ds[|ds| - 1].ID() := ds[|ds| - 1]]
  }

  lemma {:induction false} SetEachKeys(base: Deployments, ds: seq<Deployment>)
    ensures SetEach(base, ds).Keys == base.Keys + set d | d in ds :: d.ID()
    ensures KeyedDeployments(base) ==> KeyedDeployments(SetEach(base, ds))
  {
    if ds != [] {
      SetEachKeys(base, ds[..|ds| - 1]);
      assert ds == ds[..|ds| - 1] + [ds[|ds| - 1]];
    }
  }

  lemma {:induction false} SetEachAt(base: Deployments, ds: seq<Deployment>, id: DeploymentID)
    requires id in SetEach(base, ds)
    ensures (forall d | d in ds :: d.ID() != id) && id in base ==> SetEach(base, ds)[id] == base[id]
    ensures (exists d | d in ds :: d.ID() == id) ==> SetEach(base, ds)[id] in ds
  {
    if ds != [] {
      var n := |ds| - 1;
      assert ds == ds[..n] + [ds[n]];
      if ds[n].ID() != id {
        SetEachAt(base, ds[..n], id);
      }
    }
  }

  /** Of several deployments of one ID the last one is set. */
  lemma {:induction false} SetEachLast(base: Deployments, ds: seq<Deployment>, i: nat)
    requires i < |ds| && forall j | i < j < |ds| :: ds[j].ID() != ds[i].ID()
    ensures ds[i].ID() in SetEach(base, ds) && SetEach(base, ds)[ds[i].ID()] == ds[i]
  {
    var n := |ds| - 1;
    if i < n {
      SetEachLast(base, ds[..n], i);
    }
  }

  lemma SetEachFacts(base: Deployments, ds: seq<Deployment>)
    ensures SetEach(base, ds).Keys == base.Keys + set d | d in ds :: d.ID()
    ensures KeyedDeployments(base) ==> KeyedDeployments(SetEach(base, ds))
    ensures forall id | id in base && (forall d | d in ds :: d.ID() != id) :: SetEach(base, ds)[id] == base[id]
    ensures forall id | id in SetEach(base, ds) && (exists d | d in ds :: d.ID() == id) :: SetEach(base, ds)[id] in ds
  {
    SetEachKeys(base, ds);
    hide SetEach, KeyedDeployments;
    forall id | id in SetEach(base, ds)
      ensures (forall d | d in ds :: d.ID() != id) && id in base ==> SetEach(base, ds)[id] == base[id]
      ensures (exists d | d in ds :: d.ID() == id) ==> SetEach(base, ds)[id] in ds
    {
      SetEachAt(base, ds, id);
    }
  }

  method SetAll(base: Deployments, ds: seq<Deployment>) returns (r: Deployments)
    ensures r == SetEach(base, ds)
  {
    r := base;
    for i := 0 to |ds|
      invariant r == SetEach(base, ds[..i])
    {
      assert ds[..i + 1][..i] == ds[..i];
      r := r[ds[i].ID() := ds[i]];
    }
    assert ds[..|ds|] == ds;
  }

  class State {
    const defs: Clusters
    var manifests: Manifests

    ghost predicate Valid() reads this { KeyedManifests(manifests) }

    constructor (defs: Clusters, manifests: Manifests)
      requires KeyedManifests(manifests)
      ensures Valid() && this.defs == defs && this.manifests == manifests
    {
      this.defs, this.manifests := defs, manifests;
    }

    method Deployments() returns (r: Result<Deployments>)
      requires Valid()
      ensures r.Ok? <==> AllDefined(defs, manifests)
      ensures r.Ok? <==> forall mid | mid in manifests :: forall c | c in manifests[mid].deployments :: c in defs
      ensures r.Ok? ==> r.value == Expanded(defs, manifests) && Expands(defs, manifests, r.value)
    {
      if AllDefined(defs, manifests) {
        ExpandedExpands(defs, manifests);
      }
      hide Expands, Expanded;
      r := ManifestsDeployments(manifests, defs);
      if AllDefined(defs, manifests) {
        KeyedExpansion(defs, manifests, if r.Ok? then r.value else map[]);
      }
    }

    /** Either every deployment is upserted, or the state is as it was. */
    method UpdateDeployments(ds: seq<Deployment>) returns (err: Option<Error>)
      requires Valid()
      modifies this`manifests
      ensures Valid()
      ensures err.None? <==> AllDefined(defs, old(manifests))
                             && AllKnown(defs, SetEach(Expanded(defs, old(manifests)), ds))
      ensures err.None? ==> PutBack(SetEach(Expanded(defs, old(manifests)), ds), defs, old(manifests), manifests)
      ensures err.Some? ==> manifests == old(manifests)
    {
      hide Expanded, PutBack, AllKnown, AllDefined, SetEach;
      var read := Deployments();
      if read.Err? {
        return Some(read.error);
      }
      var stateDeps := SetAll(read.value, ds);
      ghost var was := manifests;
      var written := PutbackManifests(stateDeps, defs, manifests);
      if written.Err? {
        return Some(written.error);
      }
      UpdateKeepsKeys(defs, was, ds, written.value);
      manifests := written.value;
      err := None;
    }
  }

  lemma UpdateKeepsKeys(defs: Clusters, ms: Manifests, ds: seq<Deployment>, out: Manifests)
    requires KeyedManifests(ms) && AllDefined(defs, ms)
    requires PutBack(SetEach(Expanded(defs, ms), ds), defs, ms, out)
    ensures KeyedManifests(out)
  {
    hide PutBack, Built, SetEach;
    KeyedExpansion(defs, ms, map[]);
    SetEachFacts(Expanded(defs, ms), ds);
    PutBackOutcome(SetEach(Expanded(defs, ms), ds), defs, ms, out);
  }

  // ---------------------------------------------------------------- laws of the upsert

  /** Frame: after putting `all` back, a spec that the deployments in `all` were built from
      is literally unchanged, whatever happened to the owners and kind of its manifest. */
  lemma UnaddressedSpecsUnchanged(defs: Clusters, ms: Manifests, all: Deployments, out: Manifests, id: DeploymentID)
    requires Expandable(defs, ms) && KeyedDeployments(all) && PutBack(all, defs, ms, out)
    requires HasSpec(ms, id) && id in all && all[id] == Expanded(defs, ms)[id]
    ensures HasSpec(out, id) && SpecAt(out, id) == SpecAt(ms, id)
  {
    hide PutBack, Built, SpecFor;
    PutBackOutcome(all, defs, ms, out);
    ExpandedSpecPut(defs, ms, id);
  }

  /** Upsert: no spec disappears, exactly the addressed ones may change. */
  lemma UpsertFrame(defs: Clusters, ms: Manifests, ds: seq<Deployment>, out: Manifests)
    requires Expandable(defs, ms) && PutBack(SetEach(Expanded(defs, ms), ds), defs, ms, out)
    ensures forall id :: HasSpec(out, id) <==> HasSpec(ms, id) || exists d :: d in ds && d.ID() == id
    ensures forall id | HasSpec(ms, id) && (forall d | d in ds :: d.ID() != id) ::
              HasSpec(out, id) && SpecAt(out, id) == SpecAt(ms, id)
  {
    hide PutBack, Built, SetEach, SpecFor;
    var base := Expanded(defs, ms);
    var all := SetEach(base, ds);
    ExpandedFacts(defs, ms);
    SetEachFacts(base, ds);
    PutBackOutcome(all, defs, ms, out);
    forall id | HasSpec(ms, id) && (forall d | d in ds :: d.ID() != id)
      ensures HasSpec(out, id) && SpecAt(out, id) == SpecAt(ms, id)
    {
      UnaddressedSpecsUnchanged(defs, ms, all, out, id);
    }
  }

  /** Upsert, read back: expanding the updated manifests gives the old deployments overridden
      by `ds` if and only if the written deployments carry their defined cluster's defaults, which
      fill in again what their own cluster strips, and all deployments of a manifest then agree on
      owners and kind. */
  lemma UpsertReadBack(defs: Clusters, ms: Manifests, ds: seq<Deployment>, out: Manifests)
    requires Expandable(defs, ms) && Placed(defs, SetEach(Expanded(defs, ms), ds))
    requires PutBack(SetEach(Expanded(defs, ms), ds), defs, ms, out)
    ensures Expandable(defs, out)
    ensures var all := SetEach(Expanded(defs, ms), ds);
            SameDeployments(Expanded(defs, out), all)
            <==> (forall id | id in all && (exists d | d in ds :: d.ID() == id) :: ReadsBack(defs, ms, id, all[id]))
                 && Agree(all)
  {
    hide PutBack, SetEach, Carries, StripsAlike, SameDeployments, SpecFor, ClusterFor, OldSpec;
    var base := Expanded(defs, ms);
    var all := SetEach(base, ds);
    ExpandedFacts(defs, ms) by { hide Built; }
    SetEachFacts(base, ds);
    PutGet(defs, all, ms, out);
    ReadBackEach(defs, ms, all);
    hide ReadsBack, Expanded;
    forall id | id in all && (forall d | d in ds :: d.ID() != id) ensures ReadsBack(defs, ms, id, all[id]) {
      ExpandedReadsBack(defs, ms, id);
    }
  }

  /** What decides whether a written deployment reads back, its manifest aside. */
  ghost predicate ReadsBack(defs: Clusters, ms: Manifests, id: DeploymentID, d: Deployment)
    requires d.clusterName != "" && d.clusterName in defs
  {
    Carries(defs[d.clusterName], d) && StripsAlike(ClusterFor(defs, d), defs[d.clusterName], d, OldSpec(ms, id))
  }

  lemma ReadBackEach(defs: Clusters, ms: Manifests, ds: Deployments)
    requires Placed(defs, ds)
    ensures AllCarry(defs, ds) && AllStripAlike(defs, ds, ms)
            <==> forall id | id in ds :: ReadsBack(defs, ms, id, ds[id])
  {
    hide Carries, StripsAlike, ClusterFor, OldSpec;
    if forall id | id in ds :: ReadsBack(defs, ms, id, ds[id]) {
      forall id | id in ds
        ensures Carries(defs[ds[id].clusterName], ds[id])
        ensures StripsAlike(ClusterFor(defs, ds[id]), defs[ds[id].clusterName], ds[id], OldSpec(ms, id))
      {
        assert ReadsBack(defs, ms, id, ds[id]);
      }
    }
  }

  /** What an expansion yields always reads back. */
  lemma ExpandedReadsBack(defs: Clusters, ms: Manifests, id: DeploymentID)
    requires Expandable(defs, ms) && id in Expanded(defs, ms)
    ensures var d := Expanded(defs, ms)[id]; d.clusterName != "" && d.clusterName in defs && ReadsBack(defs, ms, id, d)
  {
    hide Carries, StripsAlike, BuiltConfig, Expanded, OldSpec;
    ExpandedFacts(defs, ms);
    BuiltCarries(ms[id.manifestID], id.cluster, defs[id.cluster], SpecAt(ms, id));
    SameDefaultsStripAlike(defs[id.cluster], defs[id.cluster], Expanded(defs, ms)[id], OldSpec(ms, id));
  }

  // ---------------------------------------------------------------- one cluster

  function ClusterPart(ds: Deployments, cluster: string): Deployments {
    map id | id in ds && ds[id].clusterName == cluster :: ds[id]
  }

  /** `Deployments.Filter` on the cluster name. */
  method FilterCluster(ds: Deployments, cluster: string, keep: bool) returns (r: Deployments)
    ensures r == map id | id in ds && (ds[id].clusterName == cluster) == keep :: ds[id]
  {
    r := map[];
    var keys := ds.Keys;
    while keys != {}
      invariant keys <= ds.Keys
      invariant r == map id | id in ds && id !in keys && (ds[id].clusterName == cluster) == keep :: ds[id]
      decreases keys
    {
      var k :| k in keys;
      if (ds[k].clusterName == cluster) == keep {
        r := r[k := ds[k]];
      }
      keys := keys - {k};
    }
  }

  /** The values of a map as a list, in some order; setting them one by one overrides with the map. */
  method Values(ds: Deployments, ghost base: Deployments) returns (vs: seq<Deployment>)
    requires KeyedDeployments(ds)
    ensures SetEach(base, vs) == base + ds
  {
    vs := [];
    var keys := ds.Keys;
    while keys != {}
      invariant keys <= ds.Keys
      invariant SetEach(base, vs) == base + (ds - keys)
      decreases keys
    {
      var k :| k in keys;
      assert (vs + [ds[k]])[..|vs|] == vs;
      assert base + (ds - (keys - {k})) == (base + (ds - keys))[k := ds[k]];
      vs := vs + [ds[k]];
      keys := keys - {k};
    }
    assert ds - keys == ds;
  }

  /** What one cluster's part of the expansion is. */
  lemma ClusterPartExpands(defs: Clusters, ms: Manifests, cluster: string)
    requires AllDefined(defs, ms)
    ensures var part := ClusterPart(Expanded(defs, ms), cluster);
            && (forall id :: id in part <==> id.cluster == cluster && id.manifestID in ms
                                             && id.cluster in ms[id.manifestID].deployments)
            && (forall id | id in part ::
                  && id.cluster in defs
                  && DeploymentOf(ms[id.manifestID], id.cluster, defs[id.cluster],
                                  ms[id.manifestID].deployments[id.cluster], part[id]))
  {
    ExpandedExpands(defs, ms);
    assert forall id | id in Expanded(defs, ms) :: Expanded(defs, ms)[id].clusterName == id.cluster;
    hide Expanded, DeploymentOf;
  }

  /** `clusterManagerDecorator` over a state manager that holds one state. */
  class ClusterManager {
    const defs: Clusters
    var manifests: Manifests
    var readable: bool
    var writable: bool

    ghost predicate Valid() reads this { KeyedManifests(manifests) }

    constructor (defs: Clusters, manifests: Manifests, readable: bool, writable: bool)
      requires KeyedManifests(manifests)
      ensures Valid() && this.defs == defs && this.manifests == manifests
      ensures this.readable == readable && this.writable == writable
    {
      this.defs, this.manifests, this.readable, this.writable := defs, manifests, readable, writable;
    }

    method ReadCluster(cluster: string) returns (r: Result<Deployments>)
      requires Valid()
      ensures r.Ok? <==> readable && AllDefined(defs, manifests)
      ensures r.Ok? ==> r.value == ClusterPart(Expanded(defs, manifests), cluster)
      ensures r.Ok? ==> forall id ::
                id in r.value <==> id.cluster == cluster && id.manifestID in manifests
                                   && id.cluster in manifests[id.manifestID].deployments
      ensures r.Ok? ==> forall id | id in r.value ::
                && id.cluster in defs
                && DeploymentOf(manifests[id.manifestID], id.cluster, defs[id.cluster],
                                manifests[id.manifestID].deployments[id.cluster], r.value[id])
    {
      if AllDefined(defs, manifests) {
        ClusterPartExpands(defs, manifests, cluster);
      }
      hide Expanded, DeploymentOf;
      if !readable {
        return Err(StateUnreadable);
      }
      var state := new State(defs, manifests);
      var deps := state.Deployments();
      if deps.Err? {
        return Err(deps.error);
      }
      var part := FilterCluster(deps.value, cluster, true);
      r := Ok(part);
    }

    method WriteCluster(cluster: string, wds: Deployments) returns (err: Option<Error>)
      requires Valid() && KeyedDeployments(wds)
      modifies this`manifests
      ensures Valid()
      ensures err.None? <==> readable && writable && AllDefined(defs, old(manifests))
                             && AllKnown(defs, Expanded(defs, old(manifests)) + wds)
      ensures err.None? ==> PutBack(Expanded(defs, old(manifests)) + wds, defs, old(manifests), manifests)
      ensures err.Some? ==> manifests == old(manifests)
    {
      hide Built, PutBack, AllKnown, Expanded, AllDefined, SetEach, PairwiseDisjoint, IsUnion, Expands, DeploymentOf;
      if !readable {
        return Some(StateUnreadable);
      }
      var state := new State(defs, manifests);
      var deps := state.Deployments();
      if deps.Err? {
        return Some(deps.error);
      }
      KeyedExpansion(defs, manifests, deps.value);
      // cut out the deployments of this cluster, then add the given ones
      var others := FilterCluster(deps.value, cluster, false);
      var merged := others + wds;
      var ds := Values(merged, deps.value);
      assert deps.value + merged == deps.value + wds;
      err := state.UpdateDeployments(ds);
      if err.Some? {
        return;
      }
      if !writable {
        return Some(StateUnwritable);
      }
      manifests := state.manifests;
    }
  }

  ghost predicate OfCluster(cluster: string, wds: Deployments) {
    forall id | id in wds :: id.cluster == cluster
  }

  lemma OverridePlaced(defs: Clusters, ms: Manifests, wds: Deployments)
    requires Expandable(defs, ms) && KeyedDeployments(wds) && Placed(defs, wds)
    ensures KeyedDeployments(Expanded(defs, ms) + wds) && Placed(defs, Expanded(defs, ms) + wds)
  {
    hide Expanded, BuiltConfig;
    ExpandedFacts(defs, ms);
  }

  lemma PutBackSpecs(ds: Deployments, defs: Clusters, olds: Manifests, ms: Manifests)
    requires KeyedDeployments(ds) && PutBack(ds, defs, olds, ms)
    ensures forall id :: HasSpec(ms, id) <==> id in ds
  {
    hide PutBack, SpecFor;
    PutBackOutcome(ds, defs, olds, ms);
  }

  lemma ExpandedKeys(defs: Clusters, ms: Manifests)
    requires Expandable(defs, ms)
    ensures forall id :: id in Expanded(defs, ms) <==> HasSpec(ms, id)
  {
    hide Expanded, Built;
    ExpandedFacts(defs, ms);
  }

  lemma OverrideKeyed(base: Deployments, wds: Deployments)
    requires KeyedDeployments(base) && KeyedDeployments(wds)
    ensures KeyedDeployments(base + wds)
  {}

  lemma UnwrittenSpec(defs: Clusters, ms: Manifests, wds: Deployments, out: Manifests, id: DeploymentID)
    requires Expandable(defs, ms) && KeyedDeployments(wds) && PutBack(Expanded(defs, ms) + wds, defs, ms, out)
    requires id !in wds && HasSpec(ms, id)
    ensures HasSpec(out, id) && SpecAt(out, id) == SpecAt(ms, id)
  {
    hide Expanded, PutBack, KeyedDeployments, HasSpec, KeyedManifests, AllDefined;
    ExpandedKeyed(defs, ms);
    ExpandedKeys(defs, ms);
    OverrideKeyed(Expanded(defs, ms), wds);
    UnaddressedSpecsUnchanged(defs, ms, Expanded(defs, ms) + wds, out, id);
  }

  /** WriteCluster does not touch the spec of any deployment it does not write. */
  lemma WriteClusterFrame(defs: Clusters, ms: Manifests, wds: Deployments, out: Manifests)
    requires Expandable(defs, ms) && KeyedDeployments(wds) && PutBack(Expanded(defs, ms) + wds, defs, ms, out)
    ensures forall id :: HasSpec(out, id) <==> HasSpec(ms, id) || id in wds
    ensures forall id | id !in wds && HasSpec(ms, id) :: HasSpec(out, id) && SpecAt(out, id) == SpecAt(ms, id)
  {
    hide Expanded, PutBack, KeyedDeployments, HasSpec, KeyedManifests, AllDefined, SpecAt;
    ExpandedKeyed(defs, ms);
    ExpandedKeys(defs, ms);
    OverrideKeyed(Expanded(defs, ms), wds);
    PutBackSpecs(Expanded(defs, ms) + wds, defs, ms, out);
    forall id | id !in wds && HasSpec(ms, id) ensures HasSpec(out, id) && SpecAt(out, id) == SpecAt(ms, id) {
      UnwrittenSpec(defs, ms, wds, out, id);
    }
  }

  /** So if it writes deployments of one cluster only, it leaves the other clusters alone. */
  lemma OtherClustersUntouched(defs: Clusters, ms: Manifests, cluster: string, wds: Deployments, out: Manifests)
    requires Expandable(defs, ms) && KeyedDeployments(wds) && OfCluster(cluster, wds)
    requires PutBack(Expanded(defs, ms) + wds, defs, ms, out)
    ensures forall id: DeploymentID | id.cluster != cluster ::
              (HasSpec(out, id) <==> HasSpec(ms, id)) && (HasSpec(ms, id) ==> SpecAt(out, id) == SpecAt(ms, id))
  {
    WriteClusterFrame(defs, ms, wds, out);
    hide Expanded, PutBack, Expandable, HasSpec;
  }

  /** What is read after a write: every cluster reads as before, overridden by what was written
      for it, if and only if the written deployments read back themselves and agree with the rest
      of their manifests. The cluster named in the call has no part in this. */
  lemma WriteClusterReadBack(defs: Clusters, ms: Manifests, wds: Deployments, out: Manifests)
    requires Expandable(defs, ms) && KeyedDeployments(wds) && Placed(defs, wds)
    requires PutBack(Expanded(defs, ms) + wds, defs, ms, out)
    ensures Expandable(defs, out)
    ensures (forall c :: SameDeployments(ClusterPart(Expanded(defs, out), c),
                                         ClusterPart(Expanded(defs, ms), c) + ClusterPart(wds, c)))
            <==> AllCarry(defs, wds) && AllStripAlike(defs, wds, ms) && Agree(Expanded(defs, ms) + wds)
  {
    OverridePlaced(defs, ms, wds);
    OverrideReadsBack(defs, ms, wds);
    hide Expanded, PutBack, AllCarry, AllStripAlike, Agree, SameDeployments, ClusterPart, KeyedDeployments;
    PutGet(defs, Expanded(defs, ms) + wds, ms, out);
    KeyedParts(defs, ms, out, wds);
    SameByCluster(Expanded(defs, out), Expanded(defs, ms) + wds);
  }

  lemma OverrideReadsBack(defs: Clusters, ms: Manifests, wds: Deployments)
    requires Expandable(defs, ms) && KeyedDeployments(wds)
    requires Placed(defs, wds) && Placed(defs, Expanded(defs, ms) + wds)
    ensures AllCarry(defs, Expanded(defs, ms) + wds) && AllStripAlike(defs, Expanded(defs, ms) + wds, ms)
            <==> AllCarry(defs, wds) && AllStripAlike(defs, wds, ms)
  {
    hide Expanded, ReadsBack;
    var all := Expanded(defs, ms) + wds;
    ReadBackEach(defs, ms, all);
    ReadBackEach(defs, ms, wds);
    hide AllCarry, AllStripAlike;
    forall id | id in all && id !in wds ensures ReadsBack(defs, ms, id, all[id]) {
      ExpandedReadsBack(defs, ms, id);
    }
    forall id | id in wds ensures ReadsBack(defs, ms, id, all[id]) <==> ReadsBack(defs, ms, id, wds[id]) {
      assert all[id] == wds[id];
    }
  }

  lemma KeyedParts(defs: Clusters, ms: Manifests, out: Manifests, wds: Deployments)
    requires Expandable(defs, ms) && Expandable(defs, out) && KeyedDeployments(wds)
    ensures KeyedDeployments(Expanded(defs, out)) && KeyedDeployments(Expanded(defs, ms) + wds)
    ensures forall c :: ClusterPart(Expanded(defs, ms) + wds, c)
                        == ClusterPart(Expanded(defs, ms), c) + ClusterPart(wds, c)
  {
    ExpandedKeyed(defs, ms);
    ExpandedKeyed(defs, out);
    hide Expanded, ClusterPart;
    forall c ensures ClusterPart(Expanded(defs, ms) + wds, c)
                     == ClusterPart(Expanded(defs, ms), c) + ClusterPart(wds, c)
    {
      PartOfOverride(Expanded(defs, ms), wds, c);
    }
  }

  lemma PartOfOverride(base: Deployments, wds: Deployments, c: string)
    requires KeyedDeployments(base) && KeyedDeployments(wds)
    ensures ClusterPart(base + wds, c) == ClusterPart(base, c) + ClusterPart(wds, c)
  {
    assert forall id | id in base + wds :: (base + wds)[id].clusterName == id.cluster;
  }

  lemma SameByCluster(a: Deployments, b: Deployments)
    requires KeyedDeployments(a) && KeyedDeployments(b)
    ensures SameDeployments(a, b) <==> forall c :: SameDeployments(ClusterPart(a, c), ClusterPart(b, c))
  {
    hide SameDeployment;
    if forall c :: SameDeployments(ClusterPart(a, c), ClusterPart(b, c)) {
      forall id ensures (id in a <==> id in b) && (id in a ==> SameDeployment(a[id], b[id])) {
        var pa, pb := ClusterPart(a, id.cluster), ClusterPart(b, id.cluster);
        assert SameDeployments(pa, pb);
        assert id in a <==> id in pa;
        assert id in b <==> id in pb;
      }
    }
  }

  /** Removals are not carried through: what is read back after a write is what was written
      only if the write mentions every deployment the cluster already had. */
  lemma WriteClusterRemovesNothing(defs: Clusters, ms: Manifests, cluster: string, wds: Deployments, out: Manifests)
    requires Expandable(defs, ms) && KeyedDeployments(wds) && Placed(defs, wds)
    requires PutBack(Expanded(defs, ms) + wds, defs, ms, out)
    requires AllCarry(defs, wds) && AllStripAlike(defs, wds, ms) && Agree(Expanded(defs, ms) + wds)
    ensures Expandable(defs, out)
    ensures SameDeployments(ClusterPart(Expanded(defs, out), cluster), ClusterPart(wds, cluster))
            <==> ClusterPart(Expanded(defs, ms), cluster).Keys <= wds.Keys
  {
    ExpandedKeyed(defs, ms);
    PartKeys(Expanded(defs, ms), wds, cluster);
    hide Expanded, PutBack, AllCarry, AllStripAlike, Agree, SameDeployments, ClusterPart, Placed, KeyedDeployments;
    WriteClusterReadBack(defs, ms, wds, out);
    var read := ClusterPart(Expanded(defs, out), cluster);
    var (part, written) := (ClusterPart(Expanded(defs, ms), cluster), ClusterPart(wds, cluster));
    assert SameDeployments(read, part + written);
    OverriddenIsWritten(read, part, written);
  }

  lemma PartKeys(base: Deployments, wds: Deployments, cluster: string)
    requires KeyedDeployments(base) && KeyedDeployments(wds)
    ensures ClusterPart(base, cluster).Keys <= wds.Keys
            <==> ClusterPart(base, cluster).Keys <= ClusterPart(wds, cluster).Keys
  {
    forall id | id in ClusterPart(base, cluster) && id in wds ensures id in ClusterPart(wds, cluster) {
      assert base[id].clusterName == id.cluster == wds[id].clusterName;
    }
  }

  lemma OverriddenIsWritten(read: Deployments, part: Deployments, written: Deployments)
    requires SameDeployments(read, part + written)
    ensures SameDeployments(read, written) <==> part.Keys <= written.Keys
  {
    hide SameDeployment;
    if part.Keys <= written.Keys {
      assert part + written == written;
    }
  }

  /** Whatever is stored: a cluster that is written empty reads as before. */
  lemma EmptyWriteRemovesNothing(defs: Clusters, ms: Manifests, cluster: string, out: Manifests)
    requires Expandable(defs, ms) && PutBack(Expanded(defs, ms) + map[], defs, ms, out)
    ensures Expandable(defs, out)
    ensures SameDeployments(ClusterPart(Expanded(defs, out), cluster), ClusterPart(Expanded(defs, ms), cluster))
  {
    hide Expanded, PutBack, AllDefined, SameDeployments, ClusterPart, KeyedManifests, HasSpec;
    AddNothing(Expanded(defs, ms));
    RewriteKeepsAll(defs, ms, cluster, out);
  }

  lemma AddNothing(ds: Deployments)
    ensures ds + map[] == ds
  {}

  lemma RewriteKeepsAll(defs: Clusters, ms: Manifests, cluster: string, out: Manifests)
    requires Expandable(defs, ms) && PutBack(Expanded(defs, ms), defs, ms, out)
    ensures Expandable(defs, out)
    ensures SameDeployments(ClusterPart(Expanded(defs, out), cluster), ClusterPart(Expanded(defs, ms), cluster))
  {
    hide Expanded, PutBack, AllDefined, SameDeployments, ClusterPart, KeyedManifests, HasSpec;
    hide Agree, AllCarry, AllStripAlike, Placed, KeyedDeployments;
    ExpandedSound(defs, ms);
    PutGet(defs, Expanded(defs, ms), ms, out);
    ExpandedKeyed(defs, out);
    SameByCluster(Expanded(defs, out), Expanded(defs, ms));
  }

  lemma ExpandedKeyed(defs: Clusters, ms: Manifests)
    requires Expandable(defs, ms)
    ensures KeyedDeployments(Expanded(defs, ms))
  {
    hide Expanded, Built;
    ExpandedFacts(defs, ms);
  }

  /** What an expansion yields always meets the conditions of put-get. */
  lemma ExpandedSound(defs: Clusters, ms: Manifests)
    requires Expandable(defs, ms)
    ensures var base := Expanded(defs, ms);
            && KeyedDeployments(base) && Placed(defs, base) && Agree(base)
            && AllCarry(defs, base) && AllStripAlike(defs, base, ms)
  {
    hide Expanded, BuiltConfig, ReadsBack;
    ExpandedFacts(defs, ms);
    ReadBackEach(defs, ms, Expanded(defs, ms));
    forall id | id in Expanded(defs, ms) ensures ReadsBack(defs, ms, id, Expanded(defs, ms)[id]) {
      ExpandedReadsBack(defs, ms, id);
    }
  }
}
