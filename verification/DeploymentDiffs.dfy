/** lib/deployment_diff.go and lib/deployable_pair.go: comparing two sets of deployments. */
module DeploymentDiffs {
  import opened Types
  import opened Differences

  datatype DeployStatus = AnyStatus | Pending | Active | Failed

  datatype Deployable = Deployable(status: DeployStatus, deployment: Deployment, artifact: Option<BuildArtifact>)

  datatype DeployState = DeployState(deployment: Deployment, status: DeployStatus, executorData: Option<string>)

  type DeployStates = map<DeploymentID, DeployState>

  datatype DeployablePair = DeployablePair(
    name: DeploymentID,
    prior: Option<Deployable>,
    post: Option<Deployable>,
    executorData: Option<string>)

  datatype PairKind = SameKind | AddedKind | RemovedKind | ModifiedKind

  ghost predicate KeyedStates(ds: DeployStates) {
    forall id | id in ds :: ds[id].deployment.ID() == id
  }

  // ---------------------------------------------------------------- classification

  /** Comparing the two sides does not panic. */
  predicate Comparable(p: DeployablePair) {
    p.prior.Some? && p.post.Some? ==> p.prior.value.deployment.ID() == p.post.value.deployment.ID()
  }

  ghost predicate Modified(read: Reader, prior: Deployable, post: Deployable) {
    prior.status != post.status || AnyDifference(read, prior.deployment, post.deployment)
  }

  ghost function KindOf(read: Reader, p: DeployablePair): PairKind {
    if p.prior.None? then AddedKind
    else if p.post.None? then RemovedKind
    else if Modified(read, p.prior.value, p.post.value) then ModifiedKind
    else SameKind
  }

  /** `(*DeployablePair).Diffs`; the last entry of the source's list is the status. */
  method Diffs(read: Reader, prior: Deployable, post: Deployable) returns (diffs: seq<Difference>, status: bool)
    requires prior.deployment.ID() == post.deployment.ID()
    ensures forall t :: t in diffs <==> Differs(read, prior.deployment, post.deployment, t)
    ensures diffs != [] || status <==> Modified(read, prior, post)
  {
    var different;
    different, diffs := DeploymentDiff(read, prior.deployment, post.deployment);
    if diffs != [] {
      assert diffs[0] in diffs;
    }
    status := prior.status != post.status;
  }

  /** `(*DeployablePair).Kind`. */
  method Kind(read: Reader, p: DeployablePair) returns (k: PairKind)
    requires Comparable(p)
    ensures k == KindOf(read, p)
  {
    if p.prior.None? {
      return AddedKind;
    }
    if p.post.None? {
      return RemovedKind;
    }
    var diffs, status := Diffs(read, p.prior.value, p.post.value);
    if |diffs| != 0 || status {
      return ModifiedKind;
    }
    return SameKind;
  }

  // ---------------------------------------------------------------- exact lists of pairs

  predicate Occurs(pairs: seq<DeployablePair>, id: DeploymentID) {
    exists i :: 0 <= i < |pairs| && pairs[i].name == id
  }

  /** `pairs` lists the values of `m` under the keys `ids`, each once. */
  ghost predicate ExactlyOn(pairs: seq<DeployablePair>, m: map<DeploymentID, DeployablePair>, ids: set<DeploymentID>) {
    && ids <= m.Keys
    && (forall i | 0 <= i < |pairs| :: pairs[i].name in ids && m[pairs[i].name] == pairs[i])
    && (forall i, j | 0 <= i < j < |pairs| :: pairs[i].name != pairs[j].name)
    && (forall id | id in ids :: Occurs(pairs, id))
  }

  ghost predicate Exactly(pairs: seq<DeployablePair>, m: map<DeploymentID, DeployablePair>) {
    ExactlyOn(pairs, m, m.Keys)
  }

  lemma NoneYet(m: map<DeploymentID, DeployablePair>)
    ensures ExactlyOn([], m, {})
  {}

  lemma OneMore(pairs: seq<DeployablePair>, m: map<DeploymentID, DeployablePair>, ids: set<DeploymentID>,
                id: DeploymentID)
    requires ExactlyOn(pairs, m, ids) && id !in ids && id in m && m[id].name == id
    ensures ExactlyOn(pairs + [m[id]], m, ids + {id})
  {
    var longer := pairs + [m[id]];
    forall other | other in ids + {id} ensures Occurs(longer, other) {
      if other == id {
        assert longer[|pairs|].name == id;
      } else {
        var i :| 0 <= i < |pairs| && pairs[i].name == other;
        assert longer[i].name == other;
      }
    }
  }

  function Deployed(d: Deployment, status: DeployStatus): Option<Deployable> { Some(Deployable(status, d, None)) }

  function RemovalOf(s: DeployState, executorData: Option<string>): DeployablePair {
    DeployablePair(s.deployment.ID(), Deployed(s.deployment, s.status), None, executorData)
  }

  /** The pairs a comparison of states owes: one for each identity on either side. */
  function StatePairs(from: DeployStates, existing: DeployStates): map<DeploymentID, DeployablePair> {
    map id | id in from.Keys + existing.Keys ::
      if id !in existing then RemovalOf(from[id], from[id].executorData)
      else MakeDeployablePair(id, existing[id], if id in from then Some(from[id]) else None)
  }

  /** `makeDeployablePair`. */
  function MakeDeployablePair(id: DeploymentID, existing: DeployState, intended: Option<DeployState>): DeployablePair {
    DeployablePair(id,
      if intended.Some? then Deployed(intended.value.deployment, intended.value.status) else None,
      Deployed(existing.deployment, existing.status),
      if intended.Some? then intended.value.executorData else None)
  }

  lemma StatePairsKeys(from: DeployStates, existing: DeployStates)
    ensures StatePairs(from, existing).Keys == from.Keys + existing.Keys
  {}

  lemma StatePairAt(from: DeployStates, existing: DeployStates, id: DeploymentID)
    requires KeyedStates(from) && (id in from || id in existing)
    ensures id in StatePairs(from, existing) && StatePairs(from, existing)[id].name == id
    ensures StatePairs(from, existing)[id]
            == if id !in existing then RemovalOf(from[id], from[id].executorData)
               else MakeDeployablePair(id, existing[id], if id in from then Some(from[id]) else None)
  {}

  class StateDiffer {
    var from: DeployStates
    var pairs: seq<DeployablePair>     // sent so far

    /** `newStateDiffer`. */
    constructor (intended: DeployStates)
      requires KeyedStates(intended)
      ensures from == intended && pairs == []
    {
      var startMap: DeployStates := map[];
      var rest := intended.Keys;
      while rest != {}
        invariant rest <= intended.Keys && startMap == map id | id in intended.Keys - rest :: intended[id]
        decreases rest
      {
        var id :| id in rest;
        startMap := startMap[intended[id].deployment.ID() := intended[id]];
        rest := rest - {id};
      }
      from, pairs := startMap, [];
    }

    method Diff(existing: DeployStates)
      requires KeyedStates(from) && KeyedStates(existing) && pairs == []
      modifies this
      ensures Exactly(pairs, StatePairs(old(from), existing))
      ensures from == old(from) - existing.Keys
    {
      ghost var start := from;
      ghost var all := StatePairs(start, existing);
      StatePairsKeys(start, existing);
      ghost var sent: set<DeploymentID> := {};
      NoneYet(all);
      hide ExactlyOn, StatePairs, MakeDeployablePair, RemovalOf, KeyedStates;
      var rest := existing.Keys;
      while rest != {}
        invariant rest <= existing.Keys && from == start - (existing.Keys - rest)
        invariant sent == existing.Keys - rest && ExactlyOn(pairs, all, sent)
        decreases rest
      {
        var id :| id in rest;
        var intended := if id in from then Some(from[id]) else None;
        var p := MakeDeployablePair(id, existing[id], intended);
        StatePairAt(start, existing, id);
        OneMore(pairs, all, sent, id);
        pairs, sent := pairs + [p], sent + {id};
        from := from - {id};
        rest := rest - {id};
      }
      rest := from.Keys;
      while rest != {}
        invariant rest <= from.Keys && from == start - existing.Keys
        invariant sent == existing.Keys + (from.Keys - rest) && ExactlyOn(pairs, all, sent)
        decreases rest
      {
        var id :| id in rest;
        var p := RemovalOf(from[id], from[id].executorData);
        StatePairAt(start, existing, id);
        OneMore(pairs, all, sent, id);
        pairs, sent := pairs + [p], sent + {id};
        rest := rest - {id};
      }
      assert sent == all.Keys;
    }
  }

  /** `promoteAll`. */
  method PromoteAll(d: Deployments, to: DeployStatus) returns (rds: DeployStates)
    requires KeyedDeployments(d)
    ensures rds == Promoted(d, to)
    ensures KeyedStates(rds)
  {
    rds := map[];
    var rest := d.Keys;
    while rest != {}
      invariant rest <= d.Keys && rds == map id | id in d.Keys - rest :: DeployState(d[id], to, None)
      decreases rest
    {
      var id :| id in rest;
      var ds := DeployState(d[id], to, None);
      if ds.deployment.ID() !in rds {         // Add leaves an entry that is there already
        rds := rds[ds.deployment.ID() := ds];
      }
      rest := rest - {id};
    }
  }

  function Promoted(d: Deployments, to: DeployStatus): DeployStates {
    map id | id in d :: DeployState(d[id], to, None)
  }

  /** `DeployStates.Diff`: what runs against what is intended. */
  method DiffStates(d: DeployStates, other: Deployments) returns (pairs: seq<DeployablePair>)
    requires KeyedStates(d) && KeyedDeployments(other)
    ensures Exactly(pairs, StatePairs(d, Promoted(other, Active)))
  {
    var differ := new StateDiffer(d);
    var active := PromoteAll(other, Active);
    differ.Diff(active);
    pairs := differ.pairs;
  }

  // ---------------------------------------------------------------- comparing deployments

  function Lookup<K, V>(m: map<K, V>, k: K): Option<V> { if k in m then Some(m[k]) else None }

  /** The pair for one identity, known before, existing now, or both. When nothing differs, the
      prior deployment stands on both sides. */
  ghost function DeploymentPair(read: Reader, id: DeploymentID, known: Option<Deployment>,
                                existing: Option<Deployment>): DeployablePair {
    var prior := if known.Some? then Deployed(known.value, Active) else None;
    var post := if existing.None? then None
                else if known.Some? && !AnyDifference(read, existing.value, known.value) then prior
                else Deployed(existing.value, Active);
    DeployablePair(id, prior, post, None)
  }

  /** The pairs a comparison of deployments owes. */
  ghost function DeploymentPairs(read: Reader, from: Deployments, existing: Deployments)
      : map<DeploymentID, DeployablePair> {
    map id | id in from.Keys + existing.Keys :: DeploymentPair(read, id, Lookup(from, id), Lookup(existing, id))
  }

  lemma DeploymentPairsKeys(read: Reader, from: Deployments, existing: Deployments)
    ensures DeploymentPairs(read, from, existing).Keys == from.Keys + existing.Keys
  {}

  lemma DeploymentPairAt(read: Reader, from: Deployments, existing: Deployments, id: DeploymentID)
    requires id in from || id in existing
    ensures id in DeploymentPairs(read, from, existing) && DeploymentPairs(read, from, existing)[id].name == id
    ensures DeploymentPairs(read, from, existing)[id]
            == DeploymentPair(read, id, Lookup(from, id), Lookup(existing, id))
  {}

  /** What the loop over the existing deployments sends. */
  method PairExisting(read: Reader, id: DeploymentID, existing: Deployment,
                      known: Option<DeployState>) returns (p: DeployablePair)
    requires known.Some? ==> known.value.status == Active && known.value.deployment.ID() == existing.ID()
    ensures p == DeploymentPair(read, id, if known.Some? then Some(known.value.deployment) else None, Some(existing))
  {
    if known.None? {
      return DeployablePair(id, None, Deployed(existing, Active), None);
    }
    var different, _ := DeploymentDiff(read, existing, known.value.deployment);
    var prior := Deployed(known.value.deployment, known.value.status);
    p := DeployablePair(id, prior, if different then Deployed(existing, Active) else prior, None);
  }

  class Differ {
    var from: DeployStates
    var pairs: seq<DeployablePair>

    /** `newDiffer`. */
    constructor (intended: Deployments)
      requires KeyedDeployments(intended)
      ensures from == Promoted(intended, Active) && pairs == []
    {
      var startMap: DeployStates := map[];
      var rest := intended.Keys;
      while rest != {}
        invariant rest <= intended.Keys
                  && startMap == map id | id in intended.Keys - rest :: DeployState(intended[id], Active, None)
        decreases rest
      {
        var id :| id in rest;
        startMap := startMap[intended[id].ID() := DeployState(intended[id], Active, None)];
        rest := rest - {id};
      }
      from, pairs := startMap, [];
    }

    method Diff(read: Reader, existing: Deployments, ghost intended: Deployments)
      requires KeyedDeployments(intended) && KeyedDeployments(existing)
      requires from == Promoted(intended, Active) && pairs == []
      modifies this
      ensures Exactly(pairs, DeploymentPairs(read, intended, existing))
    {
      ghost var start := from;
      ghost var all := DeploymentPairs(read, intended, existing);
      DeploymentPairsKeys(read, intended, existing);
      PromotedKeys(intended, Active);
      ghost var sent: set<DeploymentID> := {};
      NoneYet(all);
      hide ExactlyOn, DeploymentPairs, DeploymentPair, RemovalOf, Promoted, KeyedDeployments;
      var rest := existing.Keys;
      while rest != {}
        invariant rest <= existing.Keys && from == start - (existing.Keys - rest)
        invariant sent == existing.Keys - rest && ExactlyOn(pairs, all, sent)
        decreases rest
      {
        var id :| id in rest;
        DeploymentPairAt(read, intended, existing, id);
        PromotedAt(intended, existing, id);
        var p := PairExisting(read, id, existing[id], Lookup(from, id));
        OneMore(pairs, all, sent, id);
        pairs, sent := pairs + [p], sent + {id};
        from := from - {id};
        rest := rest - {id};
      }
      rest := from.Keys;
      while rest != {}
        invariant rest <= from.Keys && from == start - existing.Keys
        invariant sent == existing.Keys + (from.Keys - rest) && ExactlyOn(pairs, all, sent)
        decreases rest
      {
        var id :| id in rest;
        var p := RemovalOf(from[id], None);
        DeploymentPairAt(read, intended, existing, id);
        RemovedPair(read, intended, existing, id);
        OneMore(pairs, all, sent, id);
        pairs, sent := pairs + [p], sent + {id};
        rest := rest - {id};
      }
      assert sent == all.Keys;
    }
  }

  lemma PromotedKeys(d: Deployments, to: DeployStatus)
    ensures Promoted(d, to).Keys == d.Keys
  {}

  lemma PromotedAt(d: Deployments, existing: Deployments, id: DeploymentID)
    requires KeyedDeployments(d) && KeyedDeployments(existing) && id in existing
    ensures id in Promoted(d, Active) <==> id in d
    ensures id in d ==> Promoted(d, Active)[id] == DeployState(d[id], Active, None) && d[id].ID() == existing[id].ID()
  {}

  lemma RemovedPair(read: Reader, from: Deployments, existing: Deployments, id: DeploymentID)
    requires KeyedDeployments(from) && id !in existing && id in from
    ensures id in Promoted(from, Active)
    ensures RemovalOf(Promoted(from, Active)[id], None) == DeploymentPair(read, id, Some(from[id]), None)
  {}

  /** `Deployments.Diff`. */
  method DiffDeployments(read: Reader, d: Deployments, other: Deployments) returns (pairs: seq<DeployablePair>)
    requires KeyedDeployments(d) && KeyedDeployments(other)
    ensures Exactly(pairs, DeploymentPairs(read, d, other))
  {
    var differ := new Differ(d);
    differ.Diff(read, other, d);
    pairs := differ.pairs;
  }

  // ---------------------------------------------------------------- what the pairs mean

  /** Carrying out pairs on a set of deployments, one after the other. */
  function Apply(pairs: seq<DeployablePair>, ds: Deployments): Deployments {
    if pairs == [] then ds
    else
      var p := pairs[|pairs| - 1];
      var before := Apply(pairs[..|pairs| - 1], ds);
      if p.post.Some? then before[p.name := p.post.value.deployment] else before - {p.name}
  }

  ghost predicate DistinctNames(pairs: seq<DeployablePair>) {
    forall i, j | 0 <= i < j < |pairs| :: pairs[i].name != pairs[j].name
  }

  lemma {:induction false} ApplyElsewhere(pairs: seq<DeployablePair>, ds: Deployments, id: DeploymentID)
    requires !Occurs(pairs, id)
    ensures Lookup(Apply(pairs, ds), id) == Lookup(ds, id)
  {
    if pairs != [] {
      var n := |pairs| - 1;
      assert forall i | 0 <= i < n :: pairs[..n][i] == pairs[i];
      ApplyElsewhere(pairs[..n], ds, id);
    }
  }

  lemma {:induction false} ApplyAt(pairs: seq<DeployablePair>, ds: Deployments, i: nat)
    requires i < |pairs| && DistinctNames(pairs)
    ensures Lookup(Apply(pairs, ds), pairs[i].name)
            == if pairs[i].post.Some? then Some(pairs[i].post.value.deployment) else None
  {
    var n := |pairs| - 1;
    if i < n {
      assert pairs[i].name != pairs[n].name;
      ApplyAt(pairs[..n], ds, i);
    }
  }

  /** Carrying out an exact list gives each identity the post side of its pair, in any order. */
  lemma ApplyExactly(pairs: seq<DeployablePair>, m: map<DeploymentID, DeployablePair>, ds: Deployments,
                     id: DeploymentID)
    requires Exactly(pairs, m)
    ensures Lookup(Apply(pairs, ds), id)
            == if id !in m then Lookup(ds, id)
               else if m[id].post.Some? then Some(m[id].post.value.deployment) else None
  {
    if id in m {
      assert Occurs(pairs, id);
      var i :| 0 <= i < |pairs| && pairs[i].name == id;
      ApplyAt(pairs, ds, i);
    } else {
      ApplyElsewhere(pairs, ds, id);
    }
  }

  function DeploymentsOf(states: DeployStates): Deployments {
    map id | id in states :: states[id].deployment
  }

  /** The pairs lead from the prior set to the target set, whatever order they are taken in. */
  lemma StatePairsLeadThere(pairs: seq<DeployablePair>, from: DeployStates, existing: DeployStates)
    requires Exactly(pairs, StatePairs(from, existing))
    ensures Apply(pairs, DeploymentsOf(from)) == DeploymentsOf(existing)
  {
    var (applied, target) := (Apply(pairs, DeploymentsOf(from)), DeploymentsOf(existing));
    forall id ensures Lookup(applied, id) == Lookup(target, id) {
      ApplyExactly(pairs, StatePairs(from, existing), DeploymentsOf(from), id);
    }
    SameLookups(applied, target);
  }

  lemma SameLookups<K, V>(a: map<K, V>, b: map<K, V>)
    requires forall k :: Lookup(a, k) == Lookup(b, k)
    ensures a == b
  {
    forall k ensures k in a <==> k in b { assert Lookup(a, k) == Lookup(b, k); }
    forall k | k in a ensures a[k] == b[k] { assert Lookup(a, k) == Lookup(b, k); }
  }

  /** So do the pairs of two sets of deployments, up to deployments without a difference. */
  lemma DeploymentPairsLeadThere(read: Reader, pairs: seq<DeployablePair>, from: Deployments, existing: Deployments)
    requires Exactly(pairs, DeploymentPairs(read, from, existing))
    ensures Apply(pairs, from).Keys == existing.Keys
    ensures forall id | id in existing ::
              var got := Apply(pairs, from)[id];
              got == existing[id] || (id in from && got == from[id] && !AnyDifference(read, existing[id], got))
  {
    hide Apply, AnyDifference;
    var applied := Apply(pairs, from);
    forall id ensures id in applied <==> id in existing {
      ApplyExactly(pairs, DeploymentPairs(read, from, existing), from, id);
    }
    forall id | id in existing
      ensures applied[id] == existing[id]
              || (id in from && applied[id] == from[id] && !AnyDifference(read, existing[id], applied[id]))
    {
      ApplyExactly(pairs, DeploymentPairs(read, from, existing), from, id);
    }
  }

  /** Classifying a pair never panics, and its kind says which side has the identity and
      whether the two sides differ. */
  lemma StatePairKinds(read: Reader, from: DeployStates, existing: DeployStates, id: DeploymentID)
    requires KeyedStates(from) && KeyedStates(existing) && (id in from || id in existing)
    ensures id in StatePairs(from, existing) && Comparable(StatePairs(from, existing)[id])
    ensures match KindOf(read, StatePairs(from, existing)[id])
            case AddedKind => id !in from
            case RemovedKind => id in from && id !in existing
            case ModifiedKind => id in from && id in existing
                                 && (from[id].status != existing[id].status
                                     || AnyDifference(read, from[id].deployment, existing[id].deployment))
            case SameKind => id in from && id in existing && from[id].status == existing[id].status
                             && !AnyDifference(read, from[id].deployment, existing[id].deployment)
  {
    hide AnyDifference;
  }

  lemma DeploymentPairKinds(read: Reader, from: Deployments, existing: Deployments, id: DeploymentID)
    requires KeyedDeployments(from) && KeyedDeployments(existing) && (id in from || id in existing)
    ensures id in DeploymentPairs(read, from, existing) && Comparable(DeploymentPairs(read, from, existing)[id])
    ensures match KindOf(read, DeploymentPairs(read, from, existing)[id])
            case AddedKind => id !in from
            case RemovedKind => id in from && id !in existing
            case ModifiedKind => id in from && id in existing && AnyDifference(read, from[id], existing[id])
            case SameKind => id in from && id in existing && !AnyDifference(read, from[id], existing[id])
  {
    if id in from && id in existing {
      DifferenceSymmetric(read, from[id], existing[id]);
    }
    hide AnyDifference;
  }

  ghost predicate IsOf(side: Option<Deployable>, d: Deployment, status: DeployStatus) {
    side.Some? && side.value.deployment == d && side.value.status == status && side.value.artifact == None
  }

  /** What the two sides of a pair are, and whose executor data it carries: the known state's. */
  lemma StatePairSides(from: DeployStates, existing: DeployStates, id: DeploymentID)
    requires KeyedStates(from) && (id in from || id in existing)
    ensures id in StatePairs(from, existing) && StatePairs(from, existing)[id].name == id
    ensures var p := StatePairs(from, existing)[id];
            && (if id in from then IsOf(p.prior, from[id].deployment, from[id].status) else p.prior == None)
            && (if id in existing then IsOf(p.post, existing[id].deployment, existing[id].status) else p.post == None)
            && p.executorData == if id in from then from[id].executorData else None
  {}

  lemma DeploymentPairSides(read: Reader, from: Deployments, existing: Deployments, id: DeploymentID)
    requires id in from || id in existing
    ensures id in DeploymentPairs(read, from, existing) && DeploymentPairs(read, from, existing)[id].name == id
    ensures var p := DeploymentPairs(read, from, existing)[id];
            && (if id in from then IsOf(p.prior, from[id], Active) else p.prior == None)
            && (if id !in existing then p.post == None
                else if id in from && !AnyDifference(read, existing[id], from[id]) then IsOf(p.post, from[id], Active)
                else IsOf(p.post, existing[id], Active))
            && p.executorData == None
  {
    hide AnyDifference;
  }

  /** A set compared with itself yields unchanged pairs only. */
  lemma SelfDiff(read: Reader, states: DeployStates, ds: Deployments)
    requires KeyedStates(states) && KeyedDeployments(ds)
    ensures forall id | id in StatePairs(states, states) :: KindOf(read, StatePairs(states, states)[id]) == SameKind
    ensures forall id | id in DeploymentPairs(read, ds, ds) ::
              KindOf(read, DeploymentPairs(read, ds, ds)[id]) == SameKind
  {
    forall id | id in states ensures KindOf(read, StatePairs(states, states)[id]) == SameKind {
      DifferenceSymmetric(read, states[id].deployment, states[id].deployment);
      StatePairKinds(read, states, states, id);
    }
    forall id | id in ds ensures KindOf(read, DeploymentPairs(read, ds, ds)[id]) == SameKind {
      DifferenceSymmetric(read, ds[id], ds[id]);
      DeploymentPairKinds(read, ds, ds, id);
    }
  }

  /** What runs needs no change exactly when it is active, intended and without a difference. */
  lemma SettledIffActive(read: Reader, running: DeployStates, intended: Deployments, id: DeploymentID)
    requires KeyedStates(running) && KeyedDeployments(intended) && (id in running || id in intended)
    ensures id in StatePairs(running, Promoted(intended, Active))
    ensures KindOf(read, StatePairs(running, Promoted(intended, Active))[id]) == SameKind
            <==> id in running && id in intended && running[id].status == Active
                 && !AnyDifference(read, running[id].deployment, intended[id])
  {
    StatePairKinds(read, running, Promoted(intended, Active), id);
    hide AnyDifference;
  }
}
