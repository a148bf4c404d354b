/** lib/nameresolver.go: finding the artifact for every deployment that is to be created or
    changed, as a segment of the pipeline. */
module NameResolver {
  import opened Types
  import opened Differences
  import opened DeploymentDiffs
  import opened Pipeline
  import opened OwnerSets

  /** The artifact for a source, unless the registry reports an error. */
  type Registry = SourceID -> Option<BuildArtifact>

  datatype ResolveError =
    | NilDeployable
    | MissingImageName
    | NilCluster
    | UnacceptableAdvisory(quality: Quality, source: SourceID)

  datatype DiffResolution = DiffResolution(id: Option<DeploymentID>, error: ResolveError)

  datatype Guarded = Accepted(artifact: Option<BuildArtifact>) | Refused(error: ResolveError)

  predicate Advises(q: Quality) { q.kind == "advisory" && q.name != "" }

  predicate Allowed(d: Deployment, q: Quality) {
    Advises(q) ==> d.cluster.Some? && q.name in d.cluster.value.allowedAdvisories
  }

  /** The artifact's first advisory that the deployment's cluster does not allow. */
  function Objection(d: Deployment, qs: seq<Quality>): Option<Quality> {
    if qs == [] then None else if !Allowed(d, qs[0]) then Some(qs[0]) else Objection(d, qs[1..])
  }

  lemma {:induction false} ObjectionSnoc(d: Deployment, qs: seq<Quality>, q: Quality, later: seq<Quality>)
    requires Objection(d, qs) == None
    ensures Allowed(d, q) ==> Objection(d, qs + [q]) == None
    ensures !Allowed(d, q) ==> Objection(d, qs + [q] + later) == Some(q)
  {
    if qs == [] {
      assert ([] + [q] + later)[0] == q;
    } else {
      ObjectionSnoc(d, qs[1..], q, later);
      assert (qs + [q])[1..] == qs[1..] + [q];
      assert (qs + [q] + later)[1..] == qs[1..] + [q] + later;
    }
  }

  /** There is no objection exactly when the cluster allows every advisory. */
  lemma {:induction false} NoObjection(d: Deployment, qs: seq<Quality>)
    ensures Objection(d, qs) == None <==> forall q | q in qs :: Allowed(d, q)
  {
    if qs != [] {
      NoObjection(d, qs[1..]);
      assert qs == [qs[0]] + qs[1..];
    }
  }

  /** What `guardImage` has to decide. */
  function Judged(r: Registry, d: Deployment): Guarded {
    if d.config.numInstances == 0 then Accepted(None)
    else if r(d.sourceID).None? then Refused(MissingImageName)
    else
      var objection := Objection(d, r(d.sourceID).value.qualities);
      if objection.None? then Accepted(r(d.sourceID))
      else if d.cluster.None? then Refused(NilCluster)
      else Refused(UnacceptableAdvisory(objection.value, d.sourceID))
  }

  /** Every advisory of the artifact is one that the deployment's cluster allows. */
  ghost predicate AdvisoriesAllowed(d: Deployment, art: BuildArtifact) {
    forall q | q in art.qualities && q.kind == "advisory" && q.name != "" ::
      d.cluster.Some? && q.name in d.cluster.value.allowedAdvisories
  }

  /** An image is accepted exactly if nothing is to run, or the registry has it and every advisory is
      allowed; and what is refused is refused for the reason there is. */
  lemma JudgedMeans(r: Registry, d: Deployment)
    ensures Judged(r, d).Accepted?
            <==> d.config.numInstances == 0 || (r(d.sourceID).Some? && AdvisoriesAllowed(d, r(d.sourceID).value))
    ensures match Judged(r, d)
            case Accepted(art) => art == if d.config.numInstances == 0 then None else r(d.sourceID)
            case Refused(MissingImageName) => r(d.sourceID) == None
            case Refused(NilCluster) => r(d.sourceID).Some? && d.cluster == None
            case Refused(UnacceptableAdvisory(q, source)) =>
              && source == d.sourceID && r(d.sourceID).Some? && q in r(d.sourceID).value.qualities
              && q.kind == "advisory" && q.name != ""
              && d.cluster.Some? && q.name !in d.cluster.value.allowedAdvisories
            case Refused(NilDeployable) => false
  {
    if r(d.sourceID).Some? {
      var qs := r(d.sourceID).value.qualities;
      NoObjection(d, qs);
      ObjectionFirst(d, qs);
      assert AdvisoriesAllowed(d, r(d.sourceID).value) <==> forall q | q in qs :: Allowed(d, q) by {
        hide Objection;
        if AdvisoriesAllowed(d, r(d.sourceID).value) {
          forall q | q in qs ensures Allowed(d, q) {}
        }
        if forall q | q in qs :: Allowed(d, q) {
          forall q | q in qs && q.kind == "advisory" && q.name != ""
            ensures d.cluster.Some? && q.name in d.cluster.value.allowedAdvisories
          {
            assert Allowed(d, q);
          }
        }
      }
    }
    hide Objection, AdvisoriesAllowed;
  }

  /** The objection is the first advisory that is not allowed. */
  lemma {:induction false} ObjectionFirst(d: Deployment, qs: seq<Quality>)
    ensures Objection(d, qs).Some? ==>
              exists i :: 0 <= i < |qs| && Objection(d, qs) == Some(qs[i]) && !Allowed(d, qs[i])
                          && forall j | 0 <= j < i :: Allowed(d, qs[j])
  {
    if qs != [] && Allowed(d, qs[0]) {
      ObjectionFirst(d, qs[1..]);
      if Objection(d, qs).Some? {
        var i :| 0 <= i < |qs[1..]| && Objection(d, qs[1..]) == Some(qs[1..][i]) && !Allowed(d, qs[1..][i])
                 && forall j | 0 <= j < i :: Allowed(d, qs[1..][j]);
        assert qs[i + 1] == qs[1..][i];
        forall j | 0 <= j < i + 1 ensures Allowed(d, qs[j]) {
          if j > 0 { assert qs[1..][j - 1] == qs[j]; }
        }
      }
    }
  }

  method GuardImage(r: Registry, d: Deployment) returns (g: Guarded)
    ensures g == Judged(r, d)
  {
    if d.config.numInstances == 0 {
      return Accepted(None);
    }
    var found := r(d.sourceID);
    if found.None? {
      return Refused(MissingImageName);
    }
    var qs := found.value.qualities;
    for i := 0 to |qs|
      invariant Objection(d, qs[..i]) == None
    {
      var q := qs[i];
      assert qs == qs[..i] + [q] + qs[i + 1..] && qs[..i + 1] == qs[..i] + [q];
      ObjectionSnoc(d, qs[..i], q, qs[i + 1..]);
      if q.kind != "advisory" || q.name == "" {
        continue;
      }
      if d.cluster.None? {
        return Refused(NilCluster);
      }
      var valid := AdvisoryIsValid(d.cluster.value.allowedAdvisories, q.name);
      if !valid {
        return Refused(UnacceptableAdvisory(q, d.sourceID));
      }
    }
    assert qs[..|qs|] == qs;
    return Accepted(found);
  }

  method AdvisoryIsValid(allowed: seq<string>, name: string) returns (valid: bool)
    ensures valid <==> name in allowed
  {
    valid := false;
    for i := 0 to |allowed|
      invariant !valid && name !in allowed[..i]
    {
      if allowed[i] == name {
        valid := true;
        break;
      }
    }
  }

  /** `resolveName`: the deployable with its artifact, or the resolution that says why not. */
  method ResolveName(r: Registry, d: Option<Deployable>) returns (named: Option<Deployable>,
                                                                  rez: Option<DiffResolution>)
    ensures d.None? ==> named == None && rez == Some(DiffResolution(None, NilDeployable))
    ensures d.Some? ==>
              match Judged(r, d.value.deployment)
              case Accepted(art) => rez == None && named == Some(d.value.(artifact := art))
              case Refused(error) => rez == Some(DiffResolution(Some(d.value.deployment.ID()), error)) && named == d
  {
    if d.None? {
      return None, Some(DiffResolution(None, NilDeployable));
    }
    var g := GuardImage(r, d.value.deployment);
    if g.Refused? {
      return d, Some(DiffResolution(Some(d.value.deployment.ID()), g.error));
    }
    return Some(d.value.(artifact := g.artifact)), None;
  }

  /** What becomes of a pair: pairs that deploy something get their artifact or are refused,
      the others pass unchanged. */
  ghost function Resolved(read: Reader, r: Registry, p: DeployablePair): Processed<DeployablePair, DiffResolution> {
    if KindOf(read, p) == SameKind || KindOf(read, p) == RemovedKind || p.post.None? then Processed(Some(p), None)
    else
      match Judged(r, p.post.value.deployment)
      case Accepted(art) => Processed(Some(p.(post := Some(p.post.value.(artifact := art)))), None)
      case Refused(error) => Processed(None, Some(DiffResolution(Some(p.post.value.deployment.ID()), error)))
  }

  /** `HandlePairs`, which panics on a pair without either side. */
  method HandlePairs(read: Reader, r: Registry, dp: DeployablePair) returns (out: Processed<DeployablePair,
                                                                             DiffResolution>)
    requires Comparable(dp) && (dp.prior.Some? || dp.post.Some?)
    ensures out == Resolved(read, r, dp)
  {
    var kind := DeploymentDiffs.Kind(read, dp);
    var newImageName := dp.post;
    if kind == AddedKind || kind == ModifiedKind {
      var named, rez := ResolveName(r, dp.post);
      if rez.Some? {
        return Processed(None, rez);
      }
      newImageName := named;
    }
    return Processed(Some(dp.(post := newImageName)), None);
  }

  // ---------------------------------------------------------------- the whole segment

  /** A pair that may be deployed from. */
  ghost predicate MayDeploy(read: Reader, r: Registry, p: DeployablePair) {
    p.post.Some? && (KindOf(read, p) == AddedKind || KindOf(read, p) == ModifiedKind)
    ==> var d := p.post.value.deployment;
        d.config.numInstances == 0
        || (p.post.value.artifact.Some? && p.post.value.artifact == r(d.sourceID)
            && forall q | q in p.post.value.artifact.value.qualities :: Allowed(d, q))
  }

  lemma PassedIsNamed(read: Reader, r: Registry, p: DeployablePair)
    requires Resolved(read, r, p).pair.Some?
    ensures var q := Resolved(read, r, p).pair.value;
            && MayDeploy(read, r, q) && KindOf(read, q) == KindOf(read, p)
            && q.name == p.name && q.prior == p.prior && q.executorData == p.executorData
  {
    if p.post.Some? && r(p.post.value.deployment.sourceID).Some? {
      NoObjection(p.post.value.deployment, r(p.post.value.deployment.sourceID).value.qualities);
    }
    hide AnyDifference, Objection;
  }

  /** Which pairs must pass: those that deploy nothing, and those whose image is acceptable. */
  lemma PassesIff(read: Reader, r: Registry, p: DeployablePair)
    ensures Resolved(read, r, p).pair.Some?
            <==> || p.post.None? || KindOf(read, p) == SameKind
                 || p.post.value.deployment.config.numInstances == 0
                 || (r(p.post.value.deployment.sourceID).Some?
                     && AdvisoriesAllowed(p.post.value.deployment, r(p.post.value.deployment.sourceID).value))
    ensures Resolved(read, r, p).rez.Some? ==>
              p.post.Some? && Resolved(read, r, p).rez.value.id == Some(p.post.value.deployment.ID())
  {
    if p.post.Some? { JudgedMeans(r, p.post.value.deployment); }
    hide Judged, AdvisoriesAllowed, AnyDifference;
  }

  type NameProcessor = DeployablePair -> Processed<DeployablePair, DiffResolution>

  /** The pair is named after the deployment it is to become. */
  predicate NamedByPost(p: DeployablePair) {
    p.post.Some? ==> p.post.value.deployment.ID() == p.name
  }

  function Names(ps: seq<DeployablePair>): seq<Option<DeploymentID>> {
    seq(|ps|, i requires 0 <= i < |ps| => Some(ps[i].name))
  }

  function Ids(rezs: seq<DiffResolution>): seq<Option<DeploymentID>> {
    seq(|rezs|, i requires 0 <= i < |rezs| => rezs[i].id)
  }

  lemma NamesExtended(ps: seq<DeployablePair>, o: Option<DeployablePair>)
    ensures Names(Extended(ps, o)) == if o.Some? then Names(ps) + [Some(o.value.name)] else Names(ps)
  {}

  lemma IdsExtended(rezs: seq<DiffResolution>, o: Option<DiffResolution>)
    ensures Ids(Extended(rezs, o)) == if o.Some? then Ids(rezs) + [o.value.id] else Ids(rezs)
  {}

  /** Each pair is accounted for under its own name. */
  lemma OutcomeNamed(read: Reader, r: Registry, p: DeployablePair)
    requires NamedByPost(p)
    ensures var out := Resolved(read, r, p);
            match out.pair
            case Some(q) => out.rez.None? && q.name == p.name && MayDeploy(read, r, q)
            case None => out.rez.Some? && out.rez.value.id == Some(p.name)
  {
    if Resolved(read, r, p).pair.Some? { PassedIsNamed(read, r, p); }
  }

  lemma {:induction false} IdentitiesAddUp(read: Reader, r: Registry, proc: NameProcessor, ps: seq<DeployablePair>)
    requires forall p :: proc(p) == Resolved(read, r, p)
    requires forall p | p in ps :: NamedByPost(p)
    ensures multiset(Names(PairsOf(proc, ps))) + multiset(Ids(ErrsOf(proc, ps))) == multiset(Names(ps))
    ensures forall q | q in PairsOf(proc, ps) :: MayDeploy(read, r, q)
  {
    if ps != [] {
      var n := |ps| - 1;
      assert Names(ps) == Names(ps[..n]) + [Some(ps[n].name)];
      hide Resolved, MayDeploy, Names, Ids, NamedByPost;
      IdentitiesAddUp(read, r, proc, ps[..n]);
      OutcomeNamed(read, r, ps[n]);
      NamesExtended(PairsOf(proc, ps[..n]), proc(ps[n]).pair);
      IdsExtended(ErrsOf(proc, ps[..n]), proc(ps[n]).rez);
    }
  }

  /** After a finished, uncancelled run of the segment every input pair has come out exactly once,
      under its name as a pair or under its ID as an error, and no pair comes out that may not be
      deployed. */
  lemma EveryPairAccountedFor(read: Reader, r: Registry, proc: NameProcessor,
                              pairs: seq<DeployablePair>, errs: seq<DiffResolution>, es: seq<Event>)
    requires forall p :: proc(p) == Resolved(read, r, p)
    requires forall p | p in pairs :: NamedByPost(p)
    requires Run(proc, pairs, errs, es).Some?
    requires var s := Run(proc, pairs, errs, es).value; Finished(s) && !s.cancelled
    ensures var s := Run(proc, pairs, errs, es).value;
            && multiset(Names(s.gotPairs)) + multiset(Ids(From(s.gotErrs, Local))) == multiset(Names(pairs))
            && forall q | q in s.gotPairs :: MayDeploy(read, r, q)
  {
    NothingLost(proc, pairs, errs, es);
    IdentitiesAddUp(read, r, proc, pairs);
  }

  /** Fed with what a comparison of states yields, the segment settles every deployment that runs
      or is intended, exactly once. */
  lemma EveryDeploymentSettledOnce(read: Reader, r: Registry, proc: NameProcessor, from: DeployStates,
                                   existing: DeployStates, pairs: seq<DeployablePair>, errs: seq<DiffResolution>,
                                   es: seq<Event>)
    requires forall p :: proc(p) == Resolved(read, r, p)
    requires KeyedStates(from) && KeyedStates(existing) && Exactly(pairs, StatePairs(from, existing))
    requires Run(proc, pairs, errs, es).Some?
    requires var s := Run(proc, pairs, errs, es).value; Finished(s) && !s.cancelled
    ensures var s := Run(proc, pairs, errs, es).value;
            multiset(Names(s.gotPairs)) + multiset(Ids(From(s.gotErrs, Local)))
            == multiset(set id | id in from.Keys + existing.Keys :: Some(id))
  {
    ListedOnce(from, existing, pairs);
    hide Run, Exactly, StatePairs, KeyedStates;
    EveryPairAccountedFor(read, r, proc, pairs, errs, es);
  }

  lemma ListedOnce(from: DeployStates, existing: DeployStates, pairs: seq<DeployablePair>)
    requires KeyedStates(from) && KeyedStates(existing) && Exactly(pairs, StatePairs(from, existing))
    ensures forall p | p in pairs :: NamedByPost(p)
    ensures multiset(Names(pairs)) == multiset(set id | id in from.Keys + existing.Keys :: Some(id))
  {
    var ids := set id | id in from.Keys + existing.Keys :: Some(id);
    var names := Names(pairs);
    forall o ensures o in ids <==> o in names {
      if o in ids {
        assert Occurs(pairs, o.value);
        var i :| 0 <= i < |pairs| && pairs[i].name == o.value;
        assert names[i] == o;
      }
      if o in names {
        var i :| 0 <= i < |names| && names[i] == o;
        assert pairs[i].name in StatePairs(from, existing);
      }
    }
    assert (set o | o in names) == ids;
    DistinctListing(names);
  }
}
