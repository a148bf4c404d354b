/** ext/singularity/deployer.go: which Singularity calls a modification makes. */
module Rectification {
  import opened Types
  import opened Differences
  import opened DeploymentDiffs
  import Volumes

  /** `changesReq`: the Singularity request has to be posted again. */
  method ChangesReq(prior: Deployable, post: Deployable) returns (changes: bool)
    ensures changes <==> ReqChanged(prior.deployment, post.deployment)
  {
    var (was, now) := (prior.deployment, post.deployment);
    if was.kind == KIND_SCHEDULED && was.config.schedule != now.config.schedule {
      return true;
    }
    if was.kind != now.kind || was.config.numInstances != now.config.numInstances {
      return true;
    }
    var owners := OwnerDiff(was.owners, now.owners);
    return |owners| != 0;
  }

  ghost predicate ReqChanged(was: Deployment, now: Deployment) {
    || (was.kind == "scheduled" && was.config.schedule != now.config.schedule)
    || was.kind != now.kind
    || was.config.numInstances != now.config.numInstances
    || was.owners != now.owners
  }

  /** `changesDep`: a new deploy has to be made. */
  method ChangesDep(read: Reader, prior: Deployable, post: Deployable) returns (changes: bool)
    ensures changes <==> prior.status == Failed || post.status == Failed
                         || DepChanged(read, prior.deployment, post.deployment)
  {
    var (was, now) := (prior.deployment, post.deployment);
    SourceAndUse(read, was.sourceID, now.sourceID, was.config.resources, now.config.resources);
    hide SameUse, SameResources, SameSource;
    if post.status == Failed || prior.status == Failed || !was.sourceID.Equal(now.sourceID)
       || !SameResources(read, was.config.resources, now.config.resources)
    {
      return true;
    }
    var sameEnv := MapEqual(was.config.env, now.config.env);
    if !sameEnv {
      return true;
    }
    var vs := ArrayOf(was.config.volumes);
    var os := ArrayOf(now.config.volumes);
    var sameVolumes := Volumes.Equal(vs, os);
    if !sameVolumes {
      return true;
    }
    var checks := StartupDiff(was.config.startup, now.config.startup);
    NoChecksDiffer(was.config.startup, now.config.startup);
    if checks != [] {
      assert checks[0] in checks;
    }
    return |checks| != 0;
  }

  ghost predicate DepChanged(read: Reader, was: Deployment, now: Deployment) {
    || !SameSource(was.sourceID, now.sourceID)
    || !SameUse(read, was.config.resources, now.config.resources)
    || was.config.env != now.config.env
    || multiset(was.config.volumes) != multiset(now.config.volumes)
    || !SameChecks(was.config.startup, now.config.startup)
  }

  datatype Call = PostRequest | Deploy

  /** The client calls of `RectifySingleModification`, given whether posting a request succeeds. */
  method RectifySingleModification(read: Reader, prior: Deployable, post: Deployable,
                                   postSucceeds: bool) returns (calls: seq<Call>)
    requires prior.deployment.ID() == post.deployment.ID()
    ensures PostRequest in calls
            <==> exists t | OfRequest(t) :: Differs(read, post.deployment, prior.deployment, t)
    ensures Deploy in calls
            <==> (PostRequest in calls ==> postSucceeds)
                 && (prior.status == Failed || post.status == Failed
                     || exists t | OfDeploy(t) :: Differs(read, post.deployment, prior.deployment, t))
    ensures calls == (if PostRequest in calls then [PostRequest] else []) + (if Deploy in calls then [Deploy] else [])
  {
    RequestDifferences(read, prior.deployment, post.deployment);
    DeployDifferences(read, prior.deployment, post.deployment);
    calls := [];
    var req := ChangesReq(prior, post);
    hide Differs, ReqChanged, DepChanged;
    if req {
      calls := calls + [PostRequest];
      if !postSucceeds {
        return;
      }
    }
    var dep := ChangesDep(read, prior, post);
    if dep {
      calls := calls + [Deploy];
    }
  }

  // ---------------------------------------------------------------- no missed, no spurious calls

  predicate OfRequest(t: Difference) {
    t.Kind? || t.Schedule? || t.OwnerCount? || t.Owner? || t.NumInstances?
  }

  predicate OfDeploy(t: Difference) {
    t.Source? || t.Usage? || t.EnvVars? || t.VolumeList? || t.Check?
  }

  /** The request is posted exactly for differences in kind, schedule, owners and instances. */
  lemma RequestDifferences(read: Reader, was: Deployment, now: Deployment)
    requires was.ID() == now.ID()
    ensures ReqChanged(was, now) <==> exists t | OfRequest(t) :: Differs(read, now, was, t)
  {
    NoOwnersDiffer(now.owners, was.owners);
    hide ChecksDiffer, SameResources;
    if now.owners != was.owners {
      var t :| OwnersDiffer(now.owners, was.owners, t);
      assert OfRequest(t) && Differs(read, now, was, t);
    }
    assert Differs(read, now, was, Kind) <==> now.kind != was.kind;
    assert Differs(read, now, was, NumInstances) <==> now.config.numInstances != was.config.numInstances;
    assert Differs(read, now, was, Schedule)
           <==> now.kind == KIND_SCHEDULED && now.config.schedule != was.config.schedule;
  }

  lemma DeploySymmetric(read: Reader, was: Deployment, now: Deployment)
    ensures SameChecks(now.config.startup, was.config.startup) <==> SameChecks(was.config.startup, now.config.startup)
    ensures SameUse(read, now.config.resources, was.config.resources)
            <==> SameUse(read, was.config.resources, now.config.resources)
    ensures SameSource(now.sourceID, was.sourceID) <==> SameSource(was.sourceID, now.sourceID)
  {}

  /** A deploy is made exactly for differences in source, resources, env, volumes and checks. */
  lemma DeployDifferences(read: Reader, was: Deployment, now: Deployment)
    requires was.ID() == now.ID()
    ensures DepChanged(read, was, now) <==> exists t | OfDeploy(t) :: Differs(read, now, was, t)
  {
    NoChecksDiffer(now.config.startup, was.config.startup);
    SourceAndUse(read, was.sourceID, now.sourceID, was.config.resources, now.config.resources);
    SourceAndUse(read, now.sourceID, was.sourceID, now.config.resources, was.config.resources);
    DeploySymmetric(read, was, now);
    hide ChecksDiffer, SameChecks, SameUse, SameResources, SameSource;
    if f :| ChecksDiffer(now.config.startup, was.config.startup, f) {
      assert OfDeploy(Check(f)) && Differs(read, now, was, Check(f));
    }
    assert Differs(read, now, was, Source) <==> !now.sourceID.Equal(was.sourceID);
    assert Differs(read, now, was, Usage) <==> !SameResources(read, now.config.resources, was.config.resources);
    assert Differs(read, now, was, EnvVars) <==> now.config.env != was.config.env;
    assert Differs(read, now, was, VolumeList) <==> multiset(now.config.volumes) != multiset(was.config.volumes);
  }

  /** For deployments of one identity that have not failed, something is called for exactly
      when `Deployment.Diff` lists a difference other than metadata. */
  lemma RectifiesIffDifferent(read: Reader, was: Deployment, now: Deployment)
    requires was.ID() == now.ID()
    ensures ReqChanged(was, now) || DepChanged(read, was, now)
            <==> exists t | t != Metadata :: Differs(read, now, was, t)
  {
    RequestDifferences(read, was, now);
    DeployDifferences(read, was, now);
    forall t | t != Metadata && Differs(read, now, was, t)
      ensures OfRequest(t) || OfDeploy(t)
    {
      assert !t.ClusterName? && !t.Flavor?;
    }
    hide Differs, ReqChanged, DepChanged;
    if t :| OfRequest(t) && Differs(read, now, was, t) { assert t != Metadata; }
    if t :| OfDeploy(t) && Differs(read, now, was, t) { assert t != Metadata; }
  }

  /** So a pair can be classified as modified, again and again, with nothing ever called for:
      exactly when only metadata or the status differs. */
  lemma ModifiedWithoutEffect(read: Reader, p: DeployablePair)
    requires p.prior.Some? && p.post.Some? && Comparable(p)
    requires p.prior.value.status != Failed && p.post.value.status != Failed
    ensures KindOf(read, p) == ModifiedKind
            && !ReqChanged(p.prior.value.deployment, p.post.value.deployment)
            && !DepChanged(read, p.prior.value.deployment, p.post.value.deployment)
        <==> (p.prior.value.status != p.post.value.status
              || p.prior.value.deployment.config.metadata != p.post.value.deployment.config.metadata)
             && forall t :: Differs(read, p.post.value.deployment, p.prior.value.deployment, t) ==> t == Metadata
  {
    var (was, now) := (p.prior.value.deployment, p.post.value.deployment);
    RectifiesIffDifferent(read, was, now);
    DifferenceSymmetric(read, was, now);
    assert Differs(read, now, was, Metadata) <==> now.config.metadata != was.config.metadata;
    hide Differs, ReqChanged, DepChanged;
  }

  /** A new version is always deployed, one with other build metadata alone never is. */
  lemma VersionsDecide(read: Reader, was: Deployment, now: Deployment)
    requires was.ID() == now.ID()
    ensures was.sourceID.version.core != now.sourceID.version.core
            ==> DepChanged(read, was, now) && AnyDifference(read, was, now)
    ensures now == was.(sourceID := was.sourceID.(version := was.sourceID.version.(meta := now.sourceID.version.meta)))
            ==> !ReqChanged(was, now) && !DepChanged(read, was, now) && !AnyDifference(read, was, now)
  {
    NoDifference(read, was, now);
    hide AnyDifference;
  }
}
