/** lib/deploy_config.go: overlaying a list of configs, and the environment maps that the
    manifest expansion fills and strips. */
module DeployConfigs {
  import opened Types

  type StringMap = map<string, string>

  function FirstNonZero<T(==)>(zero: T, xs: seq<T>): T {
    if xs == [] then zero else if xs[0] != zero then xs[0] else FirstNonZero(zero, xs[1..])
  }

  /** The earliest map that has a key decides its value. */
  function FirstWins(ms: seq<StringMap>): StringMap {
    if ms == [] then map[] else FirstWins(ms[1..]) + ms[0]
  }

  function Instances(dcs: seq<DeployConfig>): seq<int> { seq(|dcs|, i requires 0 <= i < |dcs| => dcs[i].numInstances) }
  function VolumeLists(dcs: seq<DeployConfig>): seq<seq<Volume>> { seq(|dcs|,
                                                                       i requires 0 <= i < |dcs| => dcs[i].volumes) }
  function Schedules(dcs: seq<DeployConfig>): seq<string> { seq(|dcs|, i requires 0 <= i < |dcs| => dcs[i].schedule) }
  function Envs(dcs: seq<DeployConfig>): seq<StringMap> { seq(|dcs|, i requires 0 <= i < |dcs| => dcs[i].env) }
  function Resources(dcs: seq<DeployConfig>): seq<StringMap> { seq(|dcs|,
                                                                   i requires 0 <= i < |dcs| => dcs[i].resources) }
  function Metadatas(dcs: seq<DeployConfig>): seq<StringMap> { seq(|dcs|,
                                                                   i requires 0 <= i < |dcs| => dcs[i].metadata) }

  /** A key is set if some map sets it... */
  lemma {:induction false} FirstWinsKeys(ms: seq<StringMap>, k: string)
    ensures k in FirstWins(ms) <==> exists i :: 0 <= i < |ms| && k in ms[i]
  {
    if ms != [] {
      FirstWinsKeys(ms[1..], k);
      if i :| 0 <= i < |ms| && k in ms[i] {
        assert i > 0 ==> k in ms[1..][i - 1];
      }
      if i :| 0 <= i < |ms[1..]| && k in ms[1..][i] {
        assert k in ms[i + 1];
      }
    }
  }

  /** ... and has the value that the first of these gives it. */
  lemma {:induction false} FirstWinsAt(ms: seq<StringMap>, k: string, i: nat)
    requires i < |ms| && k in ms[i] && forall j | 0 <= j < i :: k !in ms[j]
    ensures k in FirstWins(ms) && FirstWins(ms)[k] == ms[i][k]
  {
    if i > 0 {
      FirstWinsAt(ms[1..], k, i - 1);
    }
  }

  /** Scalars and map entries come from the earliest config that sets them, but the startup
      checks come from the last config as a whole. */
  function Flattened(dcs: seq<DeployConfig>): DeployConfig {
    DeployConfig(
      FirstWins(Resources(dcs)),
      FirstWins(Metadatas(dcs)),
      FirstWins(Envs(dcs)),
      FirstNonZero(0, Instances(dcs)),
      FirstNonZero([], VolumeLists(dcs)),
      if dcs == [] then ZERO_STARTUP else dcs[|dcs| - 1].startup,
      FirstNonZero("", Schedules(dcs)))
  }

  lemma UnionAssociative(a: StringMap, b: StringMap, c: StringMap)
    ensures (a + b) + c == a + (b + c)
  {}

  lemma FirstWinsCons(m: StringMap, ms: seq<StringMap>)
    ensures FirstWins([m] + ms) == FirstWins(ms) + m
  {
    assert ([m] + ms)[1..] == ms;
  }

  lemma {:induction false} FirstWinsSnoc(ms: seq<StringMap>, m: StringMap)
    ensures FirstWins(ms + [m]) == m + FirstWins(ms)
  {
    if ms == [] {
      assert ms + [m] == [m] + ms;
      FirstWinsCons(m, []);
      assert FirstWins([]) == map[];
      hide FirstWins;
    } else {
      var (first, rest) := (ms[0], ms[1..]);
      assert ms == [first] + rest && ms + [m] == [first] + (rest + [m]);
      FirstWinsSnoc(rest, m);
      hide FirstWins;
      FirstWinsCons(first, rest);
      FirstWinsCons(first, rest + [m]);
      UnionAssociative(m, FirstWins(rest), first);
    }
  }

  lemma {:induction false} FirstNonZeroAt<T>(zero: T, xs: seq<T>, i: nat)
    requires i <= |xs| && forall j | 0 <= j < i :: xs[j] == zero
    ensures FirstNonZero(zero, xs) == if i == |xs| then zero else FirstNonZero(zero, xs[i..])
    ensures i < |xs| && xs[i] != zero ==> FirstNonZero(zero, xs) == xs[i]
  {
    if i > 0 {
      FirstNonZeroAt(zero, xs[1..], i - 1);
      if i < |xs| { assert xs[1..][i - 1..] == xs[i..]; }
    }
  }

  lemma FirstWinsSingle(m: StringMap)
    ensures FirstWins([m]) == m
  {
    assert FirstWins([m][1..]) == map[];
  }

  lemma FirstNonZeroSingle<T>(zero: T, x: T)
    ensures FirstNonZero(zero, [x]) == x
  {
    assert FirstNonZero(zero, [x][1..]) == zero;
  }

  /** A single config is unchanged by flattening: expansion passes no inherited specs. */
  lemma FlattenSingle(c: DeployConfig)
    ensures Flattened([c]) == c
  {
    assert Instances([c]) == [c.numInstances] && VolumeLists([c]) == [c.volumes] && Schedules([c]) == [c.schedule];
    assert Envs([c]) == [c.env] && Resources([c]) == [c.resources] && Metadatas([c]) == [c.metadata];
    FirstWinsSingle(c.env);
    FirstWinsSingle(c.resources);
    FirstWinsSingle(c.metadata);
    FirstNonZeroSingle(0, c.numInstances);
    FirstNonZeroSingle([], c.volumes);
    FirstNonZeroSingle("", c.schedule);
  }

  /** Adds the entries of `from` whose keys `into` does not have yet. */
  method AddMissing(into: StringMap, from: StringMap) returns (r: StringMap)
    ensures r == from + into
  {
    r := into;
    var keys := from.Keys;
    while keys != {}
      invariant keys <= from.Keys
      invariant r.Keys == into.Keys + (from.Keys - keys)
      invariant forall k | k in r :: r[k] == if k in into then into[k] else from[k]
      decreases keys
    {
      var k :| k in keys;
      if k !in r {
        r := r[k := from[k]];
      }
      keys := keys - {k};
    }
  }

  method FirstSet<T(==)>(zero: T, xs: seq<T>) returns (x: T)
    ensures x == FirstNonZero(zero, xs)
  {
    x := zero;
    for i := 0 to |xs|
      invariant x == zero && forall j | 0 <= j < i :: xs[j] == zero
    {
      if xs[i] != zero {
        FirstNonZeroAt(zero, xs, i);
        return xs[i];
      }
    }
    FirstNonZeroAt(zero, xs, |xs|);
  }

  /** One round of the overlay: each map gains the entries it does not have yet. */
  lemma OverlayNext(dcs: seq<DeployConfig>, i: nat)
    requires i < |dcs|
    ensures FirstWins(Resources(dcs[..i + 1])) == dcs[i].resources + FirstWins(Resources(dcs[..i]))
    ensures FirstWins(Envs(dcs[..i + 1])) == dcs[i].env + FirstWins(Envs(dcs[..i]))
    ensures FirstWins(Metadatas(dcs[..i + 1])) == dcs[i].metadata + FirstWins(Metadatas(dcs[..i]))
  {
    hide FirstWins;
    FirstWinsSnoc(Resources(dcs[..i]), dcs[i].resources);
    FirstWinsSnoc(Envs(dcs[..i]), dcs[i].env);
    FirstWinsSnoc(Metadatas(dcs[..i]), dcs[i].metadata);
    assert Resources(dcs[..i + 1]) == Resources(dcs[..i]) + [dcs[i].resources];
    assert Envs(dcs[..i + 1]) == Envs(dcs[..i]) + [dcs[i].env];
    assert Metadatas(dcs[..i + 1]) == Metadatas(dcs[..i]) + [dcs[i].metadata];
  }

  method FlattenDeployConfigs(dcs: seq<DeployConfig>) returns (dc: DeployConfig)
    ensures dc == Flattened(dcs)
  {
    var numInstances := FirstSet(0, Instances(dcs));
    var volumes := FirstSet([], VolumeLists(dcs));
    var schedule := FirstSet("", Schedules(dcs));
    dc := DeployConfig(map[], map[], map[], numInstances, volumes, ZERO_STARTUP, schedule);
    for i := 0 to |dcs|
      invariant dc.numInstances == numInstances && dc.volumes == volumes && dc.schedule == schedule
      invariant dc.resources == FirstWins(Resources(dcs[..i]))
      invariant dc.metadata == FirstWins(Metadatas(dcs[..i]))
      invariant dc.env == FirstWins(Envs(dcs[..i]))
      invariant dc.startup == if i == 0 then ZERO_STARTUP else dcs[i - 1].startup
    {
      hide *;
      OverlayNext(dcs, i);
      var resources := AddMissing(dc.resources, dcs[i].resources);
      var env := AddMissing(dc.env, dcs[i].env);
      var metadata := AddMissing(dc.metadata, dcs[i].metadata);
      dc := dc.(resources := resources, env := env, metadata := metadata, startup := dcs[i].startup);
    }
    assert dcs[..|dcs|] == dcs;
  }

  /** A variable that repeats the cluster's value stays only if the old spec wrote it out. */
  predicate Redundant(clusterEnv: StringMap, env: StringMap, was: Option<StringMap>, k: string) {
    k in env && k in clusterEnv && clusterEnv[k] == env[k] && (was.None? || k !in was.value)
  }

  function StrippedEnv(clusterEnv: StringMap, env: StringMap, was: Option<StringMap>): StringMap {
    map k | k in env && !Redundant(clusterEnv, env, was, k) :: env[k]
  }

  /** The loop of `PutbackManifests` that deletes from the environment it ranges over. */
  method StripEnv(clusterEnv: StringMap, env: StringMap, was: Option<StringMap>) returns (r: StringMap)
    ensures r == StrippedEnv(clusterEnv, env, was)
  {
    r := env;
    var keys := env.Keys;
    while keys != {}
      invariant keys <= env.Keys
      invariant r == map k | k in env && (k in keys || !Redundant(clusterEnv, env, was, k)) :: env[k]
      decreases keys
    {
      var k :| k in keys;
      if k in clusterEnv && clusterEnv[k] == env[k] {
        if was.Some? {
          if k !in was.value {
            r := r - {k};
          }
        } else {
          r := r - {k};
        }
      }
      keys := keys - {k};
    }
  }

  lemma EnvGetPut(clusterEnv: StringMap, env: StringMap)
    ensures StrippedEnv(clusterEnv, clusterEnv + env, Some(env)) == env
  {}

  /** Every variable that one cluster strips has the same value in the other. */
  predicate EnvStripsAlike(own: StringMap, clusterEnv: StringMap, env: StringMap, was: Option<StringMap>) {
    forall k | k in env && Redundant(own, env, was, k) :: k in clusterEnv && clusterEnv[k] == env[k]
  }

  lemma EnvPutGet(own: StringMap, clusterEnv: StringMap, env: StringMap, was: Option<StringMap>)
    ensures clusterEnv + StrippedEnv(own, env, was) == env
            <==> clusterEnv.Keys <= env.Keys && EnvStripsAlike(own, clusterEnv, env, was)
  {
    var full := clusterEnv + StrippedEnv(own, env, was);
    if clusterEnv.Keys <= env.Keys && EnvStripsAlike(own, clusterEnv, env, was) {
      assert full.Keys == env.Keys;
      assert forall k | k in env :: full[k] == env[k];
    }
    if full == env {
      assert clusterEnv.Keys <= full.Keys;
      forall k | k in env && Redundant(own, env, was, k) ensures k in clusterEnv && clusterEnv[k] == env[k] {
        assert k in full && k !in StrippedEnv(own, env, was);
      }
    }
  }
}
