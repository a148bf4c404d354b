/** The entities of the Global Deploy Manifest. Go's nil and empty maps and slices are
    identified throughout. */
module Types {

  datatype Option<+T> = None | Some(value: T)

  datatype Result<+T> = Ok(value: T) | Err(error: Error)

  datatype Error =
    | NoClusterName
    | UndefinedCluster(cluster: string)
    | ConflictingDeploys(id: DeploymentID)
    | StateUnreadable
    | StateUnwritable

  datatype SourceLocation = SourceLocation(repo: string, dir: string)

  datatype ManifestID = ManifestID(source: SourceLocation, flavor: string)

  datatype DeploymentID = DeploymentID(manifestID: ManifestID, cluster: string)

  /** A semantic version: `core` is what precedence is decided by, `meta` is the build
      metadata that semv's Equals ignores. */
  datatype Version = Version(core: string, meta: string) {
    predicate Equals(other: Version) { core == other.core }
  }

  datatype SourceID = SourceID(location: SourceLocation, version: Version) {
    predicate Equal(o: SourceID) {
      version.Equals(o.version) && this.(version := o.version) == o
    }
  }

  datatype Startup = Startup(
    skipCheck: bool,
    connectDelay: int,
    timeout: int,
    connectInterval: int,
    protocol: string,
    uriPath: string,
    portIndex: int,
    failureStatuses: seq<int>,
    uriTimeout: int,
    interval: int,
    retries: int)

  const ZERO_STARTUP := Startup(false, 0, 0, 0, "", "", 0, [], 0, 0, 0)

  datatype Volume = Volume(host: string, container: string, mode: string)

  datatype DeployConfig = DeployConfig(
    resources: map<string, string>,
    metadata: map<string, string>,
    env: map<string, string>,
    numInstances: int,
    volumes: seq<Volume>,
    startup: Startup,
    schedule: string)

  datatype Quality = Quality(name: string, kind: string)

  datatype BuildArtifact = BuildArtifact(name: string, qualities: seq<Quality>)

  datatype Cluster = Cluster(
    name: string,
    baseURL: string,
    env: map<string, string>,
    startup: Startup,
    allowedAdvisories: seq<string>)

  type Clusters = map<string, Cluster>

  datatype DeploySpec = DeploySpec(config: DeployConfig, version: Version)

  datatype Manifest = Manifest(
    source: SourceLocation,
    flavor: string,
    owners: seq<string>,
    kind: string,
    deployments: map<string, DeploySpec>)
  {
    function ID(): ManifestID { ManifestID(source, flavor) }
  }

  type Manifests = map<ManifestID, Manifest>

  datatype Deployment = Deployment(
    config: DeployConfig,
    clusterName: string,
    cluster: Option<Cluster>,
    sourceID: SourceID,
    flavor: string,
    owners: set<string>,
    kind: string)
  {
    function ManifestId(): ManifestID { ManifestID(sourceID.location, flavor) }

    function ID(): DeploymentID { DeploymentID(ManifestId(), clusterName) }
  }

  type Deployments = map<DeploymentID, Deployment>

  /** The containers key every value by its own ID: Add does, and so does every caller of Set. */
  ghost predicate KeyedDeployments(ds: Deployments) {
    forall id | id in ds :: ds[id].ID() == id
  }

  ghost predicate KeyedManifests(ms: Manifests) {
    forall mid | mid in ms :: ms[mid].ID() == mid
  }

  const KIND_SCHEDULED := "scheduled"
}
