/** The contents of a `wally.toml` file (src/manifest.rs). */
module Manifests {
  import opened Wrappers
  import opened Strings
  import opened Sorting
  import opened Semver
  import opened PackageNames
  import opened PackageIds
  import opened PackageReqs

  /** The realm a package may be used in. */
  datatype Realm = Server | Shared | Dev

  /** The lowercase serialized names. */
  function RealmName(r: Realm): string
  {
    match r
    case Server => "server"
    case Shared => "shared"
    case Dev => "dev"
  }

  function ParseRealm(s: string): (r: Option<Realm>)
    ensures r.Some? <==> s in {"server", "shared", "dev"}
    ensures r.Some? ==> RealmName(r.value) == s
  {
    if s == "server" then Some(Server)
    else if s == "shared" then Some(Shared)
    else if s == "dev" then Some(Dev)
    else None
  }

  /** The three names are distinct, and each parses back to its realm. */
  lemma RealmNameRoundTrip(r: Realm, q: Realm)
    ensures ParseRealm(RealmName(r)) == Some(r)
    ensures RealmName(r) == RealmName(q) ==> r == q
  {
  }

  /**
   * `Realm::is_dependency_valid(dep_type, dep_realm)`: a shared package may
   * only depend on shared packages; server and dev ones may depend on anything.
   */
  function IsDependencyValid(depType: Realm, depRealm: Realm): (b: bool)
    ensures b <==> (depType == Shared ==> depRealm == Shared)
  {
    match (depType, depRealm)
    case (Server, _) => true
    case (Shared, Shared) => true
    case (Dev, _) => true
    case _ => false
  }

  /** Where the realm folders live in the game tree (only read from the root package). */
  datatype PlaceInfo = PlaceInfo(sharedPackages: Option<string>, serverPackages: Option<string>)

  function DefaultPlaceInfo(): (p: PlaceInfo)
    ensures p.sharedPackages.None? && p.serverPackages.None?
  {
    PlaceInfo(None, None)
  }

  /** The `[package]` table. */
  datatype Package = Package(
    name: PackageName,
    version: Version,
    registry: string,
    realm: Realm,
    description: Option<string>,
    license: Option<string>,
    authors: seq<string>,
    includes: seq<string>,
    excludes: seq<string>,
    private: bool,
    homepage: Option<string>,
    repository: Option<string>)

  /** A dependency table: alias to requirement, iterated in key order. */
  type DependencyTable = map<string, PackageReq>

  datatype Manifest = Manifest(
    package: Package,
    place: PlaceInfo,
    dependencies: DependencyTable,
    serverDependencies: DependencyTable,
    devDependencies: DependencyTable)

  /** `Manifest::package_id`. */
  function ManifestId(m: Manifest): (id: PackageId)
    ensures id.name == m.package.name && id.version == m.package.version
  {
    PackageId(m.package.name, m.package.version)
  }

  /**
   * Building a manifest from the tables present in the file: `place` and the
   * three dependency tables default to empty when the file leaves them out.
   */
  function FromTables(
    package: Package,
    place: Option<PlaceInfo>,
    dependencies: Option<DependencyTable>,
    serverDependencies: Option<DependencyTable>,
    devDependencies: Option<DependencyTable>): (m: Manifest)
    ensures m.package == package
    ensures place.None? ==> m.place.sharedPackages.None? && m.place.serverPackages.None?
    ensures place.Some? ==> m.place == place.value
    ensures m.dependencies == (if dependencies.Some? then dependencies.value else map[])
    ensures m.serverDependencies == (if serverDependencies.Some? then serverDependencies.value else map[])
    ensures m.devDependencies == (if devDependencies.Some? then devDependencies.value else map[])
  {
    Manifest(
      package,
      OrDefault(place, DefaultPlaceInfo()),
      OrDefault(dependencies, map[]),
      OrDefault(serverDependencies, map[]),
      OrDefault(devDependencies, map[]))
  }

  function OrDefault<T>(o: Option<T>, d: T): T
  {
    if o.Some? then o.value else d
  }
}
