/** Where a dependency comes from: a registry requirement or a local path (src/package_location.rs). */
module PackageLocations {
  import opened Semver
  import opened PackageNames
  import opened PackageIds
  import opened PackageReqs
  import opened Manifests
  import opened PackagePaths

  /**
   * `Path` carries the requirement the location stands for (its manifest's
   * name at exactly its version, as `get_package_req` builds it): the source
   * reads it as `pkg.req`.
   */
  datatype PackageLocation =
    | Registry(registryReq: PackageReq)
    | Path(path: PackagePath, pathReq: PackageReq)

  function Requirement(l: PackageLocation): PackageReq
  {
    match l
    case Registry(r) => r
    case Path(_, r) => r
  }

  /** `name()`: the wrapped requirement's name, for either variant. */
  function LocationName(l: PackageLocation): (n: PackageName)
    ensures l.Registry? ==> n == l.registryReq.name
    ensures l.Path? ==> n == l.pathReq.name
  {
    Requirement(l).name
  }

  /** `version_req()`: the wrapped requirement's version requirement, for either variant. */
  function LocationVersionReq(l: PackageLocation): (v: VersionReq)
    ensures l.Registry? ==> v == l.registryReq.versionReq
    ensures l.Path? ==> v == l.pathReq.versionReq
  {
    Requirement(l).versionReq
  }

  /** `matches(name, version)`. */
  predicate LocationMatches(l: PackageLocation, name: PackageName, version: Version)
  {
    LocationName(l) == name && Matches(LocationVersionReq(l), version)
  }

  /** `matches_id`. */
  predicate LocationMatchesId(l: PackageLocation, id: PackageId)
  {
    LocationMatches(l, id.name, id.version)
  }

  /** A location matches exactly what its wrapped requirement matches. */
  lemma LocationMatchesRequirement(l: PackageLocation, id: PackageId)
    ensures LocationMatchesId(l, id) <==> MatchesId(Requirement(l), id)
    ensures LocationMatchesId(l, id) <==> LocationName(l) == id.name && Matches(LocationVersionReq(l), id.version)
  {
  }

  /** A path location built from a manifest matches that manifest's id and nothing else. */
  lemma PathLocationMatchesOnlyItself(p: PackagePath, m: Manifest, id: PackageId)
    ensures LocationMatchesId(Path(p, RequirementOf(m)), id) <==> id == ManifestId(m)
  {
    RequirementOfMatchesOnlyItself(m, id);
  }
}
