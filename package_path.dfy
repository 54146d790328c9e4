/** Local path dependencies written `fs+PATH` (src/package_path.rs). */
module PackagePaths {
  import opened Wrappers
  import opened Semver
  import opened PackageNames
  import opened PackageIds
  import opened PackageReqs
  import opened Manifests
  import Paths

  datatype PackagePath = PackagePath(path: string)

  datatype PathError =
    | NoDelimiter                    // "Expected a delimiter of '+'"
    | NotFs(locationType: string)    // "Package location is not fs as expected, ..."

  /** `Display` (and `Serialize`). */
  function PathToString(p: PackagePath): string
  {
    "fs+" + p.path
  }

  /** `FromStr`: split at the first `+`; the text before it must be `fs`. */
  function ParsePackagePath(s: string): (r: Result<PackagePath, PathError>)
    ensures '+' !in s <==> r == Err(NoDelimiter)
    ensures r.Ok? ==> PathToString(r.value) == s
    ensures r.Err? && r.error.NotFs? ==> r.error.locationType != "fs" && r.error.locationType + "+" <= s
  {
    match Strings.SplitOnce(s, '+')
    case None => Err(NoDelimiter)
    case Some((locationType, path)) =>
      if locationType != "fs" then Err(NotFs(locationType))
      else Ok(PackagePath(path))
  }

  /** Printing then parsing gives the same path, whatever characters it holds. */
  lemma ParsePackagePathOfString(p: PackagePath)
    ensures ParsePackagePath(PathToString(p)) == Ok(p)
  {
    assert PathToString(p) == "fs" + ['+'] + p.path;
    Strings.SplitOnceAt("fs", p.path, '+');
  }

  /** "fs+hello/world" names the path "hello/world". */
  lemma ParseFsExample()
    ensures ParsePackagePath("fs+hello/world") == Ok(PackagePath("hello/world"))
  {
    var p := PackagePath("hello/world");
    assert PathToString(p) == "fs+hello/world";
    ParsePackagePathOfString(p);
  }

  /** A location type other than `fs` is refused. */
  lemma ParseGitRefused(rest: string)
    ensures ParsePackagePath("git+" + rest) == Err(NotFs("git"))
  {
    assert "git+" + rest == "git" + ['+'] + rest;
    Strings.SplitOnceAt("git", rest, '+');
  }

  /** The requirement a path dependency stands for: its manifest's name, at exactly its version. */
  function RequirementOf(m: Manifest): (r: PackageReq)
    ensures r.name == m.package.name
  {
    PackageReq(m.package.name, ExactReq(m.package.version))
  }

  /**
   * `get_package_req`: load the manifest found at `project_root/path`
   * (`load` stands for reading and parsing `wally.toml` there).
   */
  function GetPackageReq<E>(p: PackagePath, projectRoot: string, load: string -> Result<Manifest, E>): (r: Result<PackageReq, E>)
    ensures load(Paths.Join(projectRoot, p.path)).Err? ==> r == Err(load(Paths.Join(projectRoot, p.path)).error)
    ensures load(Paths.Join(projectRoot, p.path)).Ok? ==> r == Ok(RequirementOf(load(Paths.Join(projectRoot, p.path)).value))
  {
    match load(Paths.Join(projectRoot, p.path))
    case Err(e) => Err(e)
    case Ok(m) => Ok(RequirementOf(m))
  }

  /** The requirement of a path dependency is met by its own manifest's id and by nothing else. */
  lemma RequirementOfMatchesOnlyItself(m: Manifest, id: PackageId)
    ensures MatchesId(RequirementOf(m), id) <==> id == ManifestId(m)
  {
    ExactReqMatchesOnly(m.package.version, id.version);
  }
}
