/** Package ids `SCOPE/NAME@VERSION` (src/package_id.rs). */
module PackageIds {
  import opened Wrappers
  import opened Strings
  import opened Semver
  import opened PackageNames

  datatype PackageId = PackageId(name: PackageName, version: Version)

  /** Why `PackageId::from_str` refuses a text. */
  datatype IdError =
    | BadFormat                  // "a package ID is of the form SCOPE/NAME@VERSION"
    | BadVersion                 // "could not parse version"
    | BadName(cause: NameError)  // PackageName::new failed, reported under the bad-format message

  predicate ValidId(id: PackageId) { Valid(id.name) && ValidVersion(id.version) }

  /** `Display` (and `Serialize`): `SCOPE/NAME@VERSION`. */
  function IdToString(id: PackageId): string
  {
    ToString(id.name) + "@" + VersionToString(id.version)
  }

  /**
   * `FromStr`: split at the first `/`, then the rest at the first `@`;
   * the version is parsed before the name is validated.
   */
  function ParseId(s: string): (r: Result<PackageId, IdError>)
    ensures r.Ok? ==> ValidId(r.value) && IdToString(r.value) == s
    ensures '/' !in s ==> r == Err(BadFormat)
    ensures SplitOnce(s, '/').Some? && '@' !in SplitOnce(s, '/').value.1 ==> r == Err(BadFormat)
  {
    match SplitOnce(s, '/')
    case None => Err(BadFormat)
    case Some((scope, rest)) =>
      match SplitOnce(rest, '@')
      case None => Err(BadFormat)
      case Some((name, versionText)) =>
        match ParseVersion(versionText)
        case None => Err(BadVersion)
        case Some(version) =>
          match New(scope, name)
          case Err(e) => Err(BadName(e))
          case Ok(packageName) =>
            RejoinId(scope, name, versionText);
            Ok(PackageId(packageName, version))
  }

  lemma RejoinId(scope: string, name: string, version: string)
    ensures scope + "/" + name + "@" + version == scope + ['/'] + (name + ['@'] + version)
  {
  }

  /** Printing a valid id and parsing the text gives the id back. */
  lemma ParseIdOfString(id: PackageId)
    requires ValidId(id)
    ensures ParseId(IdToString(id)) == Ok(id)
  {
    var scope, name, v := id.name.scope, id.name.name, VersionToString(id.version);
    NoSlashInValidPart(scope);
    NoSlashInValidPart(name);
    assert IdToString(id) == scope + ['/'] + (name + ['@'] + v);
    SplitOnceAt(scope, name + ['@'] + v, '/');
    SplitOnceAt(name, v, '@');
    ParseVersionOfString(id.version);
  }

  /**
   * The version must be a complete `MAJOR.MINOR.PATCH` (section 2 of
   * Semantic Versioning 2.0.0): `foo/bar@2` and `hello/world@` are refused.
   */
  lemma ParseIdNeedsFullVersion(scope: string, name: string, version: string)
    requires '/' !in scope && '@' !in name && |version| < 5
    ensures ParseId(scope + "/" + name + "@" + version) == Err(BadVersion)
  {
    RejoinId(scope, name, version);
    SplitOnceAt(scope, name + ['@'] + version, '/');
    SplitOnceAt(name, version, '@');
    ShortTextIsNoVersion(version);
  }

  /** The derived `Ord`: by name, then by version precedence. */
  function CompareIds(a: PackageId, b: PackageId): Ordering
  {
    CompareNames(a.name, b.name).Then(CompareVersion(a.version, b.version))
  }

  predicate IdLess(a: PackageId, b: PackageId) { CompareIds(a, b) == Ordering.Less }

  lemma CompareIdsProperties(a: PackageId, b: PackageId)
    ensures CompareIds(b, a) == CompareIds(a, b).Reverse()
    ensures CompareIds(a, b) == Ordering.Equal <==> a == b
  {
    CompareNamesProperties(a.name, b.name);
    CompareVersionProperties(a.version, b.version);
  }

  lemma IdLessTransitive(a: PackageId, b: PackageId, c: PackageId)
    requires IdLess(a, b) && IdLess(b, c)
    ensures IdLess(a, c)
  {
    CompareIdsProperties(a, b);
    CompareIdsProperties(b, c);
    CompareNamesProperties(a.name, b.name);
    CompareNamesProperties(b.name, c.name);
    if NameLess(a.name, b.name) && NameLess(b.name, c.name) {
      NameLessTransitive(a.name, b.name, c.name);
    } else if a.name == b.name && b.name == c.name {
      CompareVersionTransitive(a.version, b.version, c.version);
    }
  }
}
