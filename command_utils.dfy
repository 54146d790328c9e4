/** What the manifest-editing commands share (src/commands/utils.rs). */
module CommandUtils {
  import opened Wrappers
  import opened Strings
  import opened PackageNames
  import opened PackageReqs
  import opened Manifests

  /** A package named on the command line, with or without a requirement. */
  datatype PackageSpec = Named(named: PackageName) | Required(required: PackageReq)

  /** `as_table_name`: the manifest table holding a realm's dependencies. */
  function AsTableName(realm: Realm): (r: string)
    ensures r == if realm == Shared then "dependencies" else RealmName(realm) + "-dependencies"
  {
    match realm
    case Server => "server-dependencies"
    case Shared => "dependencies"
    case Dev => "dev-dependencies"
  }

  /** Each realm has its own table. */
  lemma AsTableNameInjective(a: Realm, b: Realm)
    ensures AsTableName(a) == AsTableName(b) <==> a == b
  {
    // The three names differ in length: 19, 12 and 16 characters.
    if a != b {
      assert |AsTableName(a)| != |AsTableName(b)|;
    }
  }

  /** `PackageSpec::name`: the short name, without the scope. */
  function SpecName(spec: PackageSpec): (r: string)
  {
    match spec
    case Named(n) => n.name
    case Required(req) => req.name.name
  }

  /** The full name a spec refers to. */
  function SpecPackage(spec: PackageSpec): PackageName
  {
    match spec
    case Named(n) => n
    case Required(req) => req.name
  }

  datatype SpecError = Unparsable(text: string)

  /**
   * `PackageSpec::from_str`: a requirement if the text parses as one, else
   * a bare name, else an error. update.rs carries an identical copy.
   */
  function ParseSpec(s: string): (r: Result<PackageSpec, SpecError>)
    ensures r.Err? <==> ParsePackageReq(s).Err? && Parse(s).Err?
    ensures r.Err? ==> r.error == Unparsable(s)
    ensures ParsePackageReq(s).Ok? ==> r == Ok(Required(ParsePackageReq(s).value))
    ensures ParsePackageReq(s).Err? && Parse(s).Ok? ==> r == Ok(Named(Parse(s).value))
  {
    match ParsePackageReq(s)
    case Ok(req) => Ok(Required(req))
    case Err(_) =>
      match Parse(s)
      case Ok(name) => Ok(Named(name))
      case Err(_) => Err(Unparsable(s))
  }

  /** A requirement needs an `@`, so a text without one is at best a bare name. */
  lemma {:induction false} NoAtIsNamed(s: string)
    requires '@' !in s
    ensures ParseSpec(s).Ok? ==> ParseSpec(s).value.Named?
  {
    match SplitOnce(s, '/')
    case None =>
    case Some((scope, rest)) =>
      assert '@' !in rest by {
        forall i | 0 <= i < |rest| ensures rest[i] != '@' {
          assert rest[i] == s[|scope| + 1 + i];
        }
      }
  }

  /** A printed name reads back as a `Named` spec of that name. */
  lemma ParseSpecOfName(n: PackageName)
    requires Valid(n)
    ensures ParseSpec(ToString(n)) == Ok(Named(n))
    ensures SpecName(ParseSpec(ToString(n)).value) == n.name
  {
    NoSlashInValidPart(n.scope);
    NoSlashInValidPart(n.name);
    assert '@' !in ToString(n);
    NoAtIsNamed(ToString(n));
    ParseToString(n);
  }

  /** A printed requirement reads back as a `Required` spec of that requirement. */
  lemma ParseSpecOfReq(req: PackageReq)
    requires ValidPackageReq(req)
    ensures ParseSpec(PackageReqToString(req)) == Ok(Required(req))
    ensures SpecName(ParseSpec(PackageReqToString(req)).value) == req.name.name
  {
    ParsePackageReqOfString(req);
  }

  /** The short name of a spec the parser produced obeys the name rule. */
  lemma SpecNameValid(s: string)
    requires ParseSpec(s).Ok?
    ensures ValidPart(SpecName(ParseSpec(s).value))
    ensures SpecName(ParseSpec(s).value) == SpecPackage(ParseSpec(s).value).name
  {
  }
}
