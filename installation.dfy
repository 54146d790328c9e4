/**
 * How a resolved graph is laid out on disk (src/installation.rs): the
 * realm directories and their `_Index`, the link files that let each
 * package require its dependencies, and where every downloaded package
 * is unpacked. The file system is a map from paths to what was written.
 */
module Installation {
  import opened Wrappers
  import opened Strings
  import opened Sorting
  import opened BTreeMaps
  import opened Semver
  import opened PackageNames
  import opened PackageIds
  import opened Manifests
  import opened PackageContentsModel
  import opened PackageSources
  import opened ResolutionRules
  import opened Resolution
  import Paths

  /** `InstallationContext`: the three realm directories, their indexes, and the configured places. */
  datatype InstallationContext = InstallationContext(
    sharedDir: string, sharedIndexDir: string, sharedPath: Option<string>,
    serverDir: string, serverIndexDir: string, serverPath: Option<string>,
    devDir: string, devIndexDir: string)

  /** `InstallationContext::new`. */
  function NewContext(projectPath: string, sharedPath: Option<string>, serverPath: Option<string>): InstallationContext
  {
    var shared := Paths.Join(projectPath, "Packages");
    var server := Paths.Join(projectPath, "ServerPackages");
    var dev := Paths.Join(projectPath, "DevPackages");
    InstallationContext(
      shared, Paths.Join(shared, "_Index"), sharedPath,
      server, Paths.Join(server, "_Index"), serverPath,
      dev, Paths.Join(dev, "_Index"))
  }

  function RealmDir(c: InstallationContext, realm: Realm): string
  {
    match realm
    case Shared => c.sharedDir
    case Server => c.serverDir
    case Dev => c.devDir
  }

  function IndexDir(c: InstallationContext, realm: Realm): string
  {
    match realm
    case Shared => c.sharedIndexDir
    case Server => c.serverIndexDir
    case Dev => c.devIndexDir
  }

  function RealmDirName(realm: Realm): string
  {
    match realm
    case Shared => "Packages"
    case Server => "ServerPackages"
    case Dev => "DevPackages"
  }

  /** A relative part joined to a base: only the separator depends on the base. */
  lemma JoinLength(base: string, part: string)
    requires |part| > 0 && part[0] != '/'
    ensures |Paths.Join(base, part)| == |base| + |part| + (if base != [] && base[|base| - 1] != '/' then 1 else 0)
    ensures Paths.Join(base, part)[|Paths.Join(base, part)| - 1] == part[|part| - 1]
  {
  }

  /**
   * The layout `new` sets up: each realm directory is a child of the
   * project, and each index is `_Index` inside its realm directory.
   */
  lemma ContextLayout(projectPath: string, sharedPath: Option<string>, serverPath: Option<string>, a: Realm)
    ensures var c := NewContext(projectPath, sharedPath, serverPath);
      && RealmDir(c, a) == Paths.Join(projectPath, RealmDirName(a))
      && IndexDir(c, a) == Paths.Join(RealmDir(c, a), "_Index")
      && Paths.StartsWith(RealmDir(c, a), projectPath)
      && Paths.StartsWith(IndexDir(c, a), RealmDir(c, a))
  {
    var c := NewContext(projectPath, sharedPath, serverPath);
    Paths.JoinStartsWith(projectPath, RealmDirName(a));
    Paths.JoinStartsWith(RealmDir(c, a), "_Index");
  }

  /** The three realms never share a directory or an index. */
  lemma ContextDistinct(projectPath: string, sharedPath: Option<string>, serverPath: Option<string>, a: Realm, b: Realm)
    requires a != b
    ensures var c := NewContext(projectPath, sharedPath, serverPath);
      RealmDir(c, a) != RealmDir(c, b) && IndexDir(c, a) != IndexDir(c, b)
  {
    var c := NewContext(projectPath, sharedPath, serverPath);
    JoinLength(projectPath, RealmDirName(a));
    JoinLength(projectPath, RealmDirName(b));
    JoinLength(RealmDir(c, a), "_Index");
    JoinLength(RealmDir(c, b), "_Index");
  }

  // ---------------------------------------------------------------------
  // Directory names of packages

  /** `package_id_file_name`: `SCOPE_NAME@VERSION`. */
  function FileName(id: PackageId): string
  {
    id.name.scope + "_" + id.name.name + "@" + VersionToString(id.version)
  }

  /** Reading a directory name back: split at the first `_`, then at the first `@`. */
  function ParseFileName(s: string): (r: Option<PackageId>)
    ensures r.Some? ==> ValidId(r.value) && FileName(r.value) == s
  {
    match SplitOnce(s, '_')
    case None => None
    case Some((scope, rest)) =>
      match SplitOnce(rest, '@')
      case None => None
      case Some((name, versionText)) =>
        match ParseVersion(versionText)
        case None => None
        case Some(version) =>
          match New(scope, name)
          case Err(_) => None
          case Ok(packageName) =>
            RejoinFileName(scope, name, versionText);
            Some(PackageId(packageName, version))
  }

  lemma RejoinFileName(scope: string, name: string, version: string)
    ensures scope + "_" + name + "@" + version == scope + ['_'] + (name + ['@'] + version)
  {
  }

  lemma NoUnderscoreInValidPart(s: string)
    requires ValidPart(s)
    ensures '_' !in s && '@' !in s
  {
  }

  /** The directory name of a valid id reads back as that id. */
  lemma ParseFileNameOfFileName(id: PackageId)
    requires ValidId(id)
    ensures ParseFileName(FileName(id)) == Some(id)
  {
    var scope, name, v := id.name.scope, id.name.name, VersionToString(id.version);
    NoUnderscoreInValidPart(scope);
    NoUnderscoreInValidPart(name);
    RejoinFileName(scope, name, v);
    SplitOnceAt(scope, name + ['@'] + v, '_');
    SplitOnceAt(name, v, '@');
    ParseVersionOfString(id.version);
  }

  /** Two valid packages never share a directory name. */
  lemma FileNameInjective(a: PackageId, b: PackageId)
    requires ValidId(a) && ValidId(b) && FileName(a) == FileName(b)
    ensures a == b
  {
    ParseFileNameOfFileName(a);
    ParseFileNameOfFileName(b);
  }

  // ---------------------------------------------------------------------
  // Link files

  datatype InstallError =
    | NoSharedPlace      // a link into the shared index without `place.shared-packages`
    | NoServerPlace      // a link into the server index without `place.server-packages`
    | DevDependedUpon    // "A dev dependency cannot be depended upon by a non-dev dependency"
    | DownloadFailed(message: string)

  /** Which index a link has to reach. */
  datatype LinkTarget = SameIndex | ServerIndex | SharedIndex

  /** The realm pair match of `write_root_package_links` and `write_package_links`. */
  function ChooseLink(source: Realm, dest: Realm): Result<LinkTarget, InstallError>
  {
    if source == dest then Ok(SameIndex)
    else
      match dest
      case Server => Ok(ServerIndex)
      case Shared => Ok(SharedIndex)
      case Dev => Err(DevDependedUpon)
  }

  /**
   * The decision table: a package in the dependency's own realm links
   * within its index; otherwise the link goes to the dependency's index,
   * and a dependency installed with the dev realm is out of reach.
   */
  lemma ChooseLinkTable(source: Realm, dest: Realm)
    ensures ChooseLink(source, dest).Err? <==> source != dest && dest == Dev
    ensures ChooseLink(source, dest) == Ok(SameIndex) <==> source == dest
    ensures source != dest && dest == Server ==> ChooseLink(source, dest) == Ok(ServerIndex)
    ensures source != dest && dest == Shared ==> ChooseLink(source, dest) == Ok(SharedIndex)
    ensures ChooseLink(source, dest).Err? ==> ChooseLink(source, dest).error == DevDependedUpon
  {
  }

  /** `return require(PREFIX["FULL_NAME"]["SHORT_NAME"])` and a newline. */
  function RequireLine(prefix: string, id: PackageId): string
  {
    "return require(" + prefix + "[\"" + FileName(id) + "\"][\"" + id.name.name + "\"])\n"
  }

  /**
   * The `link_*` builders: a same-index link climbs from the root to
   * `_Index`, or from a package directory to its siblings; a link into
   * another index starts from the configured place and fails without one.
   */
  function LinkText(c: InstallationContext, target: LinkTarget, fromRoot: bool, id: PackageId): (r: Result<string, InstallError>)
    ensures r.Err? <==> (target == ServerIndex && c.serverPath.None?) || (target == SharedIndex && c.sharedPath.None?)
    ensures r.Err? ==> r.error == (if target == ServerIndex then NoServerPlace else NoSharedPlace)
    ensures r.Ok? && target == SameIndex ==>
      r.value == RequireLine(if fromRoot then "script.Parent._Index" else "script.Parent.Parent", id)
    ensures r.Ok? && target == ServerIndex ==> r.value == RequireLine(c.serverPath.value + "._Index", id)
    ensures r.Ok? && target == SharedIndex ==> r.value == RequireLine(c.sharedPath.value + "._Index", id)
  {
    match target
    case SameIndex => Ok(RequireLine(if fromRoot then "script.Parent._Index" else "script.Parent.Parent", id))
    case ServerIndex =>
      if c.serverPath.None? then Err(NoServerPlace) else Ok(RequireLine(c.serverPath.value + "._Index", id))
    case SharedIndex =>
      if c.sharedPath.None? then Err(NoSharedPlace) else Ok(RequireLine(c.sharedPath.value + "._Index", id))
  }

  /** The link text for a dependency installed with `depRealm`, from a package placed in `fromRealm`. */
  function LinkFor(c: InstallationContext, fromRealm: Realm, fromRoot: bool, depRealm: Realm, dep: PackageId): Result<string, InstallError>
  {
    match ChooseLink(fromRealm, depRealm)
    case Err(e) => Err(e)
    case Ok(target) => LinkText(c, target, fromRoot, dep)
  }

  /** When a link cannot be written. */
  lemma LinkForFails(c: InstallationContext, fromRealm: Realm, fromRoot: bool, depRealm: Realm, dep: PackageId)
    ensures LinkFor(c, fromRealm, fromRoot, depRealm, dep).Err? <==>
      fromRealm != depRealm
      && (depRealm == Dev || (depRealm == Server && c.serverPath.None?) || (depRealm == Shared && c.sharedPath.None?))
  {
  }

  /** A dependency in the same realm is always reachable, whatever the places. */
  lemma SameRealmLinks(c: InstallationContext, realm: Realm, fromRoot: bool, dep: PackageId)
    ensures LinkFor(c, realm, fromRoot, realm, dep).Ok?
    ensures LinkFor(c, realm, fromRoot, realm, dep).value
         == RequireLine(if fromRoot then "script.Parent._Index" else "script.Parent.Parent", dep)
  {
  }

  // ---------------------------------------------------------------------
  // The file system

  type Write = (string, string)

  /** The file contents after the writes, later writes replacing earlier ones. */
  function ApplyWrites<V>(files: map<string, V>, writes: seq<(string, V)>): map<string, V>
  {
    if writes == [] then files
    else ApplyWrites(files, writes[..|writes| - 1])[writes[|writes| - 1].0 := writes[|writes| - 1].1]
  }

  /** A path written by the last write to it holds that write's text; any other path is untouched. */
  lemma {:induction false} ApplyWritesAt<V>(files: map<string, V>, writes: seq<(string, V)>, p: string)
    ensures p in ApplyWrites(files, writes) <==> p in files || exists i :: 0 <= i < |writes| && writes[i].0 == p
    ensures (forall i :: 0 <= i < |writes| ==> writes[i].0 != p) && p in files ==> ApplyWrites(files, writes)[p] == files[p]
    ensures forall i :: 0 <= i < |writes| && writes[i].0 == p && (forall j :: i < j < |writes| ==> writes[j].0 != p)
              ==> ApplyWrites(files, writes)[p] == writes[i].1
  {
    if writes != [] {
      var init := writes[..|writes| - 1];
      ApplyWritesAt(files, init, p);
      assert forall i :: 0 <= i < |init| ==> init[i] == writes[i];
    }
  }

  lemma {:induction false} ApplyWritesAppend<V>(files: map<string, V>, a: seq<(string, V)>, b: seq<(string, V)>)
    ensures ApplyWrites(files, a + b) == ApplyWrites(ApplyWrites(files, a), b)
  {
    if b == [] {
      assert a + b == a;
    } else {
      assert (a + b)[..|a + b| - 1] == a + b[..|b| - 1];
      ApplyWritesAppend(files, a, b[..|b| - 1]);
    }
  }

  /** What lies outside `dir` (`dir` itself included in what is removed). */
  function Outside<V>(m: map<string, V>, dir: string): (r: map<string, V>)
    ensures forall p :: p in r <==> p in m && !Paths.StartsWith(p, dir)
    ensures forall p :: p in r ==> r[p] == m[p]
  {
    map p | p in m && !Paths.StartsWith(p, dir) :: m[p]
  }

  /** The files written and the package archives unpacked, by path. */
  class FileSystem {
    var files: map<string, string>
    var unpacked: map<string, PackageContents>

    constructor(files: map<string, string>, unpacked: map<string, PackageContents>)
      ensures this.files == files && this.unpacked == unpacked
    {
      this.files := files;
      this.unpacked := unpacked;
    }

    /** `fs::write`. */
    method Write(path: string, text: string)
      modifies this
      ensures files == old(files)[path := text] && unpacked == old(unpacked)
    {
      files := files[path := text];
    }

    /** `PackageContents::unpack_into_path`. */
    method Unpack(path: string, contents: PackageContents)
      modifies this
      ensures unpacked == old(unpacked)[path := contents] && files == old(files)
    {
      unpacked := unpacked[path := contents];
    }

    /** `fs::remove_dir_all`, with a missing directory counted as removed. */
    method RemoveDirAll(dir: string)
      modifies this
      ensures files == Outside(old(files), dir) && unpacked == Outside(old(unpacked), dir)
    {
      files := Outside(files, dir);
      unpacked := Outside(unpacked, dir);
    }
  }

  /** `clean`: nothing remains under the three realm directories, and everything else is kept. */
  method Clean(fs: FileSystem, c: InstallationContext) returns (r: Result<(), InstallError>)
    modifies fs
    ensures r.Ok?
    ensures forall p :: p in fs.files <==> p in old(fs.files) && forall realm :: !Paths.StartsWith(p, RealmDir(c, realm))
    ensures forall p :: p in fs.files ==> fs.files[p] == old(fs.files)[p]
    ensures forall p :: p in fs.unpacked <==> p in old(fs.unpacked) && forall realm :: !Paths.StartsWith(p, RealmDir(c, realm))
    ensures forall p :: p in fs.unpacked ==> fs.unpacked[p] == old(fs.unpacked)[p]
  {
    fs.RemoveDirAll(c.sharedDir);
    fs.RemoveDirAll(c.serverDir);
    fs.RemoveDirAll(c.devDir);
    forall p | true
      ensures (forall realm :: !Paths.StartsWith(p, RealmDir(c, realm)))
          <==> !Paths.StartsWith(p, c.sharedDir) && !Paths.StartsWith(p, c.serverDir) && !Paths.StartsWith(p, c.devDir)
    {
      assert RealmDir(c, Shared) == c.sharedDir && RealmDir(c, Server) == c.serverDir && RealmDir(c, Dev) == c.devDir;
    }
    return Ok(());
  }

  // ---------------------------------------------------------------------
  // Link plans

  /** `<alias>.lua` in `base`. */
  function LinkPath(base: string, alias: string): string
  {
    Paths.Join(base, alias + ".lua")
  }

  /** A plan: the steps done, and the error that stopped it, if any. */
  datatype Plan<T> = Plan(steps: seq<T>, error: Option<InstallError>)

  /** Steps taken in order up to the first that fails; `?` in a loop. */
  function RunAll<T>(rs: seq<Result<T, InstallError>>): Plan<T>
  {
    if rs == [] then Plan([], None)
    else
      var prev := RunAll(rs[..|rs| - 1]);
      if prev.error.Some? then prev
      else
        match rs[|rs| - 1]
        case Err(e) => Plan(prev.steps, Some(e))
        case Ok(step) => Plan(prev.steps + [step], None)
  }

  /** The steps taken are the values of a prefix of the results; all of them when nothing fails. */
  lemma {:induction false} RunAllSteps<T>(rs: seq<Result<T, InstallError>>)
    ensures |RunAll(rs).steps| <= |rs|
    ensures RunAll(rs).error.None? ==> |RunAll(rs).steps| == |rs|
    ensures forall i :: 0 <= i < |RunAll(rs).steps| ==> rs[i].Ok? && RunAll(rs).steps[i] == rs[i].value
  {
    if rs != [] {
      var init := rs[..|rs| - 1];
      RunAllSteps(init);
      assert forall i :: 0 <= i < |init| ==> init[i] == rs[i];
    }
  }

  /** A run fails exactly when some result is an error, and then with the first error, right after the steps taken. */
  lemma {:induction false} RunAllError<T>(rs: seq<Result<T, InstallError>>)
    ensures RunAll(rs).error.None? <==> forall i :: 0 <= i < |rs| ==> rs[i].Ok?
    ensures RunAll(rs).error.Some? ==>
      |RunAll(rs).steps| < |rs| && rs[|RunAll(rs).steps|] == Err(RunAll(rs).error.value)
  {
    if rs != [] {
      var init := rs[..|rs| - 1];
      RunAllError(init);
      RunAllSteps(init);
      assert forall i :: 0 <= i < |init| ==> init[i] == rs[i];
    }
  }

  /** Once a prefix has failed, the run of the whole is the run of that prefix. */
  lemma {:induction false} RunAllStops<T>(rs: seq<Result<T, InstallError>>, k: nat)
    requires k <= |rs| && RunAll(rs[..k]).error.Some?
    ensures RunAll(rs) == RunAll(rs[..k])
    decreases |rs| - k
  {
    if k < |rs| {
      assert rs[..k + 1][..k] == rs[..k];
      RunAllStops(rs, k + 1);
    } else {
      assert rs[..k] == rs;
    }
  }

  /** Performs the writes in order, stopping at the first that cannot be made. */
  method RunWrites(fs: FileSystem, rs: seq<Result<Write, InstallError>>) returns (r: Result<(), InstallError>)
    modifies fs
    ensures fs.files == ApplyWrites(old(fs.files), RunAll(rs).steps)
    ensures r.Err? <==> RunAll(rs).error.Some?
    ensures r.Err? ==> r.error == RunAll(rs).error.value
    ensures fs.unpacked == old(fs.unpacked)
  {
    for i := 0 to |rs|
      invariant fs.files == ApplyWrites(old(fs.files), RunAll(rs[..i]).steps)
      invariant RunAll(rs[..i]).error.None?
      invariant fs.unpacked == old(fs.unpacked)
    {
      assert rs[..i + 1][..i] == rs[..i];
      if rs[i].Err? {
        RunAllStops(rs, i + 1);
        return Err(rs[i].error);
      }
      fs.Write(rs[i].value.0, rs[i].value.1);
    }
    assert rs[..|rs|] == rs;
    r := Ok(());
  }

  ghost predicate EntriesKnown(entries: seq<(string, PackageId)>, metadata: map<PackageId, ResolvePackageMetadata>)
  {
    forall i :: 0 <= i < |entries| ==> entries[i].1 in metadata
  }

  /** The link file for one entry of a dependency map: `<alias>.lua` in `base`. */
  function EntryWrite(
    c: InstallationContext, base: string, fromRealm: Realm, fromRoot: bool,
    metadata: map<PackageId, ResolvePackageMetadata>, e: (string, PackageId)): Result<Write, InstallError>
    requires e.1 in metadata
  {
    match LinkFor(c, fromRealm, fromRoot, metadata[e.1].originRealm, e.1)
    case Err(err) => Err(err)
    case Ok(text) => Ok((LinkPath(base, e.0), text))
  }

  /** The links `write_*_links` writes for `entries`, in order, up to the first one that cannot be written. */
  function LinkPlan(
    c: InstallationContext, base: string, fromRealm: Realm, fromRoot: bool,
    entries: seq<(string, PackageId)>, metadata: map<PackageId, ResolvePackageMetadata>): Plan<Write>
    requires EntriesKnown(entries, metadata)
  {
    RunAll(seq(|entries|, i requires 0 <= i < |entries| => EntryWrite(c, base, fromRealm, fromRoot, metadata, entries[i])))
  }

  /**
   * What a link plan writes: the link of each entry, in order, at
   * `<alias>.lua`; it fails exactly when some link cannot be written, and
   * then with the first such link's error, after the links before it.
   */
  lemma LinkPlanMeaning(
    c: InstallationContext, base: string, fromRealm: Realm, fromRoot: bool,
    entries: seq<(string, PackageId)>, metadata: map<PackageId, ResolvePackageMetadata>)
    requires EntriesKnown(entries, metadata)
    ensures var p := LinkPlan(c, base, fromRealm, fromRoot, entries, metadata);
      forall i :: 0 <= i < |p.steps| ==>
        i < |entries| && LinkFor(c, fromRealm, fromRoot, metadata[entries[i].1].originRealm, entries[i].1).Ok?
        && p.steps[i] == (LinkPath(base, entries[i].0), LinkFor(c, fromRealm, fromRoot, metadata[entries[i].1].originRealm, entries[i].1).value)
    ensures var p := LinkPlan(c, base, fromRealm, fromRoot, entries, metadata);
      p.error.None? <==> (|p.steps| == |entries|
        && forall i :: 0 <= i < |entries| ==> LinkFor(c, fromRealm, fromRoot, metadata[entries[i].1].originRealm, entries[i].1).Ok?)
    ensures var p := LinkPlan(c, base, fromRealm, fromRoot, entries, metadata);
      p.error.Some? ==> (|p.steps| < |entries|
        && LinkFor(c, fromRealm, fromRoot, metadata[entries[|p.steps|].1].originRealm, entries[|p.steps|].1) == Err(p.error.value))
  {
    var rs := seq(|entries|, i requires 0 <= i < |entries| => EntryWrite(c, base, fromRealm, fromRoot, metadata, entries[i]));
    RunAllSteps(rs);
    RunAllError(rs);
    forall i | 0 <= i < |entries|
      ensures rs[i].Ok? <==> LinkFor(c, fromRealm, fromRoot, metadata[entries[i].1].originRealm, entries[i].1).Ok?
      ensures rs[i].Ok? ==> rs[i].value == (LinkPath(base, entries[i].0), LinkFor(c, fromRealm, fromRoot, metadata[entries[i].1].originRealm, entries[i].1).value)
      ensures rs[i].Err? ==> rs[i].error == LinkFor(c, fromRealm, fromRoot, metadata[entries[i].1].originRealm, entries[i].1).error
    {
    }
  }

  /** `write_root_package_links` / `write_package_links` for one dependency map, in key order. */
  method WriteLinks(
    fs: FileSystem, c: InstallationContext, base: string, fromRealm: Realm, fromRoot: bool,
    deps: map<string, PackageId>, metadata: map<PackageId, ResolvePackageMetadata>)
    returns (r: Result<(), InstallError>)
    requires forall a :: a in deps ==> deps[a] in metadata
    modifies fs
    ensures EntriesKnown(Entries(deps), metadata)
    ensures var p := LinkPlan(c, base, fromRealm, fromRoot, Entries(deps), metadata);
      && fs.files == ApplyWrites(old(fs.files), p.steps)
      && (r.Err? <==> p.error.Some?)
      && (r.Err? ==> r.error == p.error.value)
    ensures fs.unpacked == old(fs.unpacked)
  {
    var entries := Entries(deps);
    DepsKnown(deps, metadata);
    var rs := seq(|entries|, i requires 0 <= i < |entries| => EntryWrite(c, base, fromRealm, fromRoot, metadata, entries[i]));
    assert LinkPlan(c, base, fromRealm, fromRoot, entries, metadata) == RunAll(rs);
    r := RunWrites(fs, rs);
  }

  /** The entries of a dependency map whose targets are all known are known. */
  lemma DepsKnown(deps: map<string, PackageId>, metadata: map<PackageId, ResolvePackageMetadata>)
    requires forall a :: a in deps ==> deps[a] in metadata
    ensures EntriesKnown(Entries(deps), metadata)
  {
    var entries := Entries(deps);
    forall i | 0 <= i < |entries| ensures entries[i].1 in metadata {
      assert entries[i].0 in deps && deps[entries[i].0] == entries[i].1;
    }
  }

  /** Plans run one after the other: the second only when the first succeeded. */
  function AndThen<T>(a: Plan<T>, b: Plan<T>): Plan<T>
  {
    if a.error.Some? then a else Plan(a.steps + b.steps, b.error)
  }

  /** The links for one dependency graph of `id`, or none when `id` has no entry in it. */
  function GraphLinks(
    c: InstallationContext, base: string, fromRealm: Realm, fromRoot: bool, id: PackageId,
    g: Graph, metadata: map<PackageId, ResolvePackageMetadata>): Plan<Write>
    requires EdgesWithin(g, metadata.Keys)
  {
    if id in g then
      assert EntriesKnown(Entries(g[id]), metadata);
      LinkPlan(c, base, fromRealm, fromRoot, Entries(g[id]), metadata)
    else Plan([], None)
  }

  /** The directory of the non-root package `id` in the index of `realm`. */
  function PackageDir(c: InstallationContext, realm: Realm, id: PackageId): string
  {
    Paths.Join(IndexDir(c, realm), FileName(id))
  }

  /** The realm the links of `id` start from: the graph's realm for the root, the package's origin realm otherwise. */
  function FromRealm(id: PackageId, rootId: PackageId, metadata: map<PackageId, ResolvePackageMetadata>, graphRealm: Realm): Realm
    requires id == rootId || id in metadata
  {
    if id == rootId then graphRealm else metadata[id].originRealm
  }

  /** Where the links of `id` go: the graph's realm directory for the root, the package's own directory otherwise. */
  function LinkBase(c: InstallationContext, id: PackageId, rootId: PackageId, metadata: map<PackageId, ResolvePackageMetadata>, graphRealm: Realm): string
    requires id == rootId || id in metadata
  {
    if id == rootId then RealmDir(c, graphRealm) else PackageDir(c, metadata[id].originRealm, id)
  }

  ghost predicate GraphsKnown(shared: Graph, server: Graph, dev: Graph, metadata: map<PackageId, ResolvePackageMetadata>)
  {
    EdgesWithin(shared, metadata.Keys) && EdgesWithin(server, metadata.Keys) && EdgesWithin(dev, metadata.Keys)
  }

  /** The links of `id` for the graph of `realm`. */
  function RealmLinks(
    c: InstallationContext, id: PackageId, rootId: PackageId, realm: Realm,
    g: Graph, metadata: map<PackageId, ResolvePackageMetadata>): Plan<Write>
    requires EdgesWithin(g, metadata.Keys) && (id == rootId || id in metadata)
  {
    GraphLinks(c, LinkBase(c, id, rootId, metadata, realm), FromRealm(id, rootId, metadata, realm), id == rootId, id, g, metadata)
  }

  /** The links of one activated package: its shared, then server, then dev dependencies. */
  function PackageLinks(
    c: InstallationContext, id: PackageId, rootId: PackageId,
    shared: Graph, server: Graph, dev: Graph, metadata: map<PackageId, ResolvePackageMetadata>): Plan<Write>
    requires GraphsKnown(shared, server, dev, metadata)
    requires id == rootId || id in metadata
  {
    AndThen(AndThen(
      RealmLinks(c, id, rootId, Shared, shared, metadata),
      RealmLinks(c, id, rootId, Server, server, metadata)),
      RealmLinks(c, id, rootId, Dev, dev, metadata))
  }

  /** Writes the links of one dependency graph of `id`. */
  method WriteRealmLinks(
    fs: FileSystem, c: InstallationContext, id: PackageId, rootId: PackageId, realm: Realm,
    g: Graph, metadata: map<PackageId, ResolvePackageMetadata>)
    returns (r: Result<(), InstallError>)
    requires EdgesWithin(g, metadata.Keys) && (id == rootId || id in metadata)
    modifies fs
    ensures var p := RealmLinks(c, id, rootId, realm, g, metadata);
      && fs.files == ApplyWrites(old(fs.files), p.steps)
      && (r.Err? <==> p.error.Some?)
      && (r.Err? ==> r.error == p.error.value)
    ensures fs.unpacked == old(fs.unpacked)
  {
    if id in g {
      r := WriteLinks(fs, c, LinkBase(c, id, rootId, metadata, realm), FromRealm(id, rootId, metadata, realm), id == rootId, g[id], metadata);
    } else {
      r := Ok(());
    }
  }

  /** Writes all links of one activated package. */
  method WritePackageLinks(
    fs: FileSystem, c: InstallationContext, id: PackageId, rootId: PackageId,
    shared: Graph, server: Graph, dev: Graph, metadata: map<PackageId, ResolvePackageMetadata>)
    returns (r: Result<(), InstallError>)
    requires GraphsKnown(shared, server, dev, metadata)
    requires id == rootId || id in metadata
    modifies fs
    ensures var p := PackageLinks(c, id, rootId, shared, server, dev, metadata);
      && fs.files == ApplyWrites(old(fs.files), p.steps)
      && (r.Err? <==> p.error.Some?)
      && (r.Err? ==> r.error == p.error.value)
    ensures fs.unpacked == old(fs.unpacked)
  {
    ghost var files0 := fs.files;
    ghost var a := RealmLinks(c, id, rootId, Shared, shared, metadata);
    ghost var b := RealmLinks(c, id, rootId, Server, server, metadata);
    ghost var d := RealmLinks(c, id, rootId, Dev, dev, metadata);
    r := WriteRealmLinks(fs, c, id, rootId, Shared, shared, metadata);
    if r.Err? {
      return;
    }
    r := WriteRealmLinks(fs, c, id, rootId, Server, server, metadata);
    ApplyWritesAppend(files0, a.steps, b.steps);
    if r.Err? {
      return;
    }
    r := WriteRealmLinks(fs, c, id, rootId, Dev, dev, metadata);
    ApplyWritesAppend(files0, a.steps + b.steps, d.steps);
  }

  // ---------------------------------------------------------------------
  // Installing a resolved graph

  lemma IdLessIsStrictTotalOrder()
    ensures StrictTotalOrder(IdLess)
  {
    forall a: PackageId ensures !IdLess(a, a) { CompareIdsProperties(a, a); }
    forall a: PackageId, b: PackageId, c: PackageId | IdLess(a, b) && IdLess(b, c) ensures IdLess(a, c) {
      IdLessTransitive(a, b, c);
    }
    forall a: PackageId, b: PackageId | a != b ensures IdLess(a, b) || IdLess(b, a) {
      CompareIdsProperties(a, b);
    }
  }

  /** The activated ids in the order the `BTreeSet` yields them. */
  function InstallOrder(activated: set<PackageId>): (r: seq<PackageId>)
    ensures |r| == |activated|
    ensures forall id :: id in r <==> id in activated
    ensures forall i, j :: 0 <= i < j < |r| ==> IdLess(r[i], r[j])
  {
    IdLessIsStrictTotalOrder();
    SortedElements(activated, IdLess)
  }

  /** Plans run in order, each only when all before it succeeded. */
  function AndThenAll<T>(ps: seq<Plan<T>>): Plan<T>
  {
    if ps == [] then Plan([], None) else AndThen(AndThenAll(ps[..|ps| - 1]), ps[|ps| - 1])
  }

  /** A sequence of plans fails exactly when one of them does, and then with the first failure. */
  lemma {:induction false} AndThenAllError<T>(ps: seq<Plan<T>>)
    ensures AndThenAll(ps).error.None? <==> forall i :: 0 <= i < |ps| ==> ps[i].error.None?
    ensures AndThenAll(ps).error.Some? ==>
      exists i :: 0 <= i < |ps| && ps[i].error == AndThenAll(ps).error && forall j :: 0 <= j < i ==> ps[j].error.None?
  {
    if ps != [] {
      var init := ps[..|ps| - 1];
      AndThenAllError(init);
      assert forall i :: 0 <= i < |init| ==> init[i] == ps[i];
    }
  }

  /** Every step of a sequence of plans is a step of one of them. */
  lemma {:induction false} AndThenAllSteps<T>(ps: seq<Plan<T>>, x: T)
    requires x in AndThenAll(ps).steps
    ensures exists i :: 0 <= i < |ps| && x in ps[i].steps
  {
    var init := ps[..|ps| - 1];
    if x !in ps[|ps| - 1].steps {
      AndThenAllSteps(init, x);
      var i :| 0 <= i < |init| && x in init[i].steps;
      assert init[i] == ps[i];
    }
  }

  /** Once a prefix has failed, the rest does not run. */
  /** One more plan after plans that all succeeded: its steps follow theirs, and its error is the result's. */
  lemma AndThenAllSnoc<T>(ps: seq<Plan<T>>, i: nat)
    requires i < |ps| && AndThenAll(ps[..i]).error.None?
    ensures AndThenAll(ps[..i + 1]) == Plan(AndThenAll(ps[..i]).steps + ps[i].steps, ps[i].error)
  {
    assert ps[..i + 1][..i] == ps[..i];
  }

  lemma {:induction false} AndThenAllStops<T>(ps: seq<Plan<T>>, k: nat)
    requires k <= |ps| && AndThenAll(ps[..k]).error.Some?
    ensures AndThenAll(ps) == AndThenAll(ps[..k])
    decreases |ps| - k
  {
    if k < |ps| {
      assert ps[..k + 1][..k] == ps[..k];
      AndThenAllStops(ps, k + 1);
    } else {
      assert ps[..k] == ps;
    }
  }

  ghost predicate IdsKnown(ids: seq<PackageId>, rootId: PackageId, metadata: map<PackageId, ResolvePackageMetadata>)
  {
    forall i :: 0 <= i < |ids| ==> ids[i] == rootId || ids[i] in metadata
  }

  /** The links of each package of `ids`, in order. */
  function PackagePlans(
    c: InstallationContext, ids: seq<PackageId>, rootId: PackageId,
    shared: Graph, server: Graph, dev: Graph, metadata: map<PackageId, ResolvePackageMetadata>): (r: seq<Plan<Write>>)
    requires GraphsKnown(shared, server, dev, metadata) && IdsKnown(ids, rootId, metadata)
    ensures |r| == |ids|
  {
    seq(|ids|, i requires 0 <= i < |ids| => PackageLinks(c, ids[i], rootId, shared, server, dev, metadata))
  }

  /** Where `write_contents` unpacks a package: `<index>/<file name>/<short name>`. */
  function ContentsDir(c: InstallationContext, realm: Realm, id: PackageId): string
  {
    Paths.Join(PackageDir(c, realm, id), id.name.name)
  }

  /** One download task: the package, where it goes, and what its source returned. */
  datatype Fetch = Fetch(id: PackageId, dir: string, result: Result<PackageContents, string>)

  ghost predicate Fetchable(ids: seq<PackageId>, metadata: map<PackageId, ResolvePackageMetadata>, sources: map<PackageSourceId, PackageSource>)
  {
    forall i :: 0 <= i < |ids| ==> ids[i] in metadata && metadata[ids[i]].sourceRegistry in sources
  }

  /** The download of one package from the source it was resolved from, into its origin realm's index. */
  function FetchOf(
    c: InstallationContext, id: PackageId,
    metadata: map<PackageId, ResolvePackageMetadata>, sources: map<PackageSourceId, PackageSource>): Fetch
    requires id in metadata && metadata[id].sourceRegistry in sources
  {
    Fetch(id, ContentsDir(c, metadata[id].originRealm, id), sources[metadata[id].sourceRegistry].download(id))
  }

  /** `s` without the elements equal to `x`, in order. */
  function Without<T(==)>(s: seq<T>, x: T): seq<T>
  {
    if s == [] then []
    else Without(s[..|s| - 1], x) + (if s[|s| - 1] == x then [] else [s[|s| - 1]])
  }

  lemma {:induction false} WithoutMembers<T>(s: seq<T>, x: T)
    ensures forall y :: y in Without(s, x) <==> y in s && y != x
  {
    if s != [] {
      WithoutMembers(s[..|s| - 1], x);
      assert s == s[..|s| - 1] + [s[|s| - 1]];
    }
  }

  lemma WithoutFrom<T>(s: seq<T>, x: T, i: nat)
    requires i < |Without(s, x)|
    ensures Without(s, x)[i] in s && Without(s, x)[i] != x
  {
    WithoutMembers(s, x);
    assert Without(s, x)[i] in Without(s, x);
  }

  lemma {:induction false} WithoutOrdered<T>(s: seq<T>, x: T, lt: (T, T) -> bool)
    requires forall i, j :: 0 <= i < j < |s| ==> lt(s[i], s[j])
    ensures forall i, j :: 0 <= i < j < |Without(s, x)| ==> lt(Without(s, x)[i], Without(s, x)[j])
  {
    if s != [] {
      var init, last := s[..|s| - 1], s[|s| - 1];
      forall i, j | 0 <= i < j < |init|
        ensures lt(init[i], init[j])
      {
        assert init[i] == s[i] && init[j] == s[j];
      }
      WithoutOrdered(init, x, lt);
      WithoutMembers(init, x);
      var g := Without(init, x);
      forall i | 0 <= i < |g|
        ensures lt(g[i], last)
      {
        WithoutFrom(init, x, i);
        var k :| 0 <= k < |init| && init[k] == g[i];
        assert s[k] == init[k];
      }
      var w := Without(s, x);
      if last != x {
        assert w == g + [last];
        forall i, j | 0 <= i < j < |w|
          ensures lt(w[i], w[j])
        {
          if j < |g| {
            assert w[i] == g[i] && w[j] == g[j];
            assert lt(g[i], g[j]);
          } else {
            assert w[i] == g[i] && w[j] == last;
          }
        }
      } else {
        assert w == g;
      }
    }
  }

  /**
   * The downloads `install` spawns: one per package of `ids` other than
   * the root, in order, each from the package's own source into its
   * origin realm's index.
   */
  function Fetches(
    c: InstallationContext, ids: seq<PackageId>, rootId: PackageId,
    metadata: map<PackageId, ResolvePackageMetadata>, sources: map<PackageSourceId, PackageSource>): (r: seq<Fetch>)
    requires Fetchable(ids, metadata, sources)
    ensures |r| == |Without(ids, rootId)|
  {
    var w := Without(ids, rootId);
    WithoutMembers(ids, rootId);
    assert forall i :: 0 <= i < |w| ==> w[i] in ids;
    seq(|w|, i requires 0 <= i < |w| => FetchOf(c, w[i], metadata, sources))
  }

  /**
   * The root is never downloaded; every other package of `ids` is, and
   * in the order of `ids`, so none of them twice when `ids` is strictly
   * ordered (as the `BTreeSet` walk is).
   */
  lemma FetchesCover(
    c: InstallationContext, ids: seq<PackageId>, rootId: PackageId,
    metadata: map<PackageId, ResolvePackageMetadata>, sources: map<PackageSourceId, PackageSource>,
    lt: (PackageId, PackageId) -> bool)
    requires Fetchable(ids, metadata, sources)
    requires forall i, j :: 0 <= i < j < |ids| ==> lt(ids[i], ids[j])
    ensures forall i :: 0 <= i < |Fetches(c, ids, rootId, metadata, sources)| ==>
      && Fetches(c, ids, rootId, metadata, sources)[i].id in ids
      && Fetches(c, ids, rootId, metadata, sources)[i].id != rootId
      && Fetches(c, ids, rootId, metadata, sources)[i] == FetchOf(c, Fetches(c, ids, rootId, metadata, sources)[i].id, metadata, sources)
    ensures forall id :: id in ids && id != rootId ==>
      exists i :: 0 <= i < |Fetches(c, ids, rootId, metadata, sources)| && Fetches(c, ids, rootId, metadata, sources)[i].id == id
    ensures forall i, j :: 0 <= i < j < |Fetches(c, ids, rootId, metadata, sources)| ==>
      lt(Fetches(c, ids, rootId, metadata, sources)[i].id, Fetches(c, ids, rootId, metadata, sources)[j].id)
  {
    FetchesMembers(c, ids, rootId, metadata, sources);
    FetchesComplete(c, ids, rootId, metadata, sources);
    FetchesOrdered(c, ids, rootId, metadata, sources, lt);
  }

  lemma FetchesMembers(
    c: InstallationContext, ids: seq<PackageId>, rootId: PackageId,
    metadata: map<PackageId, ResolvePackageMetadata>, sources: map<PackageSourceId, PackageSource>)
    requires Fetchable(ids, metadata, sources)
    ensures forall i :: 0 <= i < |Fetches(c, ids, rootId, metadata, sources)| ==>
      && Fetches(c, ids, rootId, metadata, sources)[i].id in ids
      && Fetches(c, ids, rootId, metadata, sources)[i].id != rootId
      && Fetches(c, ids, rootId, metadata, sources)[i] == FetchOf(c, Fetches(c, ids, rootId, metadata, sources)[i].id, metadata, sources)
  {
    var w := Without(ids, rootId);
    var f := Fetches(c, ids, rootId, metadata, sources);
    forall i | 0 <= i < |f|
      ensures f[i].id in ids && f[i].id != rootId && f[i] == FetchOf(c, f[i].id, metadata, sources)
    {
      assert f[i].id == w[i];
      WithoutFrom(ids, rootId, i);
    }
  }

  lemma FetchesComplete(
    c: InstallationContext, ids: seq<PackageId>, rootId: PackageId,
    metadata: map<PackageId, ResolvePackageMetadata>, sources: map<PackageSourceId, PackageSource>)
    requires Fetchable(ids, metadata, sources)
    ensures forall id :: id in ids && id != rootId ==>
      exists i :: 0 <= i < |Fetches(c, ids, rootId, metadata, sources)| && Fetches(c, ids, rootId, metadata, sources)[i].id == id
  {
    var w := Without(ids, rootId);
    var f := Fetches(c, ids, rootId, metadata, sources);
    WithoutMembers(ids, rootId);
    forall id | id in ids && id != rootId
      ensures exists i :: 0 <= i < |f| && f[i].id == id
    {
      assert id in w;
      var i :| 0 <= i < |w| && w[i] == id;
      assert f[i].id == id;
    }
  }

  lemma FetchesOrdered(
    c: InstallationContext, ids: seq<PackageId>, rootId: PackageId,
    metadata: map<PackageId, ResolvePackageMetadata>, sources: map<PackageSourceId, PackageSource>,
    lt: (PackageId, PackageId) -> bool)
    requires Fetchable(ids, metadata, sources)
    requires forall i, j :: 0 <= i < j < |ids| ==> lt(ids[i], ids[j])
    ensures forall i, j :: 0 <= i < j < |Fetches(c, ids, rootId, metadata, sources)| ==>
      lt(Fetches(c, ids, rootId, metadata, sources)[i].id, Fetches(c, ids, rootId, metadata, sources)[j].id)
  {
    var w := Without(ids, rootId);
    var f := Fetches(c, ids, rootId, metadata, sources);
    WithoutOrdered(ids, rootId, lt);
    assert forall i :: 0 <= i < |f| ==> f[i].id == w[i];
  }

  /** What the successful downloads unpack, in order. */
  function Unpacks(fetches: seq<Fetch>): seq<(string, PackageContents)>
  {
    if fetches == [] then []
    else
      var last := fetches[|fetches| - 1];
      Unpacks(fetches[..|fetches| - 1]) + (if last.result.Ok? then [(last.dir, last.result.value)] else [])
  }

  /** Every successful download, and nothing else, is unpacked. */
  lemma {:induction false} UnpacksMeaning(fetches: seq<Fetch>, u: (string, PackageContents))
    ensures u in Unpacks(fetches) <==>
      exists i :: 0 <= i < |fetches| && fetches[i].result.Ok? && u == (fetches[i].dir, fetches[i].result.value)
  {
    if fetches != [] {
      var init := fetches[..|fetches| - 1];
      UnpacksMeaning(init, u);
      assert forall i :: 0 <= i < |init| ==> init[i] == fetches[i];
    }
  }

  /** The error `install` reports after waiting for every download: the first in spawn order. */
  function FirstFailure(fetches: seq<Fetch>): Option<string>
  {
    if fetches == [] then None
    else
      var prev := FirstFailure(fetches[..|fetches| - 1]);
      var last := fetches[|fetches| - 1];
      if prev.Some? then prev else if last.result.Err? then Some(last.result.error) else None
  }

  /** Installation succeeds exactly when every download does; otherwise the earliest failure is reported. */
  lemma {:induction false} FirstFailureMeaning(fetches: seq<Fetch>)
    ensures FirstFailure(fetches).None? <==> forall i :: 0 <= i < |fetches| ==> fetches[i].result.Ok?
    ensures FirstFailure(fetches).Some? ==>
      exists i :: 0 <= i < |fetches| && fetches[i].result == Err(FirstFailure(fetches).value)
        && forall j :: 0 <= j < i ==> fetches[j].result.Ok?
  {
    if fetches != [] {
      var init := fetches[..|fetches| - 1];
      FirstFailureMeaning(init);
      assert forall i :: 0 <= i < |init| ==> init[i] == fetches[i];
    }
  }

  /**
   * How many packages have their links written in full before the first
   * whose links fail: every package when none fails.
   */
  function LinkedCount<T>(ps: seq<Plan<T>>): (k: nat)
    ensures k <= |ps|
    ensures forall j :: 0 <= j < k ==> ps[j].error.None?
    ensures k < |ps| ==> ps[k].error.Some?
  {
    if ps == [] || ps[0].error.Some? then 0
    else
      var k := LinkedCount(ps[1..]);
      assert forall j :: 1 <= j < k + 1 ==> ps[j] == ps[1..][j - 1];
      k + 1
  }

  /** The plans fail exactly when some package's links fail, and then with that package's error. */
  lemma LinkedCountError<T>(ps: seq<Plan<T>>)
    ensures AndThenAll(ps).error.None? <==> LinkedCount(ps) == |ps|
    ensures AndThenAll(ps).error.Some? ==> AndThenAll(ps).error == ps[LinkedCount(ps)].error
  {
    AndThenAllError(ps);
    if AndThenAll(ps).error.Some? {
      var i :| 0 <= i < |ps| && ps[i].error == AndThenAll(ps).error && forall j :: 0 <= j < i ==> ps[j].error.None?;
      assert i == LinkedCount(ps);
    }
  }

  /** The count is `i` when the plans before `i` succeed and plan `i` fails. */
  lemma LinkedCountAt<T>(ps: seq<Plan<T>>, i: nat)
    requires i < |ps| && AndThenAll(ps[..i]).error.None? && ps[i].error.Some?
    ensures LinkedCount(ps) == i
  {
    AndThenAllError(ps[..i]);
    assert forall j :: 0 <= j < i ==> ps[..i][j] == ps[j];
  }

  /** The count is every plan when all of them succeed. */
  lemma LinkedCountAll<T>(ps: seq<Plan<T>>)
    requires AndThenAll(ps).error.None?
    ensures LinkedCount(ps) == |ps|
  {
    AndThenAllError(ps);
  }

  lemma FetchablePrefix(ids: seq<PackageId>, metadata: map<PackageId, ResolvePackageMetadata>, sources: map<PackageSourceId, PackageSource>, k: nat)
    requires Fetchable(ids, metadata, sources) && k <= |ids|
    ensures Fetchable(ids[..k], metadata, sources)
  {
  }

  /** The downloads spawned for the first `k` packages of `ids`. */
  function FetchesBefore(
    c: InstallationContext, ids: seq<PackageId>, rootId: PackageId,
    metadata: map<PackageId, ResolvePackageMetadata>, sources: map<PackageSourceId, PackageSource>, k: nat): seq<Fetch>
    requires Fetchable(ids, metadata, sources) && k <= |ids|
  {
    FetchablePrefix(ids, metadata, sources, k);
    Fetches(c, ids[..k], rootId, metadata, sources)
  }

  /** One more package spawns one more download, unless it is the root. */
  lemma FetchesSnoc(
    c: InstallationContext, ids: seq<PackageId>, rootId: PackageId,
    metadata: map<PackageId, ResolvePackageMetadata>, sources: map<PackageSourceId, PackageSource>, i: nat)
    requires Fetchable(ids, metadata, sources) && i < |ids|
    ensures Fetchable(ids[..i], metadata, sources) && Fetchable(ids[..i + 1], metadata, sources)
    ensures Fetches(c, ids[..i + 1], rootId, metadata, sources)
         == Fetches(c, ids[..i], rootId, metadata, sources) + (if ids[i] == rootId then [] else [FetchOf(c, ids[i], metadata, sources)])
  {
    FetchablePrefix(ids, metadata, sources, i);
    FetchablePrefix(ids, metadata, sources, i + 1);
    assert ids[..i + 1][..i] == ids[..i];
    var w, w' := Without(ids[..i], rootId), Without(ids[..i + 1], rootId);
    assert w' == w + (if ids[i] == rootId then [] else [ids[i]]);
  }

  lemma UnpacksSnoc(fetches: seq<Fetch>, f: Fetch)
    ensures Unpacks(fetches + [f]) == Unpacks(fetches) + (if f.result.Ok? then [(f.dir, f.result.value)] else [])
  {
    assert (fetches + [f])[..|fetches|] == fetches;
  }

  /**
   * The wait for the download tasks of `install`: every spawned task has
   * run to its end, and the first failure in spawn order is returned.
   */
  method JoinAll(fetches: seq<Fetch>) returns (failure: Option<string>)
    ensures failure == FirstFailure(fetches)
  {
    failure := None;
    for i := 0 to |fetches|
      invariant failure == FirstFailure(fetches[..i])
    {
      assert fetches[..i + 1][..i] == fetches[..i];
      if failure.None? && fetches[i].result.Err? {
        failure := Some(fetches[i].result.error);
      }
    }
    assert fetches[..|fetches|] == fetches;
  }

  /**
   * `install`: for every activated package in id order, write its links
   * with `?`, then (but for the root) spawn its download, which unpacks it
   * into its origin realm's index. A link failure returns at once; the
   * downloads spawned before it still run to their end. Otherwise every
   * download is waited for and the first failure in spawn order is
   * reported.
   */
  method Install(fs: FileSystem, c: InstallationContext, sources: PackageSourceMap, rootId: PackageId, resolved: Resolve)
    returns (r: Result<(), InstallError>)
    requires GraphsKnown(resolved.sharedDependencies, resolved.serverDependencies, resolved.devDependencies, resolved.metadata)
    requires resolved.activated <= resolved.metadata.Keys
    requires forall id :: id in resolved.metadata ==> resolved.metadata[id].sourceRegistry in sources.sources
    modifies fs
    ensures var links := InstallLinks(c, rootId, resolved.activated, resolved.sharedDependencies,
                                      resolved.serverDependencies, resolved.devDependencies, resolved.metadata);
      var spawned := InstallSpawned(c, rootId, resolved.activated, resolved.sharedDependencies,
                                    resolved.serverDependencies, resolved.devDependencies, resolved.metadata, sources.sources);
      && fs.files == ApplyWrites(old(fs.files), links.steps)
      && fs.unpacked == ApplyWrites(old(fs.unpacked), Unpacks(spawned))
      && (links.error.Some? ==> r == Err(links.error.value))
      && (links.error.None? ==>
            && spawned == InstallFetches(c, rootId, resolved.activated, resolved.metadata, sources.sources)
            && (r.Ok? <==> FirstFailure(spawned).None?)
            && (r.Err? ==> r.error == DownloadFailed(FirstFailure(spawned).value)))
  {
    var metadata := resolved.metadata;
    var shared, server, dev := resolved.sharedDependencies, resolved.serverDependencies, resolved.devDependencies;
    var ids := InstallOrder(resolved.activated);
    assert IdsKnown(ids, rootId, metadata) && Fetchable(ids, metadata, sources.sources) by {
      assert forall i :: 0 <= i < |ids| ==> ids[i] in resolved.activated;
    }
    ghost var plans := PackagePlans(c, ids, rootId, shared, server, dev, metadata);
    assert InstallLinks(c, rootId, resolved.activated, shared, server, dev, metadata) == AndThenAll(plans);
    var spawned;
    r, spawned := LinkAndSpawn(fs, c, ids, rootId, shared, server, dev, metadata, sources.sources);
    LinkedCountError(plans);
    if r.Err? {
      return;
    }
    assert ids[..|ids|] == ids;
    var failure := JoinAll(spawned);
    r := if failure.Some? then Err(DownloadFailed(failure.value)) else Ok(());
  }

  /**
   * The `for` loop of `install`: each package's links with `?`, then,
   * for every package but the root, its download task, which unpacks it
   * when the download succeeds. It stops at the first link failure.
   */
  method LinkAndSpawn(
    fs: FileSystem, c: InstallationContext, ids: seq<PackageId>, rootId: PackageId,
    shared: Graph, server: Graph, dev: Graph, metadata: map<PackageId, ResolvePackageMetadata>,
    sources: map<PackageSourceId, PackageSource>)
    returns (r: Result<(), InstallError>, spawned: seq<Fetch>)
    requires GraphsKnown(shared, server, dev, metadata) && IdsKnown(ids, rootId, metadata) && Fetchable(ids, metadata, sources)
    modifies fs
    ensures var plans := PackagePlans(c, ids, rootId, shared, server, dev, metadata);
      var k := LinkedCount(plans);
      && fs.files == ApplyWrites(old(fs.files), AndThenAll(plans).steps)
      && spawned == FetchesBefore(c, ids, rootId, metadata, sources, k)
      && fs.unpacked == ApplyWrites(old(fs.unpacked), Unpacks(spawned))
      && (r.Err? <==> k < |ids|)
      && (r.Err? ==> r.error == plans[k].error.value)
  {
    ghost var plans := PackagePlans(c, ids, rootId, shared, server, dev, metadata);
    spawned := [];
    assert ids[..0] == [];
    for i := 0 to |ids|
      invariant fs.files == ApplyWrites(old(fs.files), AndThenAll(plans[..i]).steps)
      invariant AndThenAll(plans[..i]).error.None?
      invariant spawned == Fetches(c, ids[..i], rootId, metadata, sources)
      invariant fs.unpacked == ApplyWrites(old(fs.unpacked), Unpacks(spawned))
    {
      r := WritePackageLinks(fs, c, ids[i], rootId, shared, server, dev, metadata);
      assert plans[i] == PackageLinks(c, ids[i], rootId, shared, server, dev, metadata);
      AndThenAllSnoc(plans, i);
      ApplyWritesAppend(old(fs.files), AndThenAll(plans[..i]).steps, plans[i].steps);
      if r.Err? {
        AndThenAllStops(plans, i + 1);
        LinkedCountAt(plans, i);
        return;
      }
      FetchesSnoc(c, ids, rootId, metadata, sources, i);
      if ids[i] != rootId {
        var fetch := Fetch(ids[i], ContentsDir(c, metadata[ids[i]].originRealm, ids[i]), sources[metadata[ids[i]].sourceRegistry].download(ids[i]));
        if fetch.result.Ok? {
          fs.Unpack(fetch.dir, fetch.result.value);
        }
        UnpacksSnoc(spawned, fetch);
        ApplyWritesAppend(old(fs.unpacked), Unpacks(spawned), if fetch.result.Ok? then [(fetch.dir, fetch.result.value)] else []);
        spawned := spawned + [fetch];
      } else {
        assert spawned + [] == spawned;
      }
    }
    assert plans[..|ids|] == plans && ids[..|ids|] == ids;
    LinkedCountAll(plans);
    r := Ok(());
  }

  /**
   * The downloads an install spawns: those of the packages before the
   * first whose links fail, or of every package when none fails.
   */
  function InstallSpawned(c: InstallationContext, rootId: PackageId, activated: set<PackageId>,
                          shared: Graph, server: Graph, dev: Graph, metadata: map<PackageId, ResolvePackageMetadata>,
                          sources: map<PackageSourceId, PackageSource>): seq<Fetch>
    requires GraphsKnown(shared, server, dev, metadata) && activated <= metadata.Keys
    requires forall id :: id in metadata ==> metadata[id].sourceRegistry in sources
  {
    var ids := InstallOrder(activated);
    assert IdsKnown(ids, rootId, metadata) && Fetchable(ids, metadata, sources) by {
      assert forall i :: 0 <= i < |ids| ==> ids[i] in activated;
    }
    FetchesBefore(c, ids, rootId, metadata, sources, LinkedCount(PackagePlans(c, ids, rootId, shared, server, dev, metadata)))
  }

  /**
   * With `k` packages linked before a failure, every spawned download is
   * of a package other than the root among those `k`, each of them is
   * spawned, and the package whose links failed is not.
   */
  lemma InstallSpawnedMeaning(c: InstallationContext, rootId: PackageId, activated: set<PackageId>,
                              shared: Graph, server: Graph, dev: Graph, metadata: map<PackageId, ResolvePackageMetadata>,
                              sources: map<PackageSourceId, PackageSource>)
    requires GraphsKnown(shared, server, dev, metadata) && activated <= metadata.Keys
    requires forall id :: id in metadata ==> metadata[id].sourceRegistry in sources
    ensures var ids := InstallOrder(activated);
      var k := LinkedCount(PackagePlans(c, ids, rootId, shared, server, dev, metadata));
      var spawned := InstallSpawned(c, rootId, activated, shared, server, dev, metadata, sources);
      && (forall f :: f in spawned ==> f.id in ids[..k] && f.id != rootId && f == FetchOf(c, f.id, metadata, sources))
      && (forall j :: 0 <= j < k && ids[j] != rootId ==> exists f :: f in spawned && f.id == ids[j])
      && (k < |ids| ==> forall f :: f in spawned ==> f.id != ids[k])
  {
    var ids := InstallOrder(activated);
    assert IdsKnown(ids, rootId, metadata) && Fetchable(ids, metadata, sources) by {
      assert forall i :: 0 <= i < |ids| ==> ids[i] in activated;
    }
    var k := LinkedCount(PackagePlans(c, ids, rootId, shared, server, dev, metadata));
    FetchablePrefix(ids, metadata, sources, k);
    var pre := ids[..k];
    var spawned := Fetches(c, pre, rootId, metadata, sources);
    FetchesMembers(c, pre, rootId, metadata, sources);
    FetchesComplete(c, pre, rootId, metadata, sources);
    forall j | 0 <= j < k && ids[j] != rootId
      ensures exists f :: f in spawned && f.id == ids[j]
    {
      assert pre[j] == ids[j] && ids[j] in pre;
      var i :| 0 <= i < |spawned| && spawned[i].id == ids[j];
      assert spawned[i] in spawned;
    }
    if k < |ids| {
      IdLessIsStrictTotalOrder();
      forall f | f in spawned ensures f.id != ids[k] {
        var i :| 0 <= i < |spawned| && spawned[i] == f;
        var j :| 0 <= j < k && pre[j] == f.id;
        assert IdLess(ids[j], ids[k]);
      }
    }
  }

  /** The link writes of an install: every activated package in id order, stopping at the first failure. */
  function InstallLinks(c: InstallationContext, rootId: PackageId, activated: set<PackageId>,
                        shared: Graph, server: Graph, dev: Graph, metadata: map<PackageId, ResolvePackageMetadata>): Plan<Write>
    requires GraphsKnown(shared, server, dev, metadata) && activated <= metadata.Keys
  {
    var ids := InstallOrder(activated);
    assert IdsKnown(ids, rootId, metadata) by {
      assert forall i :: 0 <= i < |ids| ==> ids[i] in activated;
    }
    AndThenAll(PackagePlans(c, ids, rootId, shared, server, dev, metadata))
  }

  /** The downloads of an install: every activated package but the root, in id order. */
  function InstallFetches(c: InstallationContext, rootId: PackageId, activated: set<PackageId>,
                          metadata: map<PackageId, ResolvePackageMetadata>, sources: map<PackageSourceId, PackageSource>): seq<Fetch>
    requires activated <= metadata.Keys
    requires forall id :: id in metadata ==> metadata[id].sourceRegistry in sources
  {
    var ids := InstallOrder(activated);
    assert Fetchable(ids, metadata, sources) by {
      assert forall i :: 0 <= i < |ids| ==> ids[i] in activated;
    }
    Fetches(c, ids, rootId, metadata, sources)
  }

  /** The resolver's result is ready to install: its graphs, metadata and sources line up. */
  lemma ResolvedIsInstallable(
    activated: set<PackageId>, metadata: map<PackageId, ResolvePackageMetadata>,
    shared: Graph, server: Graph, dev: Graph, order: seq<PackageSourceId>, sources: map<PackageSourceId, PackageSource>)
    requires Consistent(activated, metadata, shared, server, dev, order)
    requires WellFormed(order, sources)
    ensures GraphsKnown(shared, server, dev, metadata)
    ensures activated <= metadata.Keys
    ensures forall id :: id in metadata ==> metadata[id].sourceRegistry in sources
  {
    forall id | id in metadata ensures metadata[id].sourceRegistry in sources {
      var k :| 0 <= k < |order| && order[k] == metadata[id].sourceRegistry;
    }
  }

  // ---------------------------------------------------------------------
  // Everything an install writes lies under the three realm directories

  ghost predicate UnderRealms(c: InstallationContext, p: string)
  {
    exists realm :: Paths.StartsWith(p, RealmDir(c, realm))
  }

  /** No alias of the graph is an absolute path. */
  ghost predicate RelativeAliases(g: Graph)
  {
    forall id, alias :: id in g && alias in g[id] ==> alias == [] || alias[0] != '/'
  }

  /** A valid package's directories lie inside the realm directory whose index holds them. */
  lemma PackageDirUnder(projectPath: string, sharedPath: Option<string>, serverPath: Option<string>, realm: Realm, id: PackageId)
    requires ValidId(id)
    ensures Paths.StartsWith(PackageDir(NewContext(projectPath, sharedPath, serverPath), realm, id),
                             RealmDir(NewContext(projectPath, sharedPath, serverPath), realm))
    ensures Paths.StartsWith(ContentsDir(NewContext(projectPath, sharedPath, serverPath), realm, id),
                             RealmDir(NewContext(projectPath, sharedPath, serverPath), realm))
  {
    var c := NewContext(projectPath, sharedPath, serverPath);
    ContextLayout(projectPath, sharedPath, serverPath, realm);
    NoSlashInValidPart(id.name.scope);
    NoSlashInValidPart(id.name.name);
    assert FileName(id)[0] == id.name.scope[0];
    Paths.JoinStartsWith(IndexDir(c, realm), FileName(id));
    Paths.StartsWithTransitive(PackageDir(c, realm, id), IndexDir(c, realm), RealmDir(c, realm));
    assert id.name.name[0] in id.name.name;
    Paths.JoinStartsWith(PackageDir(c, realm, id), id.name.name);
    Paths.StartsWithTransitive(ContentsDir(c, realm, id), PackageDir(c, realm, id), RealmDir(c, realm));
  }

  /** A link file lies inside the directory it is written to. */
  lemma LinkPathUnder(base: string, alias: string)
    requires alias == [] || alias[0] != '/'
    ensures Paths.StartsWith(LinkPath(base, alias), base)
  {
    assert (alias + ".lua")[0] == if alias == [] then '.' else alias[0];
    Paths.JoinStartsWith(base, alias + ".lua");
  }

  /** The links of one graph of `id` lie under a realm directory. */
  lemma RealmLinksUnder(
    projectPath: string, sharedPath: Option<string>, serverPath: Option<string>,
    id: PackageId, rootId: PackageId, realm: Realm, g: Graph, metadata: map<PackageId, ResolvePackageMetadata>, k: nat)
    requires EdgesWithin(g, metadata.Keys) && (id == rootId || id in metadata)
    requires RelativeAliases(g) && ValidId(id)
    requires k < |RealmLinks(NewContext(projectPath, sharedPath, serverPath), id, rootId, realm, g, metadata).steps|
    ensures UnderRealms(NewContext(projectPath, sharedPath, serverPath),
                        RealmLinks(NewContext(projectPath, sharedPath, serverPath), id, rootId, realm, g, metadata).steps[k].0)
  {
    var c := NewContext(projectPath, sharedPath, serverPath);
    var base := LinkBase(c, id, rootId, metadata, realm);
    var path := RealmLinks(c, id, rootId, realm, g, metadata).steps[k].0;
    var alias := RealmStepAlias(c, id, rootId, realm, g, metadata, k);
    LinkPathUnder(base, alias);
    var baseRealm := if id == rootId then realm else metadata[id].originRealm;
    LinkBaseUnder(projectPath, sharedPath, serverPath, id, rootId, metadata, realm);
    Paths.StartsWithTransitive(path, base, RealmDir(c, baseRealm));
  }

  /** Step `k` of a graph's links is the link of an alias of the graph. */
  lemma RealmStepAlias(
    c: InstallationContext, id: PackageId, rootId: PackageId, realm: Realm,
    g: Graph, metadata: map<PackageId, ResolvePackageMetadata>, k: nat) returns (alias: string)
    requires EdgesWithin(g, metadata.Keys) && (id == rootId || id in metadata)
    requires RelativeAliases(g)
    requires k < |RealmLinks(c, id, rootId, realm, g, metadata).steps|
    ensures alias == [] || alias[0] != '/'
    ensures RealmLinks(c, id, rootId, realm, g, metadata).steps[k].0 == LinkPath(LinkBase(c, id, rootId, metadata, realm), alias)
  {
    var base := LinkBase(c, id, rootId, metadata, realm);
    var fromRealm := FromRealm(id, rootId, metadata, realm);
    assert id in g;
    var entries := Entries(g[id]);
    assert EntriesKnown(entries, metadata);
    assert RealmLinks(c, id, rootId, realm, g, metadata) == LinkPlan(c, base, fromRealm, id == rootId, entries, metadata);
    LinkPlanMeaning(c, base, fromRealm, id == rootId, entries, metadata);
    alias := entries[k].0;
    assert alias in g[id];
  }

  /** The links of a package go under the realm directory its directory lies in. */
  lemma LinkBaseUnder(
    projectPath: string, sharedPath: Option<string>, serverPath: Option<string>,
    id: PackageId, rootId: PackageId, metadata: map<PackageId, ResolvePackageMetadata>, realm: Realm)
    requires (id == rootId || id in metadata) && ValidId(id)
    ensures var c := NewContext(projectPath, sharedPath, serverPath);
      Paths.StartsWith(LinkBase(c, id, rootId, metadata, realm),
                       RealmDir(c, if id == rootId then realm else metadata[id].originRealm))
  {
    if id != rootId {
      PackageDirUnder(projectPath, sharedPath, serverPath, metadata[id].originRealm, id);
    }
  }

  /** Every step of two plans run in turn is a step of one of them. */
  lemma AndThenSteps<T>(a: Plan<T>, b: Plan<T>, x: T)
    requires x in AndThen(a, b).steps
    ensures x in a.steps || x in b.steps
  {
  }

  /** The links of one package lie under a realm directory. */
  lemma PackageLinksUnder(
    projectPath: string, sharedPath: Option<string>, serverPath: Option<string>,
    id: PackageId, rootId: PackageId, shared: Graph, server: Graph, dev: Graph,
    metadata: map<PackageId, ResolvePackageMetadata>, w: Write)
    requires GraphsKnown(shared, server, dev, metadata) && (id == rootId || id in metadata)
    requires RelativeAliases(shared) && RelativeAliases(server) && RelativeAliases(dev) && ValidId(id)
    requires w in PackageLinks(NewContext(projectPath, sharedPath, serverPath), id, rootId, shared, server, dev, metadata).steps
    ensures UnderRealms(NewContext(projectPath, sharedPath, serverPath), w.0)
  {
    var c := NewContext(projectPath, sharedPath, serverPath);
    var a := RealmLinks(c, id, rootId, Shared, shared, metadata);
    var b := RealmLinks(c, id, rootId, Server, server, metadata);
    var d := RealmLinks(c, id, rootId, Dev, dev, metadata);
    AndThenSteps(AndThen(a, b), d, w);
    if w in d.steps {
      var k :| 0 <= k < |d.steps| && d.steps[k] == w;
      RealmLinksUnder(projectPath, sharedPath, serverPath, id, rootId, Dev, dev, metadata, k);
    } else {
      AndThenSteps(a, b, w);
      if w in a.steps {
        var k :| 0 <= k < |a.steps| && a.steps[k] == w;
        RealmLinksUnder(projectPath, sharedPath, serverPath, id, rootId, Shared, shared, metadata, k);
      } else {
        var k :| 0 <= k < |b.steps| && b.steps[k] == w;
        RealmLinksUnder(projectPath, sharedPath, serverPath, id, rootId, Server, server, metadata, k);
      }
    }
  }

  /**
   * Every link `install` writes and every directory it unpacks into lies
   * under one of the three realm directories, so `clean` removes all of
   * it. This needs valid ids and aliases that are not absolute paths.
   */
  lemma InstallStaysInRealms(
    projectPath: string, sharedPath: Option<string>, serverPath: Option<string>,
    ids: seq<PackageId>, rootId: PackageId, shared: Graph, server: Graph, dev: Graph,
    metadata: map<PackageId, ResolvePackageMetadata>, sources: map<PackageSourceId, PackageSource>)
    requires GraphsKnown(shared, server, dev, metadata) && Fetchable(ids, metadata, sources)
    requires RelativeAliases(shared) && RelativeAliases(server) && RelativeAliases(dev)
    requires forall i :: 0 <= i < |ids| ==> ValidId(ids[i])
    ensures forall w :: w in AndThenAll(PackagePlans(NewContext(projectPath, sharedPath, serverPath), ids, rootId, shared, server, dev, metadata)).steps ==>
              UnderRealms(NewContext(projectPath, sharedPath, serverPath), w.0)
    ensures forall f :: f in Fetches(NewContext(projectPath, sharedPath, serverPath), ids, rootId, metadata, sources) ==>
              UnderRealms(NewContext(projectPath, sharedPath, serverPath), f.dir)
  {
    var c := NewContext(projectPath, sharedPath, serverPath);
    var plans := PackagePlans(c, ids, rootId, shared, server, dev, metadata);
    forall w: Write | w in AndThenAll(plans).steps
      ensures UnderRealms(c, w.0)
    {
      AndThenAllSteps(plans, w);
      var i :| 0 <= i < |plans| && w in plans[i].steps;
      PackageLinksUnder(projectPath, sharedPath, serverPath, ids[i], rootId, shared, server, dev, metadata, w);
    }
    var fetches := Fetches(c, ids, rootId, metadata, sources);
    forall f | f in fetches
      ensures UnderRealms(c, f.dir)
    {
      var i :| 0 <= i < |fetches| && fetches[i] == f;
      WithoutFrom(ids, rootId, i);
      var id := Without(ids, rootId)[i];
      PackageDirUnder(projectPath, sharedPath, serverPath, metadata[id].originRealm, id);
    }
  }
}
