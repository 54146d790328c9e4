/**
 * The registry's file-system storage for package archives
 * (wally-registry-backend/src/storage/local.rs): each published version is
 * one file at `<base>/<scope>/<name>/<version>.zip`. The file system is a
 * map from path to contents; directories are implied by the paths.
 */
module LocalStorages {
  import opened Wrappers
  import Strings
  import opened Paths
  import opened Semver
  import opened PackageNames
  import opened PackageIds
  import opened Bytes

  /** The base directory when the configuration names none. */
  const DEFAULT_BASE: string := "packages"

  /** Why a storage operation fails. */
  datatype StorageError =
    | Escapes                  // "Cannot escape packages directory"
    | CouldNotOpen(path: string)
    | AlreadyExists(path: string)

  function BaseOf(base: Option<string>): (r: string)
    ensures base.None? ==> r == DEFAULT_BASE
  {
    match base
    case None => DEFAULT_BASE
    case Some(b) => b
  }

  /** A base directory written without a trailing separator. */
  predicate PlainDirectory(b: string)
  {
    b != [] && b[|b| - 1] != '/'
  }

  /** `package_path`: the archive's path, refused when it would leave the base directory. */
  function PackageFile(base: Option<string>, id: PackageId): (r: Result<string, StorageError>)
    ensures r.Ok? ==> StartsWith(r.value, BaseOf(base))
    ensures r.Err? ==> r.error == Escapes
  {
    var b := BaseOf(base);
    var path := Join(Join(Join(b, id.name.scope), id.name.name), VersionToString(id.version) + ".zip");
    if StartsWith(path, b) then Ok(path) else Err(Escapes)
  }

  /** The printed version starts with a digit. */
  lemma VersionTextStartsWithDigit(v: Version)
    ensures VersionToString(v) != [] && Strings.IsAsciiDigit(VersionToString(v)[0])
  {
    assert VersionToString(v)[0] == Strings.NatToString(v.major)[0];
  }

  /** For a valid package the path is accepted and is exactly base/scope/name/version.zip. */
  lemma PackageFileOfValid(base: Option<string>, id: PackageId)
    requires Valid(id.name) && PlainDirectory(BaseOf(base))
    ensures PackageFile(base, id) ==
      Ok(BaseOf(base) + "/" + id.name.scope + "/" + id.name.name + "/" + VersionToString(id.version) + ".zip")
  {
    var b := BaseOf(base);
    var scope, name := id.name.scope, id.name.name;
    var file := VersionToString(id.version) + ".zip";
    VersionTextStartsWithDigit(id.version);
    NoSlashInValidPart(scope);
    NoSlashInValidPart(name);
    assert scope[0] in scope && name[|name| - 1] in name && scope[|scope| - 1] in scope;
    assert Join(b, scope) == b + "/" + scope;
    assert Join(b + "/" + scope, name) == b + "/" + scope + "/" + name;
    assert file[0] == VersionToString(id.version)[0];
    var path := b + "/" + scope + "/" + name + "/" + file;
    assert Join(b + "/" + scope + "/" + name, file) == path;
    assert path[..|b|] == b && path[|b|] == '/';
    assert PackageFile(base, id) == Ok(path);
    assert path == b + "/" + scope + "/" + name + "/" + VersionToString(id.version) + ".zip";
  }

  /** A scope written as an absolute path would leave the base directory and is refused. */
  lemma AbsoluteScopeRefused(id: PackageId)
    requires id.name.scope == "/etc"
    ensures PackageFile(None, id) == Err(Escapes)
  {
    var file := VersionToString(id.version) + ".zip";
    VersionTextStartsWithDigit(id.version);
    assert file[0] == VersionToString(id.version)[0];
    var inner := Join("/etc", id.name.name);
    assert inner[0] == '/' by {
      if |id.name.name| > 0 && id.name.name[0] == '/' {
      } else {
        assert inner[..4] == "/etc";
      }
    }
    var path := Join(inner, file);
    assert path[0] == '/' by {
      assert inner != [];
      if inner[|inner| - 1] == '/' {
        assert path == inner + file;
      } else {
        assert path == inner + "/" + file;
      }
    }
    assert path != DEFAULT_BASE && path[..1] != DEFAULT_BASE[..1];
  }

  /** Two valid packages share a storage path only when they are the same package version. */
  lemma PackageFileInjective(base: Option<string>, a: PackageId, b: PackageId)
    requires Valid(a.name) && Valid(b.name) && ValidVersion(a.version) && ValidVersion(b.version)
    requires PlainDirectory(BaseOf(base))
    ensures PackageFile(base, a) == PackageFile(base, b) ==> a == b
  {
    var root := BaseOf(base);
    PackageFileOfValid(base, a);
    PackageFileOfValid(base, b);
    NoSlashInValidPart(a.name.scope);
    NoSlashInValidPart(b.name.scope);
    NoSlashInValidPart(a.name.name);
    NoSlashInValidPart(b.name.name);
    var fa := VersionToString(a.version) + ".zip";
    var fb := VersionToString(b.version) + ".zip";
    ThreeLevelInjective(root, a.name.scope, a.name.name, fa, b.name.scope, b.name.name, fb);
    VersionFileInjective(a.version, b.version);
  }

  /** Below one root, two paths of three slash-free-named levels agree level by level. */
  lemma ThreeLevelInjective(root: string, sa: string, na: string, fa: string, sb: string, nb: string, fb: string)
    requires '/' !in sa && '/' !in na && '/' !in sb && '/' !in nb
    ensures root + "/" + sa + "/" + na + "/" + fa == root + "/" + sb + "/" + nb + "/" + fb ==>
      sa == sb && na == nb && fa == fb
  {
    var x := root + "/" + sa + "/" + na + "/" + fa;
    var y := root + "/" + sb + "/" + nb + "/" + fb;
    if x == y {
      var k := |root| + 1;
      assert x[k..] == sa + ['/'] + (na + "/" + fa);
      assert y[k..] == sb + ['/'] + (nb + "/" + fb);
      SlashSplitInjective(sa, na + "/" + fa, sb, nb + "/" + fb);
      SlashSplitInjective(na, fa, nb, fb);
    }
  }

  lemma SlashSplitInjective(p: string, x: string, q: string, y: string)
    requires '/' !in p && '/' !in q
    ensures p + ['/'] + x == q + ['/'] + y ==> p == q && x == y
  {
    Strings.SplitOnceAt(p, x, '/');
    Strings.SplitOnceAt(q, y, '/');
  }

  /** Distinct valid versions have distinct archive names. */
  lemma VersionFileInjective(a: Version, b: Version)
    requires ValidVersion(a) && ValidVersion(b)
    ensures VersionToString(a) + ".zip" == VersionToString(b) + ".zip" ==> a == b
  {
    var fa := VersionToString(a) + ".zip";
    var fb := VersionToString(b) + ".zip";
    if fa == fb {
      assert fa[..|fa| - 4] == VersionToString(a);
      assert fb[..|fb| - 4] == VersionToString(b);
      ParseVersionOfString(a);
      ParseVersionOfString(b);
    }
  }

  function ReadFrom(files: map<string, seq<byte>>, base: Option<string>, id: PackageId): (r: Result<seq<byte>, StorageError>)
    ensures r.Ok? <==> PackageFile(base, id).Ok? && PackageFile(base, id).value in files
    ensures r.Ok? ==> r.value == files[PackageFile(base, id).value]
  {
    match PackageFile(base, id)
    case Err(e) => Err(e)
    case Ok(path) => if path in files then Ok(files[path]) else Err(CouldNotOpen(path))
  }

  /**
   * Storing one valid package makes that archive readable and changes what
   * no other valid package reads.
   */
  lemma ReadAfterStore(files: map<string, seq<byte>>, base: Option<string>, id: PackageId, other: PackageId, contents: seq<byte>)
    requires Valid(id.name) && Valid(other.name) && ValidVersion(id.version) && ValidVersion(other.version)
    requires PlainDirectory(BaseOf(base))
    ensures var stored := files[PackageFile(base, id).value := contents];
      && ReadFrom(stored, base, id) == Ok(contents)
      && (other != id ==> ReadFrom(stored, base, other) == ReadFrom(files, base, other))
  {
    PackageFileOfValid(base, id);
    PackageFileOfValid(base, other);
    PackageFileInjective(base, id, other);
  }

  /** The storage of one registry: its base directory and the files below it. */
  class LocalStorage {
    const base: Option<string>
    var files: map<string, seq<byte>>

    constructor (base: Option<string>, files: map<string, seq<byte>>)
      ensures this.base == base && this.files == files
    {
      this.base := base;
      this.files := files;
    }

    /** `LocalStorage::read`. */
    function Read(id: PackageId): (r: Result<seq<byte>, StorageError>)
      reads this
      ensures r == ReadFrom(files, base, id)
    {
      ReadFrom(files, base, id)
    }

    /**
     * `LocalStorage::write`: create the file, failing when it already
     * exists, so a stored archive is never replaced.
     */
    method Write(id: PackageId, contents: seq<byte>) returns (r: Result<(), StorageError>)
      modifies this
      ensures PackageFile(base, id).Err? ==> r == Err(Escapes) && files == old(files)
      ensures PackageFile(base, id).Ok? && PackageFile(base, id).value in old(files) ==>
        r == Err(AlreadyExists(PackageFile(base, id).value)) && files == old(files)
      ensures PackageFile(base, id).Ok? && PackageFile(base, id).value !in old(files) ==>
        r == Ok(()) && files == old(files)[PackageFile(base, id).value := contents]
      ensures r.Ok? ==> Read(id) == Ok(contents)
    {
      var path := PackageFile(base, id);
      if path.Err? {
        return Err(Escapes);
      }
      if path.value in files {
        return Err(AlreadyExists(path.value));
      }
      files := files[path.value := contents];
      r := Ok(());
    }
  }
}
