/**
 * The local copy of a package index (src/package_index.rs): one
 * newline-delimited JSON file per package at `<index>/<scope>/<name>`, an
 * `owners.json` per scope, and an in-memory cache of parsed package files.
 * JSON is a parameter (`Codec`); pushes go through `commit_and_push`.
 */
module PackageIndexes {
  import opened Wrappers
  import opened Strings
  import Paths
  import opened PackageNames
  import opened Manifests
  import opened GitUtil
  import opened Bytes

  /** Why an index operation fails. */
  datatype IndexError =
    | CouldNotOpen(name: PackageName)              // "could not open package ... from index"
    | CouldNotParse(name: PackageName, message: string)  // "could not parse package index entry for ..."
    | OwnersUnparsable(scope: string, message: string)   // "could not parse owner file for scope ..."
    | PushFailed(cause: GitError)
    | NoCacheDirectory                             // "could not find cache directory"

  /** serde_json for manifests (one per line) and for owner lists. */
  datatype Codec = Codec(
    serialize: Manifest -> string,
    parseLines: string -> Result<seq<Manifest>, string>,
    serializeOwners: seq<nat> -> string,
    parseOwners: string -> Result<seq<nat>, string>)

  /** What libgit2 does when `commit_and_push` runs: staging and commit, the reference updates, the push. */
  datatype Remote = Remote(git: Result<(), string>, updates: seq<Option<string>>, pushed: Result<(), string>)

  /** `JSON Lines`: reading an appended line gives the entries read so far and the new one. */
  ghost predicate LinesLaw(codec: Codec)
  {
    && codec.parseLines("") == Ok([])
    && forall text, m :: codec.parseLines(text).Ok? ==>
         codec.parseLines(text + codec.serialize(m) + "\n") == Ok(codec.parseLines(text).value + [m])
  }

  // ---------------------------------------------------------------------
  // Paths

  /** `package_path`: index root / scope / name. */
  function PackagePath(root: string, n: PackageName): string
  {
    Paths.Join(Paths.Join(root, n.scope), n.name)
  }

  /** The owners file of a scope. */
  function OwnersPath(root: string, scope: string): string
  {
    Paths.Join(Paths.Join(root, scope), "owners.json")
  }

  /**
   * Each valid package has its own file, inside the index, and no package
   * file is a scope's `owners.json` (a name cannot hold a `.`).
   */
  lemma PackagePathMeaning(root: string, n: PackageName, q: PackageName, scope: string)
    requires root != [] && root[|root| - 1] != '/'
    requires Valid(n) && Valid(q) && ValidPart(scope)
    ensures Paths.StartsWith(PackagePath(root, n), root)
    ensures PackagePath(root, n) == PackagePath(root, q) <==> n == q
    ensures PackagePath(root, n) != OwnersPath(root, scope)
  {
    NoSlashInValidPart(n.scope);
    NoSlashInValidPart(q.scope);
    NoSlashInValidPart(scope);
    Paths.JoinStartsWith(root, n.scope);
    Paths.JoinStartsWith(Paths.Join(root, n.scope), n.name);
    Paths.StartsWithTransitive(PackagePath(root, n), Paths.Join(root, n.scope), root);
    assert n.name[0] in n.name && q.name[0] in q.name;
    Paths.TwoLevelInjective(root, n.scope, n.name, q.scope, q.name);
    assert "owners.json"[6] == '.';
    assert n.name != "owners.json";
    Paths.TwoLevelInjective(root, n.scope, n.name, scope, "owners.json");
  }

  // ---------------------------------------------------------------------
  // The index directory name

  /** A BLAKE3 digest. */
  type Digest = d: seq<byte> | |d| == 32 witness seq(32, _ => 0 as byte)

  predicate IsHexDigit(c: char) { IsAsciiDigit(c) || 'a' <= c <= 'f' }

  function HexDigit(n: nat): (c: char)
    requires n < 16
    ensures IsHexDigit(c)
  {
    if n < 10 then ('0' as int + n) as char else ('a' as int + n - 10) as char
  }

  function HexValue(c: char): (n: nat)
    requires IsHexDigit(c)
    ensures n < 16
  {
    if IsAsciiDigit(c) then c as int - '0' as int else c as int - 'a' as int + 10
  }

  /** `hex::encode`: two lower-case digits per byte, high half first. */
  function HexEncode(bytes: seq<byte>): (r: string)
    ensures |r| == 2 * |bytes|
    ensures forall i :: 0 <= i < |r| ==> IsHexDigit(r[i])
  {
    if bytes == [] then []
    else [HexDigit(bytes[0] as int / 16), HexDigit(bytes[0] as int % 16)] + HexEncode(bytes[1..])
  }

  function HexDecode(s: string): seq<byte>
    requires |s| % 2 == 0 && forall i :: 0 <= i < |s| ==> IsHexDigit(s[i])
  {
    if s == [] then []
    else
      assert forall i :: 0 <= i < |s| - 2 ==> s[2..][i] == s[i + 2];
      [(HexValue(s[0]) * 16 + HexValue(s[1])) as byte] + HexDecode(s[2..])
  }

  /** The hex text determines the bytes. */
  lemma {:induction false} HexDecodeEncode(bytes: seq<byte>)
    ensures HexDecode(HexEncode(bytes)) == bytes
  {
    if bytes != [] {
      var s := HexEncode(bytes);
      assert s[2..] == HexEncode(bytes[1..]);
      HexDecodeEncode(bytes[1..]);
    }
  }

  /** The first half of `index_path`'s name: the URL's domain, else "local-registry" for `file:` URLs, else "unknown". */
  function RegistryName(domain: Option<string>, scheme: string): string
  {
    match domain
    case Some(d) => d
    case None => if scheme == "file" then "local-registry" else "unknown"
  }

  /** The directory name of an index: registry name, `-`, and the first 8 bytes of the URL's hash in hex. */
  function IndexIdent(domain: Option<string>, scheme: string, hash: Digest): string
  {
    RegistryName(domain, scheme) + "-" + HexEncode(hash[..8])
  }

  /** The name reads as the registry name, a dash and 16 hex digits that give back the first 8 hash bytes. */
  lemma IndexIdentMeaning(domain: Option<string>, scheme: string, hash: Digest)
    ensures var name := RegistryName(domain, scheme);
            var ident := IndexIdent(domain, scheme, hash);
            && |ident| == |name| + 17
            && ident[..|name|] == name && ident[|name|] == '-'
            && HexDecode(ident[|name| + 1..]) == hash[..8]
  {
    var name := RegistryName(domain, scheme);
    var ident := IndexIdent(domain, scheme, hash);
    assert ident[|name| + 1..] == HexEncode(hash[..8]);
    HexDecodeEncode(hash[..8]);
  }

  /** `index_path`: `<cache dir>/wally/index/<ident>`, or an error when there is no cache directory. */
  function IndexPath(cacheDir: Option<string>, domain: Option<string>, scheme: string, hash: Digest): (r: Result<string, IndexError>)
    ensures r.Err? <==> cacheDir.None?
    ensures r.Err? ==> r.error == NoCacheDirectory
  {
    match cacheDir
    case None => Err(NoCacheDirectory)
    case Some(dir) => Ok(Paths.Join(Paths.Join(Paths.Join(dir, "wally"), "index"), IndexIdent(domain, scheme, hash)))
  }

  // ---------------------------------------------------------------------
  // Files

  /** Reading a package file afresh: a missing file and a bad line are errors of the whole read. */
  function ReadPackage(files: map<PackageName, string>, name: PackageName, codec: Codec): (r: Result<seq<Manifest>, IndexError>)
    ensures r.Err? <==> name !in files || codec.parseLines(files[name]).Err?
    ensures r.Ok? ==> r.value == codec.parseLines(files[name]).value
  {
    if name !in files then Err(CouldNotOpen(name))
    else match codec.parseLines(files[name])
      case Err(e) => Err(CouldNotParse(name, e))
      case Ok(versions) => Ok(versions)
  }

  /** The package file after `publish` appends one entry (the file is created when missing). */
  function Appended(files: map<PackageName, string>, name: PackageName, entry: string): (r: string)
    ensures name in files ==> r == files[name] + entry + "\n"
    ensures name !in files ==> r == entry + "\n"
  {
    (if name in files then files[name] else "") + entry + "\n"
  }

  /** After an append the next fresh read yields the earlier entries followed by the new one. */
  lemma ReadAfterAppend(files: map<PackageName, string>, m: Manifest, codec: Codec)
    requires LinesLaw(codec)
    requires m.package.name in files ==> ReadPackage(files, m.package.name, codec).Ok?
    ensures var name := m.package.name;
            var before := if name in files then ReadPackage(files, name, codec).value else [];
            ReadPackage(files[name := Appended(files, name, codec.serialize(m))], name, codec) == Ok(before + [m])
  {
    var name := m.package.name;
    if name !in files {
      assert Appended(files, name, codec.serialize(m)) == "" + codec.serialize(m) + "\n";
    }
  }

  /** `get_scope_owners` on the owner files: a missing file means no owners. */
  function ScopeOwners(ownerFiles: map<string, string>, scope: string, codec: Codec): (r: Result<seq<nat>, IndexError>)
    ensures scope !in ownerFiles ==> r == Ok([])
    ensures scope in ownerFiles ==> (r.Ok? <==> codec.parseOwners(ownerFiles[scope]).Ok?)
    ensures r.Ok? && scope in ownerFiles ==> r.value == codec.parseOwners(ownerFiles[scope]).value
  {
    if scope !in ownerFiles then Ok([])
    else match codec.parseOwners(ownerFiles[scope])
      case Err(e) => Err(OwnersUnparsable(scope, e))
      case Ok(owners) => Ok(owners)
  }

  /**
   * A write at the start of an existing file without truncating it (the
   * owners file is opened with `write` and `create` only): a shorter text
   * leaves the old file's tail in place.
   */
  function Overwrite(previous: string, text: string): (r: string)
    ensures |r| == if |text| >= |previous| then |text| else |previous|
    ensures r[..|text|] == text
    ensures |text| >= |previous| ==> r == text
    ensures |text| < |previous| ==> r[|text|..] == previous[|text|..]
  {
    if |text| >= |previous| then text else text + previous[|text|..]
  }

  /** The index, as the files of its local copy and the package cache. */
  class PackageIndex {
    const path: string
    var packageFiles: map<PackageName, string>
    var ownerFiles: map<string, string>
    var cache: map<PackageName, seq<Manifest>>

    /** A fresh index: its files as found on disk, and an empty cache. */
    constructor(path: string, packageFiles: map<PackageName, string>, ownerFiles: map<string, string>)
      ensures this.path == path && this.packageFiles == packageFiles && this.ownerFiles == ownerFiles
      ensures cache == map[]
    {
      this.path := path;
      this.packageFiles := packageFiles;
      this.ownerFiles := ownerFiles;
      cache := map[];
    }

    /** Every cached package holds exactly what a fresh read of its file gives. */
    ghost predicate Coherent(codec: Codec)
      reads this
    {
      forall n :: n in cache ==> ReadPackage(packageFiles, n, codec) == Ok(cache[n])
    }

    lemma EmptyCacheCoherent(codec: Codec)
      requires cache == map[]
      ensures Coherent(codec)
    {
    }

    /**
     * `get_package_metadata`: the cached value on a hit; on a miss the
     * whole file is read and, when it parses, cached. With a coherent
     * cache the answer is always what a fresh read gives.
     */
    method GetPackageMetadata(name: PackageName, codec: Codec) returns (r: Result<seq<Manifest>, IndexError>)
      modifies this
      ensures packageFiles == old(packageFiles) && ownerFiles == old(ownerFiles)
      ensures name in old(cache) ==> r == Ok(old(cache)[name]) && cache == old(cache)
      ensures name !in old(cache) ==> r == ReadPackage(packageFiles, name, codec)
      ensures name !in old(cache) && r.Ok? ==> cache == old(cache)[name := r.value]
      ensures name !in old(cache) && r.Err? ==> cache == old(cache)
      ensures old(Coherent(codec)) ==> Coherent(codec) && r == ReadPackage(packageFiles, name, codec)
    {
      if name in cache {
        return Ok(cache[name]);
      }
      if name !in packageFiles {
        return Err(CouldNotOpen(name));
      }
      var parsed := codec.parseLines(packageFiles[name]);
      if parsed.Err? {
        return Err(CouldNotParse(name, parsed.error));
      }
      cache := cache[name := parsed.value];
      r := Ok(parsed.value);
    }

    /**
     * `publish`: append the serialized manifest and a newline to the
     * package file, commit and push it, and on success evict the package
     * from the cache. A failed push returns before the eviction, with the
     * entry already appended to the local file.
     */
    method Publish(m: Manifest, codec: Codec, remote: Remote) returns (r: Result<(), IndexError>)
      modifies this
      ensures packageFiles == old(packageFiles)[m.package.name := Appended(old(packageFiles), m.package.name, codec.serialize(m))]
      ensures ownerFiles == old(ownerFiles)
      ensures var pushed := CommitOutcome(path, PackagePath(path, m.package.name), remote.git, remote.updates, remote.pushed);
              r == if pushed.Ok? then Ok(()) else Err(PushFailed(pushed.error))
      ensures r.Ok? ==> cache == old(cache) - {m.package.name}
      ensures r.Err? ==> cache == old(cache)
      ensures r.Ok? && old(Coherent(codec)) ==> Coherent(codec)
    {
      var name := m.package.name;
      var packagePath := PackagePath(path, name);
      var entry := codec.serialize(m) + "\n";
      var before := if name in packageFiles then packageFiles[name] else "";
      assert before + entry == Appended(packageFiles, name, codec.serialize(m));
      packageFiles := packageFiles[name := before + entry];
      var pushed := CommitAndPush(path, packagePath, remote.git, remote.updates, remote.pushed);
      if pushed.Err? {
        return Err(PushFailed(pushed.error));
      }
      ghost var oldCache := cache;
      cache := cache - {name};
      r := Ok(());
      assert forall n :: n in cache ==> n != name && n in oldCache;
    }

    /** `get_scope_owners`. */
    function GetScopeOwners(scope: string, codec: Codec): Result<seq<nat>, IndexError>
      reads this
    {
      ScopeOwners(ownerFiles, scope, codec)
    }

    /** `is_scope_owner`: the id occurs among the scope's owners. */
    function IsScopeOwner(scope: string, userId: nat, codec: Codec): (r: Result<bool, IndexError>)
      reads this
      ensures r.Err? <==> GetScopeOwners(scope, codec).Err?
      ensures r.Ok? ==> (r.value <==> userId in GetScopeOwners(scope, codec).value)
      ensures scope !in ownerFiles ==> r == Ok(false)
    {
      match GetScopeOwners(scope, codec)
      case Err(e) => Err(e)
      case Ok(owners) => Ok(userId in owners)
    }

    /**
     * `add_scope_owner`: read the owners, write them back with the new id
     * at the end (over the old file, without truncating), then commit and
     * push the owners file.
     */
    method AddScopeOwner(scope: string, ownerId: nat, codec: Codec, remote: Remote) returns (r: Result<(), IndexError>)
      modifies this
      ensures packageFiles == old(packageFiles) && cache == old(cache)
      ensures old(GetScopeOwners(scope, codec)).Err? ==> r == Err(old(GetScopeOwners(scope, codec)).error) && ownerFiles == old(ownerFiles)
      ensures old(GetScopeOwners(scope, codec)).Ok? ==>
        var text := codec.serializeOwners(old(GetScopeOwners(scope, codec)).value + [ownerId]);
        && ownerFiles == old(ownerFiles)[scope := Overwrite(if scope in old(ownerFiles) then old(ownerFiles)[scope] else "", text)]
        && var pushed := CommitOutcome(path, OwnersPath(path, scope), remote.git, remote.updates, remote.pushed);
           r == if pushed.Ok? then Ok(()) else Err(PushFailed(pushed.error))
    {
      var owners := GetScopeOwners(scope, codec);
      if owners.Err? {
        return Err(owners.error);
      }
      var previous := if scope in ownerFiles then ownerFiles[scope] else "";
      var text := codec.serializeOwners(owners.value + [ownerId]);
      ownerFiles := ownerFiles[scope := Overwrite(previous, text)];
      var pushed := CommitAndPush(path, OwnersPath(path, scope), remote.git, remote.updates, remote.pushed);
      if pushed.Err? {
        return Err(PushFailed(pushed.error));
      }
      r := Ok(());
    }
  }

  /**
   * When the new list's text is at least as long as the old file (as it is
   * when wally wrote that file), reading the owners back gives the earlier
   * owners in order followed by the new one.
   */
  lemma AddedOwnerIsLast(ownerFiles: map<string, string>, scope: string, ownerId: nat, codec: Codec)
    requires ScopeOwners(ownerFiles, scope, codec).Ok?
    requires forall owners :: codec.parseOwners(codec.serializeOwners(owners)) == Ok(owners)
    requires scope in ownerFiles ==>
      |codec.serializeOwners(ScopeOwners(ownerFiles, scope, codec).value + [ownerId])| >= |ownerFiles[scope]|
    ensures var previous := ScopeOwners(ownerFiles, scope, codec).value;
            var text := codec.serializeOwners(previous + [ownerId]);
            var written := Overwrite(if scope in ownerFiles then ownerFiles[scope] else "", text);
            ScopeOwners(ownerFiles[scope := written], scope, codec) == Ok(previous + [ownerId])
  {
  }
}
