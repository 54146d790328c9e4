/**
 * The registry's HTTP handlers (wally-registry-backend/src/main.rs): the
 * `Wally-Version` gate, serving package archives, and publishing. The
 * request guards arrive as their outcomes; the archive reader, the search
 * re-crawl and `index.update()` are not part of this model.
 */
module RegistryServer {
  import opened Wrappers
  import opened Semver
  import opened PackageNames
  import opened PackageIds
  import opened Manifests
  import opened Bytes
  import opened PackageIndexes
  import opened ApiErrors
  import opened BackendAuth
  import opened LocalStorages

  // ---------------------------------------------------------------------
  // The client version gate

  /** `WallyVersion::from_request`: the `Wally-Version` header against the configured minimum. */
  function VersionGate(minimum: Option<Version>, header: Option<string>): (r: Result<(), ApiError>)
    ensures minimum.None? ==> r == Ok(())
    ensures minimum.Some? && header.None? ==> r.Err? && r.error.status == UpgradeRequired
    ensures minimum.Some? && header.Some? && ParseVersion(header.value).None? ==>
      r.Err? && r.error.status == BadRequest
    ensures minimum.Some? && header.Some? && ParseVersion(header.value).Some? ==>
      && (r.Ok? <==> !VersionLess(ParseVersion(header.value).value, minimum.value))
      && (r.Err? ==> r.error.status == UpgradeRequired)
  {
    match minimum
    case None => Ok(())
    case Some(min) =>
      match header
      case None => Err(ApiError(UpgradeRequired, "Wally version header required. Try upgrading your wally installation."))
      case Some(text) =>
        match ParseVersion(text)
        case None => Err(ApiError(BadRequest, "Failed to parse wally version header"))
        case Some(v) =>
          if VersionLess(v, min) then
            Err(ApiError(UpgradeRequired, "This registry requires Wally " + VersionToString(min)
              + " (you are using " + VersionToString(v) + ")"))
          else Ok(())
  }

  /** A client sending its own version passes exactly when it is not older than the minimum. */
  lemma GateCompares(min: Version, v: Version)
    requires ValidVersion(v)
    ensures VersionGate(Some(min), Some(VersionToString(v))) == Ok(()) <==> !VersionLess(v, min)
    ensures VersionLess(v, min) ==> VersionGate(Some(min), Some(VersionToString(v))).error.status == UpgradeRequired
  {
    ParseVersionOfString(v);
  }

  /** The minimum version itself is admitted. */
  lemma GateAdmitsMinimum(min: Version)
    requires ValidVersion(min)
    ensures VersionGate(Some(min), Some(VersionToString(min))) == Ok(())
  {
    ParseVersionOfString(min);
    CompareVersionProperties(min, min);
  }

  // ---------------------------------------------------------------------
  // Serving an archive

  /** `GET /v1/package-contents/<scope>/<name>/<version>`. */
  function PackageContents(storage: LocalStorage, read: Result<ReadAccess, ApiError>, cliVersion: Result<(), ApiError>,
                           scope: string, name: string, version: string): (r: Result<seq<byte>, ApiError>)
    reads storage
    ensures read.Err? ==> r == Err(read.error)
    ensures read.Ok? && cliVersion.Err? ==> r == Err(cliVersion.error)
    ensures read.Ok? && cliVersion.Ok? && New(scope, name).Err? ==> r.Err? && r.error.status == BadRequest
    ensures read.Ok? && cliVersion.Ok? && New(scope, name).Ok? && ParseVersion(version).None? ==>
      r.Err? && r.error.status == BadRequest
    ensures read.Ok? && cliVersion.Ok? && New(scope, name).Ok? && ParseVersion(version).Some? ==>
      var stored := storage.Read(PackageId(New(scope, name).value, ParseVersion(version).value));
      && (r.Ok? <==> stored.Ok?)
      && (r.Ok? ==> r.value == stored.value)
      && (r.Err? ==> r.error.status == NotFound)
  {
    if read.Err? then Err(read.error)
    else if cliVersion.Err? then Err(cliVersion.error)
    else match New(scope, name)
      case Err(_) => Err(ApiError(BadRequest, "error parsing package name"))
      case Ok(packageName) =>
        match ParseVersion(version)
        case None => Err(ApiError(BadRequest, "error parsing version"))
        case Some(v) =>
          match storage.Read(PackageId(packageName, v))
          case Err(_) => Err(ApiError(NotFound, "could not open path for reading"))
          case Ok(contents) => Ok(contents)
  }

  /**
   * What was stored for a valid package is served at its URL, and a
   * version nothing was stored for is answered with 404.
   */
  lemma ContentsServed(storage: LocalStorage, id: PackageId)
    requires Valid(id.name) && ValidVersion(id.version)
    ensures var served := PackageContents(storage, Ok(Public), Ok(()), id.name.scope, id.name.name, VersionToString(id.version));
      && (storage.Read(id).Ok? ==> served == Ok(storage.Read(id).value))
      && (storage.Read(id).Err? ==> served.Err? && served.error.status == NotFound)
  {
    ParseVersionOfString(id.version);
    NewOfValid(id.name);
    assert PackageId(id.name, id.version) == id;
  }

  /** A valid name is accepted by `PackageName::new` unchanged. */
  lemma NewOfValid(n: PackageName)
    requires Valid(n)
    ensures New(n.scope, n.name) == Ok(n)
  {
  }

  // ---------------------------------------------------------------------
  // Publishing

  /** The body limit of `publish`: 2 MiB. */
  const MAX_BODY: nat := 2 * 1024 * 1024

  /** What reading the request body as a package archive finds. */
  datatype Upload =
    | NotAZip(message: string)          // "could not read ZIP archive"
    | NoManifest(message: string)       // no readable wally.toml in it
    | WithManifest(manifest: Manifest)

  /** `ZipArchive::new` followed by `get_manifest`. */
  type Unpacker = seq<byte> -> Upload

  /** Whether an index read lists the version being published. */
  predicate ListsVersion(metadata: Result<seq<Manifest>, IndexError>, version: Version)
  {
    metadata.Ok? && exists i :: 0 <= i < |metadata.value| && metadata.value[i].package.version == version
  }

  /** The checks of `publish` before anything is changed, in the handler's order. */
  function Admission(index: PackageIndex, auth: Result<WriteAccess, ApiError>, cliVersion: Result<(), ApiError>,
                     body: seq<byte>, unpack: Unpacker, codec: Codec): (r: Result<(WriteAccess, Manifest), ApiError>)
    reads index
    ensures cliVersion.Err? ==> r == Err(cliVersion.error)
    ensures cliVersion.Ok? && auth.Err? ==> r == Err(auth.error)
    ensures cliVersion.Ok? && auth.Ok? && |body| > MAX_BODY ==> r == Err(ApiError(BadRequest, "request body too large"))
    ensures cliVersion.Ok? && auth.Ok? && |body| <= MAX_BODY && !unpack(body).WithManifest? ==>
      r.Err? && r.error.status == BadRequest
    ensures r.Ok? ==> cliVersion.Ok? && auth == Ok(r.value.0) && |body| <= MAX_BODY && unpack(body) == WithManifest(r.value.1)
    ensures r.Ok? ==> CanWritePackage(r.value.0, ManifestId(r.value.1), index, codec) == Ok(true)
    ensures cliVersion.Ok? && auth.Ok? && |body| <= MAX_BODY && unpack(body).WithManifest? ==>
      var can := CanWritePackage(auth.value, ManifestId(unpack(body).manifest), index, codec);
      && (can.Err? ==> r.Err? && r.error.status == InternalServerError)
      && (can == Ok(false) ==> r.Err? && r.error.status == Unauthorized)
  {
    if cliVersion.Err? then Err(cliVersion.error)
    else if auth.Err? then Err(auth.error)
    else if |body| > MAX_BODY then Err(ApiError(BadRequest, "request body too large"))
    else match unpack(body)
      case NotAZip(message) => Err(ApiError(BadRequest, "could not read ZIP archive"))
      case NoManifest(message) => Err(ApiError(BadRequest, message))
      case WithManifest(m) =>
        match CanWritePackage(auth.value, ManifestId(m), index, codec)
        case Err(_) => Err(Internal("could not check write permission"))
        case Ok(can) =>
          if can then Ok((auth.value, m))
          else Err(ApiError(Unauthorized, "you do not have permission to write in scope " + m.package.name.scope))
  }

  /** An API-key writer past the guards is refused only for the body or the archive. */
  lemma KeyWriterAdmitted(index: PackageIndex, body: seq<byte>, unpack: Unpacker, codec: Codec, m: Manifest)
    requires |body| <= MAX_BODY && unpack(body) == WithManifest(m)
    ensures Admission(index, Ok(WriteWithKey), Ok(()), body, unpack, codec) == Ok((WriteWithKey, m))
  {
  }

  /**
   * `POST /v1/publish`: the admission checks, then for a GitHub writer
   * that is not yet an owner the owner is recorded, then the duplicate
   * check, the archive write and the index entry with its push.
   */
  method Publish(index: PackageIndex, storage: LocalStorage, auth: Result<WriteAccess, ApiError>, cliVersion: Result<(), ApiError>,
                 body: seq<byte>, unpack: Unpacker, codec: Codec, ownerRemote: Remote, indexRemote: Remote)
    returns (r: Result<(), ApiError>)
    modifies index, storage
    ensures old(Admission(index, auth, cliVersion, body, unpack, codec)).Err? ==>
      && r == Err(old(Admission(index, auth, cliVersion, body, unpack, codec)).error)
      && index.packageFiles == old(index.packageFiles) && index.ownerFiles == old(index.ownerFiles)
      && index.cache == old(index.cache) && storage.files == old(storage.files)
    ensures r.Err? && r.error.status == Unauthorized ==>
      index.packageFiles == old(index.packageFiles) && index.ownerFiles == old(index.ownerFiles) && storage.files == old(storage.files)
    ensures r.Err? && r.error.status == Conflict ==>
      && index.packageFiles == old(index.packageFiles) && storage.files == old(storage.files)
      && (auth == Ok(WriteWithKey) ==> index.ownerFiles == old(index.ownerFiles))
    ensures r.Ok? ==>
      var m := unpack(body).manifest;
      && old(Admission(index, auth, cliVersion, body, unpack, codec)) == Ok((auth.value, m))
      && PackageFile(storage.base, ManifestId(m)).Ok?
      && storage.files == old(storage.files)[PackageFile(storage.base, ManifestId(m)).value := body]
      && index.packageFiles == old(index.packageFiles)[m.package.name := Appended(old(index.packageFiles), m.package.name, codec.serialize(m))]
      && (old(index.Coherent(codec)) ==> !ListsVersion(ReadPackage(old(index.packageFiles), m.package.name, codec), m.package.version))
    ensures r.Ok? && old(index.Coherent(codec)) ==> index.Coherent(codec)
    ensures r.Ok? && auth == Ok(WriteWithKey) ==> index.ownerFiles == old(index.ownerFiles)
    ensures old(Admission(index, auth, cliVersion, body, unpack, codec)).Ok? && old(index.Coherent(codec))
            && ListsVersion(ReadPackage(old(index.packageFiles), unpack(body).manifest.package.name, codec), unpack(body).manifest.package.version) ==>
      && r.Err?
      && (auth == Ok(WriteWithKey) ==> r.error == ApiError(Conflict, "package already exists in index"))
    ensures r.Ok? && auth.Ok? && auth.value.Github? ==>
      var scope := unpack(body).manifest.package.name.scope;
      var owners := old(index.GetScopeOwners(scope, codec));
      && owners.Ok?
      && (auth.value.info.id in owners.value ==> index.ownerFiles == old(index.ownerFiles))
      && (auth.value.info.id !in owners.value ==>
            index.ownerFiles == old(index.ownerFiles)[scope := Overwrite(
              if scope in old(index.ownerFiles) then old(index.ownerFiles)[scope] else "",
              codec.serializeOwners(owners.value + [auth.value.info.id]))])
  {
    var admitted := Admission(index, auth, cliVersion, body, unpack, codec);
    if admitted.Err? {
      return Err(admitted.error);
    }
    var access, m := admitted.value.0, admitted.value.1;
    var id := ManifestId(m);
    var scope := m.package.name.scope;
    if access.Github? {
      var owner := index.IsScopeOwner(scope, access.info.id, codec);
      if !owner.value {
        var added := index.AddScopeOwner(scope, access.info.id, codec, ownerRemote);
        if added.Err? {
          return Err(Internal("could not add scope owner"));
        }
      }
    }
    var metadata := index.GetPackageMetadata(m.package.name, codec);
    if ListsVersion(metadata, m.package.version) {
      return Err(ApiError(Conflict, "package already exists in index"));
    }
    var written := storage.Write(id, body);
    if written.Err? {
      return Err(Internal("could not write package to storage backend"));
    }
    var published := index.Publish(m, codec, indexRemote);
    if published.Err? {
      return Err(Internal("could not publish package to index"));
    }
    r := Ok(());
  }

  /**
   * Publishing the same archive twice with the API key: when the first
   * attempt succeeds, the second is refused with 409 Conflict.
   */
  method RepublishConflicts(index: PackageIndex, storage: LocalStorage, body: seq<byte>, unpack: Unpacker, codec: Codec,
                            ownerRemote: Remote, firstRemote: Remote, secondRemote: Remote)
    returns (first: Result<(), ApiError>, second: Result<(), ApiError>)
    requires LinesLaw(codec) && index.Coherent(codec)
    requires |body| <= MAX_BODY && unpack(body).WithManifest?
    requires unpack(body).manifest.package.name in index.packageFiles ==>
      ReadPackage(index.packageFiles, unpack(body).manifest.package.name, codec).Ok?
    modifies index, storage
    ensures first.Ok? ==> second == Err(ApiError(Conflict, "package already exists in index"))
  {
    var m := unpack(body).manifest;
    ghost var files := index.packageFiles;
    first := Publish(index, storage, Ok(WriteWithKey), Ok(()), body, unpack, codec, ownerRemote, firstRemote);
    if first.Ok? {
      ReadAfterAppend(files, m, codec);
      var read := ReadPackage(index.packageFiles, m.package.name, codec);
      assert read.value[|read.value| - 1] == m;
      assert ListsVersion(read, m.package.version);
      KeyWriterAdmitted(index, body, unpack, codec, m);
      assert index.Coherent(codec);
    }
    second := Publish(index, storage, Ok(WriteWithKey), Ok(()), body, unpack, codec, ownerRemote, secondRemote);
  }
}
