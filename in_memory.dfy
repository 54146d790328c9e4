/**
 * A registry held entirely in memory, used to set up exact resolution
 * conditions (src/package_source/in_memory.rs). Packages are stored by
 * scope, then by name, as append-only lists in publish order.
 */
module InMemory {
  import opened Wrappers
  import opened Semver
  import opened PackageNames
  import opened PackageIds
  import opened PackageReqs
  import opened Manifests
  import opened PackageContentsModel
  import opened PackageSources

  datatype PackageEntry = PackageEntry(manifest: Manifest, contents: PackageContents)

  /** scope -> name -> entries, oldest first. */
  type Storage = map<string, map<string, seq<PackageEntry>>>

  /** The entries published under `scope`/`name`; none when either level is missing. */
  function EntriesOf(storage: Storage, scope: string, name: string): seq<PackageEntry>
  {
    if scope in storage && name in storage[scope] then storage[scope][name] else []
  }

  /** The manifests of `entries` whose version `vr` matches, in the order of `entries`. */
  function MatchingManifests(entries: seq<PackageEntry>, vr: VersionReq): (r: seq<Manifest>)
    ensures |r| <= |entries|
    ensures forall m :: m in r ==> Matches(vr, m.package.version)
  {
    if entries == [] then []
    else
      var rest := MatchingManifests(entries[1..], vr);
      if Matches(vr, entries[0].manifest.package.version) then [entries[0].manifest] + rest else rest
  }

  /** A manifest is returned exactly when some entry carries it and matches. */
  lemma {:induction false} MatchingManifestsComplete(entries: seq<PackageEntry>, vr: VersionReq, m: Manifest)
    ensures m in MatchingManifests(entries, vr)
        <==> exists i :: 0 <= i < |entries| && entries[i].manifest == m && Matches(vr, m.package.version)
  {
    if entries != [] {
      MatchingManifestsComplete(entries[1..], vr, m);
      if exists i :: 0 <= i < |entries| && entries[i].manifest == m && Matches(vr, m.package.version) {
        var i :| 0 <= i < |entries| && entries[i].manifest == m && Matches(vr, m.package.version);
        if i > 0 {
          assert entries[1..][i - 1] == entries[i];
        }
      } else {
        assert forall i :: 0 <= i < |entries| - 1 ==> entries[1..][i] == entries[i + 1];
      }
    }
  }

  /** Publish order survives the filter: matching entries appended later come later. */
  lemma {:induction false} MatchingManifestsAppend(entries: seq<PackageEntry>, e: PackageEntry, vr: VersionReq)
    ensures MatchingManifests(entries + [e], vr)
         == MatchingManifests(entries, vr) + (if Matches(vr, e.manifest.package.version) then [e.manifest] else [])
  {
    if entries == [] {
      assert [e][1..] == [];
    } else {
      assert (entries + [e])[1..] == entries[1..] + [e];
      MatchingManifestsAppend(entries[1..], e, vr);
    }
  }

  /** `query`: never fails; the matching manifests under the requirement's scope and name. */
  function Query(storage: Storage, req: PackageReq): (r: Result<seq<Manifest>, string>)
    ensures r.Ok?
    ensures (req.name.scope !in storage || req.name.name !in storage[req.name.scope]) ==> r.value == []
    ensures forall m :: m in r.value ==> Matches(req.versionReq, m.package.version)
  {
    Ok(MatchingManifests(EntriesOf(storage, req.name.scope, req.name.name), req.versionReq))
  }

  /** Every entry is filed under its own manifest's scope and name, as `publish` files it. */
  ghost predicate Keyed(storage: Storage)
  {
    forall s, n, i :: 0 <= i < |EntriesOf(storage, s, n)| ==> EntriesOf(storage, s, n)[i].manifest.package.name == PackageName(s, n)
  }

  /** The ids of every published manifest. */
  ghost function StoredIds(storage: Storage): set<PackageId>
  {
    set s, n, i | s in storage && n in storage[s] && 0 <= i < |storage[s][n]| :: ManifestId(storage[s][n][i].manifest)
  }

  /**
   * On storage filled by `publish`, every manifest `query` answers meets
   * the whole requirement, name included, and is a published one.
   */
  lemma QueryMeetsRequest(storage: Storage, req: PackageReq, m: Manifest)
    requires Keyed(storage) && m in Query(storage, req).value
    ensures MatchesId(req, ManifestId(m)) && ManifestId(m) in StoredIds(storage)
  {
    var entries := EntriesOf(storage, req.name.scope, req.name.name);
    MatchingManifestsComplete(entries, req.versionReq, m);
    var i :| 0 <= i < |entries| && entries[i].manifest == m && Matches(req.versionReq, m.package.version);
    assert m.package.name == PackageName(req.name.scope, req.name.name);
    assert req.name.scope in storage && req.name.name in storage[req.name.scope];
  }

  /** The position of the first entry with `version`, if any. */
  function FirstWithVersion(entries: seq<PackageEntry>, version: Version): (r: Option<nat>)
    ensures r.None? <==> forall i :: 0 <= i < |entries| ==> entries[i].manifest.package.version != version
    ensures r.Some? ==> r.value < |entries| && entries[r.value].manifest.package.version == version
    ensures r.Some? ==> forall k :: 0 <= k < r.value ==> entries[k].manifest.package.version != version
  {
    if entries == [] then None
    else if entries[0].manifest.package.version == version then Some(0)
    else
      var rest := FirstWithVersion(entries[1..], version);
      assert forall i :: 1 <= i < |entries| ==> entries[i] == entries[1..][i - 1];
      if rest.None? then None else Some(rest.value + 1)
  }

  function NotFound(id: PackageId): string
  {
    "Package " + IdToString(id) + " does not exist"
  }

  /** `download_package`: the contents of the first entry with exactly the id's version. */
  function Download(storage: Storage, id: PackageId): (r: Result<PackageContents, string>)
    ensures r.Err? <==> forall i :: 0 <= i < |EntriesOf(storage, id.name.scope, id.name.name)| ==>
                          EntriesOf(storage, id.name.scope, id.name.name)[i].manifest.package.version != id.version
    ensures r.Err? ==> r.error == NotFound(id)
    ensures r.Ok? ==> var entries := EntriesOf(storage, id.name.scope, id.name.name);
                      exists i :: 0 <= i < |entries| && entries[i].manifest.package.version == id.version
                               && r.value == entries[i].contents
                               && forall k :: 0 <= k < i ==> entries[k].manifest.package.version != id.version
  {
    var entries := EntriesOf(storage, id.name.scope, id.name.name);
    match FirstWithVersion(entries, id.version)
    case None => Err(NotFound(id))
    case Some(i) => Ok(entries[i].contents)
  }

  /** `InMemoryRegistry`: the storage that `publish` grows. */
  class InMemoryRegistry {
    var storage: Storage

    /** Every entry sits under its manifest's scope and name. */
    ghost predicate Valid()
      reads this
    {
      Keyed(storage)
    }

    /** `InMemoryRegistry::new`: nothing published. */
    constructor()
      ensures storage == map[] && Valid()
    {
      storage := map[];
    }

    /**
     * `publish`: append the entry under its scope and name, creating either
     * level when missing; every other list is left as it was.
     */
    method Publish(manifest: Manifest, contents: PackageContents)
      requires Valid()
      modifies this
      ensures Valid()
      ensures var scope, name := manifest.package.name.scope, manifest.package.name.name;
        EntriesOf(storage, scope, name) == old(EntriesOf(storage, scope, name)) + [PackageEntry(manifest, contents)]
      ensures forall s, n :: (s, n) != (manifest.package.name.scope, manifest.package.name.name) ==>
        EntriesOf(storage, s, n) == old(EntriesOf(storage, s, n))
      ensures forall s :: s in old(storage) ==> s in storage && old(storage[s]).Keys <= storage[s].Keys
    {
      var scope, name := manifest.package.name.scope, manifest.package.name.name;
      var names := if scope in storage then storage[scope] else map[];
      var entries := if name in names then names[name] else [];
      ghost var before := storage;
      storage := storage[scope := names[name := entries + [PackageEntry(manifest, contents)]]];
      forall s, n, i | 0 <= i < |EntriesOf(storage, s, n)|
        ensures EntriesOf(storage, s, n)[i].manifest.package.name == PackageName(s, n)
      {
        if (s, n) == (scope, name) {
          if i < |entries| {
            assert EntriesOf(storage, s, n)[i] == EntriesOf(before, s, n)[i];
          }
        } else {
          assert EntriesOf(storage, s, n) == EntriesOf(before, s, n);
        }
      }
    }

    /**
     * `source`: a `PackageSource` answering from the storage as it is now.
     * `fallback_sources` is unimplemented in the registry and is modelled
     * as a failure.
     */
    function Source(): (s: PackageSource)
      reads this
      ensures s.update == Ok(())
      ensures s.fallbacks.Err?
      ensures forall req :: s.query(req) == Query(storage, req)
      ensures forall id :: s.download(id) == Download(storage, id)
    {
      var snapshot := storage;
      PackageSource(
        Ok(()),
        (req: PackageReq) => Query(snapshot, req),
        (id: PackageId) => Download(snapshot, id),
        Err("Implement in-memory fallback sources"))
    }
  }

  /**
   * After a publish, a query sees the new manifest at the end of the
   * earlier answer exactly when its version matches; other packages'
   * answers are unchanged.
   */
  lemma QueryAfterPublish(before: Storage, after: Storage, e: PackageEntry, req: PackageReq)
    requires EntriesOf(after, e.manifest.package.name.scope, e.manifest.package.name.name)
          == EntriesOf(before, e.manifest.package.name.scope, e.manifest.package.name.name) + [e]
    requires forall s, n :: (s, n) != (e.manifest.package.name.scope, e.manifest.package.name.name) ==>
               EntriesOf(after, s, n) == EntriesOf(before, s, n)
    ensures req.name == e.manifest.package.name ==>
      Query(after, req).value == Query(before, req).value
        + (if Matches(req.versionReq, e.manifest.package.version) then [e.manifest] else [])
    ensures req.name != e.manifest.package.name ==> Query(after, req) == Query(before, req)
  {
    if req.name == e.manifest.package.name {
      MatchingManifestsAppend(EntriesOf(before, req.name.scope, req.name.name), e, req.versionReq);
    } else {
      assert (req.name.scope, req.name.name) != (e.manifest.package.name.scope, e.manifest.package.name.name);
    }
  }

  /** Publishing a second entry with an existing version does not change what `download_package` returns. */
  lemma DownloadKeepsFirst(entries: seq<PackageEntry>, e: PackageEntry, v: Version)
    requires FirstWithVersion(entries, v).Some?
    ensures FirstWithVersion(entries + [e], v) == FirstWithVersion(entries, v)
  {
    var i := FirstWithVersion(entries, v).value;
    var r := FirstWithVersion(entries + [e], v);
    assert (entries + [e])[i] == entries[i];
    assert forall k :: 0 <= k < i ==> (entries + [e])[k] == entries[k];
  }
}
