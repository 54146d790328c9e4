/**
 * The decision rules of the dependency resolver (src/resolution.rs): how
 * origin realms merge, which versions count as SemVer-compatible, and how
 * already-activated packages and fresh candidates are ranked.
 */
module ResolutionRules {
  import opened Wrappers
  import opened Sorting
  import opened BTreeMaps
  import opened Semver
  import opened PackageNames
  import opened PackageIds
  import opened PackageReqs
  import opened Manifests
  import opened PackageSources

  /** `ResolvePackageMetadata`: a package's own realm, the realm it is installed in, and where it came from. */
  datatype ResolvePackageMetadata = ResolvePackageMetadata(realm: Realm, originRealm: Realm, sourceRegistry: PackageSourceId)

  /** `DependencyRequest`: one entry of the resolver's work queue. */
  datatype DependencyRequest = DependencyRequest(
    requestSource: PackageId,
    requestRealm: Realm,
    originRealm: Realm,
    packageAlias: string,
    packageReq: PackageReq)

  /** Realms from least to most restrictive placement: Dev < Server < Shared. */
  function RealmRank(r: Realm): nat
  {
    match r
    case Dev => 0
    case Server => 1
    case Shared => 2
  }

  /**
   * The origin-realm merge of an already-activated package (`current`)
   * with a new request's origin: the more widely visible of the two.
   */
  function RealmJoin(current: Realm, request: Realm): (j: Realm)
    ensures j == current || j == request
    ensures RealmRank(j) >= RealmRank(current) && RealmRank(j) >= RealmRank(request)
  {
    match (current, request)
    case (_, Shared) => Shared
    case (Shared, _) => Shared
    case (_, Server) => Server
    case (Server, _) => Server
    case (Dev, Dev) => Dev
  }

  lemma RealmRankInjective(a: Realm, b: Realm)
    ensures RealmRank(a) == RealmRank(b) ==> a == b
  {
  }

  /** The merge is a join: commutative, idempotent, associative, with Dev as its unit. */
  lemma RealmJoinLaws(a: Realm, b: Realm, c: Realm)
    ensures RealmJoin(a, b) == RealmJoin(b, a)
    ensures RealmJoin(a, a) == a
    ensures RealmJoin(RealmJoin(a, b), c) == RealmJoin(a, RealmJoin(b, c))
    ensures RealmJoin(a, Dev) == a && RealmJoin(Dev, a) == a
  {
  }

  /** `compatible`: equal versions, or the same minor in the 0.x range, or the same major otherwise. */
  predicate Compatible(a: Version, b: Version)
  {
    if a == b then true
    else if a.major == 0 && b.major == 0 then a.minor == b.minor
    else a.major == b.major
  }

  /** The compatibility class of a version: its major, and its minor while the major is 0. */
  function CompatKey(v: Version): (nat, nat)
  {
    (v.major, if v.major == 0 then v.minor else 0)
  }

  /** Two versions are compatible exactly when they fall in the same class. */
  lemma CompatibleByKey(a: Version, b: Version)
    ensures Compatible(a, b) <==> CompatKey(a) == CompatKey(b)
  {
  }

  /** Compatibility is an equivalence relation. */
  lemma CompatibleEquivalence(a: Version, b: Version, c: Version)
    ensures Compatible(a, a)
    ensures Compatible(a, b) ==> Compatible(b, a)
    ensures Compatible(a, b) && Compatible(b, c) ==> Compatible(a, c)
  {
    CompatibleByKey(a, b);
    CompatibleByKey(b, c);
    CompatibleByKey(a, c);
  }

  /** Whatever `^v` accepts is compatible with `v`: a caret requirement never admits two activations. */
  lemma CaretMatchesAreCompatible(v: Version, w: Version)
    requires Matches(CaretReq(v), w)
    ensures Compatible(v, w)
  {
    var c := CaretReq(v).comparators[0];
    assert MatchesComparator(c, w);
    assert MatchesCaret(c, w);
  }

  /** Descending package-id order. */
  predicate IdGreater(a: PackageId, b: PackageId)
  {
    IdLess(b, a)
  }

  lemma IdGreaterIsStrictTotalOrder()
    ensures StrictTotalOrder(IdGreater)
  {
    forall a: PackageId ensures !IdGreater(a, a) { CompareIdsProperties(a, a); }
    forall a: PackageId, b: PackageId, c: PackageId | IdGreater(a, b) && IdGreater(b, c) ensures IdGreater(a, c) {
      IdLessTransitive(c, b, a);
    }
    forall a: PackageId, b: PackageId | a != b ensures IdGreater(a, b) || IdGreater(b, a) {
      CompareIdsProperties(a, b);
    }
  }

  /** Between ids of one package, id order is version order. */
  lemma SameNameIdLess(a: PackageId, b: PackageId)
    requires a.name == b.name
    ensures IdLess(a, b) <==> VersionLess(a.version, b.version)
  {
    CompareNamesProperties(a.name, b.name);
  }

  /**
   * The activated ids with the requested name, highest version first: the
   * `BTreeSet` walk filtered by name, then sorted by descending version.
   */
  function MatchingActivated(activated: set<PackageId>, name: PackageName): (r: seq<PackageId>)
    ensures forall id :: id in r <==> id in activated && id.name == name
    ensures forall i, j :: 0 <= i < j < |r| ==> VersionLess(r[j].version, r[i].version)
  {
    IdGreaterIsStrictTotalOrder();
    var r := SortedElements((set id | id in activated && id.name == name), IdGreater);
    forall i, j | 0 <= i < j < |r| ensures VersionLess(r[j].version, r[i].version) {
      assert r[i] in r && r[j] in r;
      SameNameIdLess(r[j], r[i]);
    }
    r
  }

  /** The first matching entry of the descending list is the highest matching activated version. */
  lemma FirstMatchIsHighest(activated: set<PackageId>, req: PackageReq, i: nat)
    requires i < |MatchingActivated(activated, req.name)|
    requires MatchesId(req, MatchingActivated(activated, req.name)[i])
    requires forall k :: 0 <= k < i ==> !MatchesId(req, MatchingActivated(activated, req.name)[k])
    ensures forall id :: id in activated && MatchesId(req, id) ==>
      id == MatchingActivated(activated, req.name)[i]
      || VersionLess(id.version, MatchingActivated(activated, req.name)[i].version)
  {
    var m := MatchingActivated(activated, req.name);
    forall id | id in activated && MatchesId(req, id)
      ensures id == m[i] || VersionLess(id.version, m[i].version)
    {
      assert id in m;
      var j :| 0 <= j < |m| && m[j] == id;
      assert j >= i;
    }
  }

  /** The `any` test: the candidate version is compatible with one of the activated ids of its name. */
  predicate HasConflict(matching: seq<PackageId>, v: Version)
  {
    exists i :: 0 <= i < |matching| && Compatible(v, matching[i].version)
  }

  /** The candidate comparator, as "not after": lockfile members first, otherwise higher versions first. */
  predicate CandidateLe(tryToUse: set<PackageId>, a: Manifest, b: Manifest)
  {
    var ta, tb := ManifestId(a) in tryToUse, ManifestId(b) in tryToUse;
    if ta && !tb then true
    else if !ta && tb then false
    else !VersionLess(a.package.version, b.package.version)
  }

  lemma CandidateLeIsTotalPreorder(tryToUse: set<PackageId>)
    ensures TotalPreorder((a: Manifest, b: Manifest) => CandidateLe(tryToUse, a, b))
  {
    forall a: Manifest, b: Manifest ensures CandidateLe(tryToUse, a, b) || CandidateLe(tryToUse, b, a) {
      CompareVersionProperties(a.package.version, b.package.version);
    }
    forall a: Manifest, b: Manifest, c: Manifest | CandidateLe(tryToUse, a, b) && CandidateLe(tryToUse, b, c)
      ensures CandidateLe(tryToUse, a, c)
    {
      var x, y, z := a.package.version, b.package.version, c.package.version;
      CompareVersionProperties(x, y);
      CompareVersionProperties(y, z);
      CompareVersionProperties(x, z);
      if VersionLess(x, z) && !VersionLess(x, y) {
        if x != y {
          CompareVersionTransitive(y, x, z);
        }
      }
    }
  }

  /**
   * The candidates in the order they are tried: a permutation of the
   * query's answer in which no lockfile member follows a non-member, and
   * versions descend among members and among non-members.
   */
  function SortCandidates(manifests: seq<Manifest>, tryToUse: set<PackageId>): (r: seq<Manifest>)
    ensures multiset(r) == multiset(manifests)
    ensures forall i, j :: 0 <= i < j < |r| ==> CandidateLe(tryToUse, r[i], r[j])
  {
    CandidateLeIsTotalPreorder(tryToUse);
    SortBySorted(manifests, (a: Manifest, b: Manifest) => CandidateLe(tryToUse, a, b));
    SortBy(manifests, (a: Manifest, b: Manifest) => CandidateLe(tryToUse, a, b))
  }

  /** What the candidate order means for two positions. */
  lemma SortedCandidatesPreferLockfile(r: seq<Manifest>, tryToUse: set<PackageId>, i: nat, j: nat)
    requires forall p, q :: 0 <= p < q < |r| ==> CandidateLe(tryToUse, r[p], r[q])
    requires i < j < |r|
    ensures ManifestId(r[j]) in tryToUse ==> ManifestId(r[i]) in tryToUse
    ensures (ManifestId(r[i]) in tryToUse <==> ManifestId(r[j]) in tryToUse) ==>
              !VersionLess(r[i].package.version, r[j].package.version)
  {
    assert CandidateLe(tryToUse, r[i], r[j]);
  }

  /** The candidates whose realm the request may depend on, in their order. */
  function RealmValidCandidates(candidates: seq<Manifest>, requestRealm: Realm): (r: seq<Manifest>)
    ensures |r| <= |candidates|
    ensures forall m :: m in r <==> m in candidates && IsDependencyValid(requestRealm, m.package.realm)
  {
    if candidates == [] then []
    else
      var rest := RealmValidCandidates(candidates[1..], requestRealm);
      assert forall m :: m in candidates <==> m == candidates[0] || m in candidates[1..];
      if IsDependencyValid(requestRealm, candidates[0].package.realm) then [candidates[0]] + rest else rest
  }

  /** Filtering keeps the candidate order. */
  lemma {:induction false} RealmValidKeepsOrder(candidates: seq<Manifest>, requestRealm: Realm, le: (Manifest, Manifest) -> bool)
    requires SortedBy(candidates, le)
    ensures SortedBy(RealmValidCandidates(candidates, requestRealm), le)
  {
    if candidates != [] {
      assert SortedBy(candidates[1..], le);
      RealmValidKeepsOrder(candidates[1..], requestRealm, le);
      var rest := RealmValidCandidates(candidates[1..], requestRealm);
      forall k | 0 <= k < |rest| ensures le(candidates[0], rest[k]) {
        assert rest[k] in candidates[1..];
        var p :| 0 <= p < |candidates[1..]| && candidates[1..][p] == rest[k];
        assert candidates[p + 1] == rest[k];
      }
    }
  }

  /** The requests queued for the entries of one dependency table. */
  function RequestsFor(source: PackageId, entries: seq<(string, PackageReq)>, requestRealm: Realm, originRealm: Realm)
    : (r: seq<DependencyRequest>)
    ensures |r| == |entries|
  {
    seq(|entries|, i requires 0 <= i < |entries| =>
      DependencyRequest(source, requestRealm, originRealm, entries[i].0, entries[i].1))
  }

  /** Every queued request names its table entry, the given source and realms. */
  lemma RequestsForTable(source: PackageId, t: DependencyTable, requestRealm: Realm, originRealm: Realm)
    ensures var r := RequestsFor(source, Entries(t), requestRealm, originRealm);
      && (forall i :: 0 <= i < |r| ==> r[i].requestSource == source && r[i].requestRealm == requestRealm
                                       && r[i].originRealm == originRealm
                                       && r[i].packageAlias in t && t[r[i].packageAlias] == r[i].packageReq)
      && (forall alias :: alias in t ==> exists i :: 0 <= i < |r| && r[i].packageAlias == alias)
  {
    var e := Entries(t);
    var r := RequestsFor(source, e, requestRealm, originRealm);
    forall alias | alias in t ensures exists i :: 0 <= i < |r| && r[i].packageAlias == alias {
      var i :| 0 <= i < |e| && e[i].0 == alias;
      assert r[i].packageAlias == alias;
    }
  }
}
