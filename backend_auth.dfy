/**
 * Who may read from and publish to the registry
 * (wally-registry-backend/src/auth.rs): the configured `AuthMode`, the
 * request guards `ReadAccess` and `WriteAccess` over the request's
 * `authorization` header, and the per-scope write check against the
 * package index's owner files.
 */
module BackendAuth {
  import opened Wrappers
  import opened Strings
  import opened ApiErrors
  import opened PackageNames
  import opened PackageIds
  import opened PackageIndexes

  /** How the registry authenticates requests. */
  datatype AuthMode =
    | ApiKey(key: string)
    | DoubleApiKey(read: Option<string>, write: string)
    | GithubOAuth
    | Unauthenticated

  /** The `Debug` text of a mode, as the server logs it at start-up. */
  function DebugText(mode: AuthMode): (r: string)
    ensures r in {"API key", "double API key", "Github OAuth", "no authentication"}
    ensures r == "API key" <==> mode.ApiKey?
    ensures r == "double API key" <==> mode.DoubleApiKey?
    ensures r == "Github OAuth" <==> mode.GithubOAuth?
  {
    match mode
    case ApiKey(_) => "API key"
    case DoubleApiKey(_, _) => "double API key"
    case GithubOAuth => "Github OAuth"
    case Unauthenticated => "no authentication"
  }

  /** Two modes of the same kind, whatever keys they hold. */
  predicate SameKind(a: AuthMode, b: AuthMode)
  {
    && (a.ApiKey? <==> b.ApiKey?)
    && (a.DoubleApiKey? <==> b.DoubleApiKey?)
    && (a.GithubOAuth? <==> b.GithubOAuth?)
  }

  /** The logged text depends on the kind of mode alone, so no key ever reaches the log. */
  lemma DebugHidesKeys(a: AuthMode, b: AuthMode)
    requires SameKind(a, b)
    ensures DebugText(a) == DebugText(b)
  {
  }

  // ---------------------------------------------------------------------
  // The bearer token

  const BEARER: string := "Bearer "

  predicate HasPrefix(s: string, prefix: string)
  {
    |prefix| <= |s| && s[..|prefix|] == prefix
  }

  /**
   * The token of an `authorization` header of the bearer scheme (section
   * 2.1 of RFC 6750): the text after byte 6, trimmed, when the header
   * starts with "Bearer ".
   */
  function BearerToken(header: Option<string>): (r: Option<string>)
    ensures r.Some? <==> header.Some? && HasPrefix(header.value, BEARER)
    ensures r.Some? ==> r.value == Trim(header.value[|BEARER|..])
  {
    match header
    case None => None
    case Some(h) =>
      if HasPrefix(h, BEARER) then
        assert h[6..] == [' '] + h[7..];
        TrimSkipsSpace(h[7..]);
        Some(Trim(h[6..]))
      else None
  }

  /** One leading space makes no difference to `trim`. */
  lemma TrimSkipsSpace(s: string)
    ensures Trim([' '] + s) == Trim(s)
  {
    TrimPastWhitespace([' '], s);
  }

  /** `trim` looks only at what follows the leading whitespace. */
  lemma TrimFromFirstNonSpace(t: string, u: string)
    requires t[LeadingWhitespace(t)..] == u[LeadingWhitespace(u)..]
    ensures Trim(t) == Trim(u)
  {
    var a := t[LeadingWhitespace(t)..];
    var x := a[..TrailingWhitespace(a)];
    TrimIs(t, x);
    TrimIs(u, x);
  }

  /** `trim` keeps the text after the leading whitespace, less its trailing whitespace. */
  lemma TrimIs(s: string, x: string)
    requires var a := s[LeadingWhitespace(s)..]; x == a[..TrailingWhitespace(a)]
    ensures Trim(s) == x
  {
    var i := LeadingWhitespace(s);
    TrimOfRest(s);
    SliceOfSuffix(s, i, TrailingWhitespace(s[i..]));
  }

  lemma SliceOfSuffix(s: string, i: nat, n: nat)
    requires i + n <= |s|
    ensures s[i..i + n] == s[i..][..n]
  {
  }

  /** `trim` keeps the text after the leading whitespace, less its trailing whitespace. */
  lemma TrimOfRest(s: string)
    ensures Trim(s) == s[LeadingWhitespace(s)..LeadingWhitespace(s) + TrailingWhitespace(s[LeadingWhitespace(s)..])]
  {
  }

  lemma {:induction false} LeadingPastWhitespace(padding: string, s: string)
    requires AllWhitespace(padding)
    ensures LeadingWhitespace(padding + s) == |padding| + LeadingWhitespace(s)
    decreases |padding|
  {
    var t := padding + s;
    if padding == [] {
      assert t == s;
    } else {
      assert t[0] == padding[0] && IsWhitespace(t[0]);
      assert t[1..] == padding[1..] + s;
      assert AllWhitespace(padding[1..]) by {
        forall i | 0 <= i < |padding[1..]| ensures IsWhitespace(padding[1..][i]) {
          assert padding[1..][i] == padding[i + 1];
        }
      }
      LeadingPastWhitespace(padding[1..], s);
    }
  }

  /** Leading whitespace makes no difference to `trim`. */
  lemma TrimPastWhitespace(padding: string, s: string)
    requires AllWhitespace(padding)
    ensures Trim(padding + s) == Trim(s)
  {
    var t := padding + s;
    LeadingPastWhitespace(padding, s);
    assert t[|padding| + LeadingWhitespace(s)..] == s[LeadingWhitespace(s)..];
    TrimFromFirstNonSpace(t, s);
  }

  /** `match_api_key`: the bearer token must equal the key; otherwise 401. */
  function MatchApiKey<T>(header: Option<string>, key: string, result: T): (r: Result<T, ApiError>)
    ensures r.Ok? <==> BearerToken(header) == Some(key)
    ensures r.Ok? ==> r.value == result
    ensures r.Err? ==> r.error.status == Unauthorized
    ensures BearerToken(header).None? ==> r == Err(ApiError(Unauthorized, "API key required"))
  {
    match BearerToken(header)
    case None => Err(ApiError(Unauthorized, "API key required"))
    case Some(token) =>
      if token == key then Ok(result) else Err(ApiError(Unauthorized, "Invalid API key for read access"))
  }

  lemma BearerTokenOf(rest: string)
    ensures BearerToken(Some(BEARER + rest)) == Some(Trim(rest))
  {
    var h := BEARER + rest;
    assert h[..|BEARER|] == BEARER;
    assert h[|BEARER|..] == rest;
  }

  /** "Bearer <key>" is accepted for a key with no whitespace at either end. */
  lemma BearerKeyAccepted<T>(key: string, result: T)
    requires Trim(key) == key
    ensures MatchApiKey(Some(BEARER + key), key, result) == Ok(result)
  {
    var h := BEARER + key;
    assert HasPrefix(h, BEARER);
    assert h[|BEARER|..] == key;
  }

  /** Whitespace around the token in the header is ignored. */
  lemma PaddedKeyAccepted<T>(key: string, padding: string, result: T)
    requires Trim(key) == key && AllWhitespace(padding)
    ensures MatchApiKey(Some(BEARER + padding + key), key, result) == Ok(result)
  {
    assert BEARER + padding + key == BEARER + (padding + key);
    BearerTokenOf(padding + key);
    TrimPastWhitespace(padding, key);
  }

  /** A configured key with whitespace at either end matches no header at all. */
  lemma UntrimmedKeyNeverMatches<T>(header: Option<string>, key: string, result: T)
    requires key != [] && (IsWhitespace(key[0]) || IsWhitespace(key[|key| - 1]))
    ensures MatchApiKey(header, key, result).Err?
  {
  }

  // ---------------------------------------------------------------------
  // Read access

  datatype ReadAccess = Public | ReadWithKey

  /** The key a reader must present under a mode, if any. */
  function ReadKey(mode: AuthMode): Option<string>
  {
    match mode
    case ApiKey(key) => Some(key)
    case DoubleApiKey(read, _) => read
    case _ => None
  }

  /** The `ReadAccess` guard. */
  function ReadAccessFor(mode: AuthMode, header: Option<string>): (r: Result<ReadAccess, ApiError>)
    ensures ReadKey(mode).None? ==> r == Ok(Public)
    ensures ReadKey(mode).Some? ==> (r.Ok? <==> BearerToken(header) == ReadKey(mode))
    ensures ReadKey(mode).Some? ==> (r.Ok? ==> r.value == ReadWithKey) && (r.Err? ==> r.error.status == Unauthorized)
  {
    match mode
    case Unauthenticated => Ok(Public)
    case GithubOAuth => Ok(Public)
    case ApiKey(key) => MatchApiKey(header, key, ReadWithKey)
    case DoubleApiKey(read, _) =>
      match read
      case None => Ok(Public)
      case Some(key) => MatchApiKey(header, key, ReadWithKey)
  }

  /** Reads are public exactly under no authentication, GitHub OAuth, or a double key without a read key. */
  lemma ReadPublicExactly(mode: AuthMode, header: Option<string>)
    ensures ReadAccessFor(mode, header) == Ok(Public) <==>
      mode.Unauthenticated? || mode.GithubOAuth? || (mode.DoubleApiKey? && mode.read.None?)
  {
  }

  // ---------------------------------------------------------------------
  // Write access

  /** The fields of GitHub's `/user` answer that the registry reads. */
  datatype GithubInfo = GithubInfo(login: string, id: nat)

  datatype WriteAccess = WriteWithKey | Github(info: GithubInfo)

  /** The answer to `GET https://api.github.com/user` with the bearer token. */
  datatype GithubReply = RequestFailed(message: string) | Unreadable(message: string) | User(info: GithubInfo)

  /** The GitHub API, as a function of the token sent to it. */
  type GithubApi = string -> GithubReply

  /** `verify_github_token`. */
  function VerifyGithubToken(header: Option<string>, github: GithubApi): (r: Result<WriteAccess, ApiError>)
    ensures BearerToken(header).None? ==> r == Err(ApiError(Unauthorized, "Github auth required"))
    ensures BearerToken(header).Some? ==>
      match github(BearerToken(header).value)
      case RequestFailed(_) => r.Err? && r.error.status == InternalServerError
      case Unreadable(_) => r.Err? && r.error.status == Unauthorized
      case User(info) => r == Ok(Github(info))
  {
    match BearerToken(header)
    case None => Err(ApiError(Unauthorized, "Github auth required"))
    case Some(token) =>
      match github(token)
      case RequestFailed(message) => Err(Internal(message))
      case Unreadable(message) => Err(ApiError(Unauthorized, "Github auth failed: " + message))
      case User(info) => Ok(Github(info))
  }

  /** The key a writer must present under a key-based mode. */
  function WriteKey(mode: AuthMode): Option<string>
  {
    match mode
    case ApiKey(key) => Some(key)
    case DoubleApiKey(_, write) => Some(write)
    case _ => None
  }

  /** The `WriteAccess` guard. */
  function WriteAccessFor(mode: AuthMode, header: Option<string>, github: GithubApi): (r: Result<WriteAccess, ApiError>)
    ensures mode.Unauthenticated? ==> r == Err(ApiError(Unauthorized, "Invalid API key for write access"))
    ensures WriteKey(mode).Some? ==> (r.Ok? <==> BearerToken(header) == WriteKey(mode))
    ensures WriteKey(mode).Some? ==> (r.Ok? ==> r.value == WriteWithKey) && (r.Err? ==> r.error.status == Unauthorized)
    ensures mode.GithubOAuth? ==> r == VerifyGithubToken(header, github)
    ensures r.Ok? && r.value.Github? ==> mode.GithubOAuth?
  {
    match mode
    case Unauthenticated => Err(ApiError(Unauthorized, "Invalid API key for write access"))
    case ApiKey(key) => MatchApiKey(header, key, WriteWithKey)
    case DoubleApiKey(_, write) => MatchApiKey(header, write, WriteWithKey)
    case GithubOAuth => VerifyGithubToken(header, github)
  }

  /** No mode lets a request without an `authorization` header write. */
  lemma NoWriteWithoutHeader(mode: AuthMode, github: GithubApi)
    ensures WriteAccessFor(mode, None, github).Err?
    ensures WriteAccessFor(mode, None, github).error.status == Unauthorized
  {
  }

  /**
   * With a double key and no read key, anyone may read, a write without a
   * key is refused, and a write with the write key is accepted.
   */
  lemma DoubleKeyReadsPublicWritesNeedKey(write: string, header: Option<string>, github: GithubApi)
    requires Trim(write) == write
    ensures ReadAccessFor(DoubleApiKey(None, write), header) == Ok(Public)
    ensures WriteAccessFor(DoubleApiKey(None, write), None, github).Err?
    ensures WriteAccessFor(DoubleApiKey(None, write), Some(BEARER + write), github) == Ok(WriteWithKey)
  {
    BearerKeyAccepted(write, WriteWithKey);
  }

  /** With two different keys the read key does not grant writes. */
  lemma ReadKeyDoesNotWrite(read: string, write: string, github: GithubApi)
    requires read != write && Trim(read) == read
    ensures ReadAccessFor(DoubleApiKey(Some(read), write), Some(BEARER + read)) == Ok(ReadWithKey)
    ensures WriteAccessFor(DoubleApiKey(Some(read), write), Some(BEARER + read), github).Err?
  {
    BearerKeyAccepted(read, ReadWithKey);
    BearerKeyAccepted(read, WriteWithKey);
  }

  // ---------------------------------------------------------------------
  // Writing a package

  /**
   * `WriteAccess::can_write_package`: a key holder may write anything; a
   * GitHub user may write to a scope they own, or to a scope named after
   * their (lower-cased) login that nobody owns yet.
   */
  function CanWritePackage(access: WriteAccess, id: PackageId, index: PackageIndex, codec: Codec): (r: Result<bool, IndexError>)
    reads index
    ensures access.WriteWithKey? ==> r == Ok(true)
    ensures access.Github? ==> (r.Err? <==> index.GetScopeOwners(id.name.scope, codec).Err?)
    ensures access.Github? && r.Ok? ==>
      (r.value <==> access.info.id in index.GetScopeOwners(id.name.scope, codec).value
                    || (LowerAscii(access.info.login) == id.name.scope && index.GetScopeOwners(id.name.scope, codec).value == []))
  {
    var scope := id.name.scope;
    match access
    case WriteWithKey => Ok(true)
    case Github(info) =>
      var owner := index.IsScopeOwner(scope, info.id, codec);
      if owner.Err? then Err(owner.error)
      else if owner.value then Ok(true)
      else Ok(LowerAscii(info.login) == scope && index.GetScopeOwners(scope, codec).value == [])
  }

  /** The first GitHub user to publish to a scope named after their login claims it. */
  lemma FirstPublisherClaimsScope(info: GithubInfo, id: PackageId, index: PackageIndex, codec: Codec)
    requires id.name.scope !in index.ownerFiles && LowerAscii(info.login) == id.name.scope
    ensures CanWritePackage(Github(info), id, index, codec) == Ok(true)
  {
  }

  /** Once a scope has owners, nobody else may write to it, whatever their login. */
  lemma OwnedScopeIsClosed(info: GithubInfo, id: PackageId, index: PackageIndex, codec: Codec)
    requires index.GetScopeOwners(id.name.scope, codec).Ok?
    requires index.GetScopeOwners(id.name.scope, codec).value != []
    requires info.id !in index.GetScopeOwners(id.name.scope, codec).value
    ensures CanWritePackage(Github(info), id, index, codec) == Ok(false)
  {
  }
}
