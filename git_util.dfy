/**
 * The decisions in the git helpers (src/git_util.rs): the credentials
 * callback handed to libgit2, the checks `commit_and_push` makes around a
 * push, and which files `init_test_repo` stages. libgit2 itself (clone,
 * fetch, reset, staging, committing and pushing) is foreign and appears
 * only through its outcomes.
 */
module GitUtil {
  import opened Wrappers
  import opened Paths

  // ---------------------------------------------------------------------
  // Credentials

  /** The credential types libgit2 says it will accept for a request. */
  datatype Allowed = Allowed(plaintext: bool, defaultCredentials: bool)

  /** What the callback answers. */
  datatype Offer =
    | Plaintext(username: string, password: string)  // `Cred::userpass_plaintext(token, "")`
    | CredentialHelper                               // `Cred::credential_helper(config, url, username)`
    | DefaultCredentials                             // `Cred::default()`
    | NoAuthentication                               // "no authentication available"

  /** The two flags the callback captures. */
  datatype CredState = CredState(tokenTried: bool, credHelperTried: bool)

  const FRESH: CredState := CredState(false, false)

  /**
   * One call of the callback: a configured token is offered on the first
   * plaintext request, the credential helper on the first plaintext
   * request when there is no token, and after that default credentials
   * when they are accepted.
   */
  function Respond(token: Option<string>, s: CredState, allowed: Allowed): (r: (CredState, Offer))
    ensures s.tokenTried ==> r.0.tokenTried
    ensures s.credHelperTried ==> r.0.credHelperTried
    ensures r.1.Plaintext? <==> allowed.plaintext && token.Some? && !s.tokenTried
    ensures r.1.Plaintext? ==> r.1 == Plaintext(token.value, "") && r.0 == s.(tokenTried := true)
    ensures r.1.CredentialHelper? <==> allowed.plaintext && token.None? && !s.credHelperTried
    ensures r.1.CredentialHelper? ==> r.0 == s.(credHelperTried := true)
    ensures !r.1.Plaintext? && !r.1.CredentialHelper? ==>
      r.0 == s && (r.1 == if allowed.defaultCredentials then DefaultCredentials else NoAuthentication)
  {
    if allowed.plaintext && token.Some? && !s.tokenTried then (s.(tokenTried := true), Plaintext(token.value, ""))
    else if allowed.plaintext && token.None? && !s.credHelperTried then (s.(credHelperTried := true), CredentialHelper)
    else if allowed.defaultCredentials then (s, DefaultCredentials)
    else (s, NoAuthentication)
  }

  /** The closure `make_credentials_callback` returns, with its captured token and flags. */
  class CredentialsCallback {
    const accessToken: Option<string>
    var tokenTried: bool
    var credHelperTried: bool

    constructor(accessToken: Option<string>)
      ensures this.accessToken == accessToken && !tokenTried && !credHelperTried
    {
      this.accessToken := accessToken;
      tokenTried := false;
      credHelperTried := false;
    }

    function State(): CredState
      reads this
    {
      CredState(tokenTried, credHelperTried)
    }

    /** One request from libgit2. */
    method Call(allowed: Allowed) returns (offer: Offer)
      modifies this
      ensures (State(), offer) == Respond(accessToken, old(State()), allowed)
    {
      if allowed.plaintext {
        if accessToken.Some? {
          if !tokenTried {
            tokenTried := true;
            return Plaintext(accessToken.value, "");
          }
        } else {
          if !credHelperTried {
            credHelperTried := true;
            return CredentialHelper;
          }
        }
      }
      if allowed.defaultCredentials {
        return DefaultCredentials;
      }
      return NoAuthentication;
    }
  }

  /** The answers to a series of requests made to one callback. */
  function Answers(token: Option<string>, s: CredState, requests: seq<Allowed>): (r: seq<Offer>)
    ensures |r| == |requests|
    decreases |requests|
  {
    if requests == [] then []
    else
      var (next, offer) := Respond(token, s, requests[0]);
      [offer] + Answers(token, next, requests[1..])
  }

  /** Once the token has been tried it is never offered again. */
  lemma {:induction false} NoTokenAfterTried(token: Option<string>, s: CredState, requests: seq<Allowed>)
    requires s.tokenTried
    ensures forall i :: 0 <= i < |requests| ==> !Answers(token, s, requests)[i].Plaintext?
    decreases |requests|
  {
    if requests != [] {
      var (next, offer) := Respond(token, s, requests[0]);
      NoTokenAfterTried(token, next, requests[1..]);
      assert forall i :: 1 <= i < |requests| ==> Answers(token, s, requests)[i] == Answers(token, next, requests[1..])[i - 1];
    }
  }

  /** Once the helper has been tried it is never offered again. */
  lemma {:induction false} NoHelperAfterTried(token: Option<string>, s: CredState, requests: seq<Allowed>)
    requires s.credHelperTried
    ensures forall i :: 0 <= i < |requests| ==> !Answers(token, s, requests)[i].CredentialHelper?
    decreases |requests|
  {
    if requests != [] {
      var (next, offer) := Respond(token, s, requests[0]);
      NoHelperAfterTried(token, next, requests[1..]);
      assert forall i :: 1 <= i < |requests| ==> Answers(token, s, requests)[i] == Answers(token, next, requests[1..])[i - 1];
    }
  }

  /** With a token configured the credential helper is never consulted. */
  lemma {:induction false} NoHelperWithToken(token: Option<string>, s: CredState, requests: seq<Allowed>)
    requires token.Some?
    ensures forall i :: 0 <= i < |requests| ==> !Answers(token, s, requests)[i].CredentialHelper?
    decreases |requests|
  {
    if requests != [] {
      var (next, offer) := Respond(token, s, requests[0]);
      NoHelperWithToken(token, next, requests[1..]);
      assert forall i :: 1 <= i < |requests| ==> Answers(token, s, requests)[i] == Answers(token, next, requests[1..])[i - 1];
    }
  }

  /**
   * Over the lifetime of one callback the token is offered at most once
   * and so is the credential helper.
   */
  lemma {:induction false} OfferedAtMostOnce(token: Option<string>, s: CredState, requests: seq<Allowed>)
    ensures forall i, j :: 0 <= i < j < |requests| ==>
      !(Answers(token, s, requests)[i].Plaintext? && Answers(token, s, requests)[j].Plaintext?)
    ensures forall i, j :: 0 <= i < j < |requests| ==>
      !(Answers(token, s, requests)[i].CredentialHelper? && Answers(token, s, requests)[j].CredentialHelper?)
    decreases |requests|
  {
    if requests != [] {
      var (next, offer) := Respond(token, s, requests[0]);
      var answers := Answers(token, s, requests);
      var rest := Answers(token, next, requests[1..]);
      OfferedAtMostOnce(token, next, requests[1..]);
      assert forall i :: 1 <= i < |requests| ==> answers[i] == rest[i - 1];
      if offer.Plaintext? {
        NoTokenAfterTried(token, next, requests[1..]);
      }
      if offer.CredentialHelper? {
        NoHelperAfterTried(token, next, requests[1..]);
      }
    }
  }

  /** A fresh callback answers a first plaintext request with the token, or else with the helper. */
  lemma FirstPlaintextRequest(token: Option<string>, requests: seq<Allowed>)
    requires |requests| > 0 && requests[0].plaintext
    ensures token.Some? ==> Answers(token, FRESH, requests)[0] == Plaintext(token.value, "")
    ensures token.None? ==> Answers(token, FRESH, requests)[0] == CredentialHelper
  {
  }

  // ---------------------------------------------------------------------
  // commit_and_push

  /** Why `commit_and_push` fails. */
  datatype GitError =
    | NotRelative(modifiedFile: string, indexPath: string)  // "Path ... was not relative to package path ..."
    | GitFailure(message: string)                           // an error from libgit2
    | CallbackNotCalled                                     // "update_reference callback was not called"
    | RefRejected(status: string)                           // "failed to push a ref: ..."

  /** The status the push reports last, if any (`ref_status` keeps the last one set). */
  function LastRejection(updates: seq<Option<string>>): (r: Option<string>)
    ensures r.None? <==> forall i :: 0 <= i < |updates| ==> updates[i].None?
    ensures r.Some? ==> exists i :: 0 <= i < |updates| && updates[i] == r
                          && forall j :: i < j < |updates| ==> updates[j].None?
    decreases |updates|
  {
    if updates == [] then None
    else
      var last := updates[|updates| - 1];
      if last.Some? then last
      else
        var init := updates[..|updates| - 1];
        var r := LastRejection(init);
        LastOfInit(updates, init, r);
        r
  }

  /** Past an accepted last update, the last rejection is the one before it. */
  lemma LastOfInit(updates: seq<Option<string>>, init: seq<Option<string>>, r: Option<string>)
    requires updates != [] && updates[|updates| - 1].None? && init == updates[..|updates| - 1]
    requires r.None? <==> forall i :: 0 <= i < |init| ==> init[i].None?
    requires r.Some? ==> exists i :: 0 <= i < |init| && init[i] == r && forall j :: i < j < |init| ==> init[j].None?
    ensures r.None? <==> forall i :: 0 <= i < |updates| ==> updates[i].None?
    ensures r.Some? ==> exists i :: 0 <= i < |updates| && updates[i] == r
                          && forall j :: i < j < |updates| ==> updates[j].None?
  {
    assert forall i :: 0 <= i < |init| ==> init[i] == updates[i];
    if r.Some? {
      var i :| 0 <= i < |init| && init[i] == r && forall j :: i < j < |init| ==> init[j].None?;
      assert updates[i] == r;
      forall j | i < j < |updates| ensures updates[j].None? {
        if j < |init| {
          assert init[j].None?;
        }
      }
    } else {
      forall i | 0 <= i < |updates| ensures updates[i].None? {
        if i < |init| {
          assert init[i].None?;
        }
      }
    }
  }

  /**
   * The outcome of `commit_and_push`: the file must lie under the index;
   * staging, committing and pushing (`git`, `pushed`) must succeed; the
   * `push_update_reference` callback, called once per entry of `updates`
   * with the status the remote gave, must have been called, and with no
   * status.
   */
  function CommitOutcome(indexPath: string, modifiedFile: string, git: Result<(), string>,
                         updates: seq<Option<string>>, pushed: Result<(), string>): Result<(), GitError>
  {
    if StripPrefix(modifiedFile, indexPath).None? then Err(NotRelative(modifiedFile, indexPath))
    else if git.Err? then Err(GitFailure(git.error))
    else if pushed.Err? then Err(GitFailure(pushed.error))
    else if updates == [] then Err(CallbackNotCalled)
    else if LastRejection(updates).Some? then Err(RefRejected(LastRejection(updates).value))
    else Ok(())
  }

  /** A push succeeds exactly when every step did and every reference update was accepted. */
  lemma CommitOutcomeMeaning(indexPath: string, modifiedFile: string, git: Result<(), string>,
                             updates: seq<Option<string>>, pushed: Result<(), string>)
    ensures CommitOutcome(indexPath, modifiedFile, git, updates, pushed).Ok? <==>
      && StartsWith(modifiedFile, indexPath) && git.Ok? && pushed.Ok?
      && |updates| > 0 && (forall i :: 0 <= i < |updates| ==> updates[i].None?)
    ensures !StartsWith(modifiedFile, indexPath) ==>
      CommitOutcome(indexPath, modifiedFile, git, updates, pushed) == Err(NotRelative(modifiedFile, indexPath))
    ensures CommitOutcome(indexPath, modifiedFile, git, updates, pushed) == Err(CallbackNotCalled) <==>
      StartsWith(modifiedFile, indexPath) && git.Ok? && pushed.Ok? && updates == []
  {
  }

  /** A file joined under the index passes the relative-path check. */
  lemma IndexFileIsRelative(indexPath: string, part: string)
    requires indexPath != [] && indexPath[|indexPath| - 1] != '/' && (|part| == 0 || part[0] != '/')
    ensures CommitOutcome(indexPath, Join(indexPath, part), Ok(()), [None], Ok(())) == Ok(())
  {
    StripPrefixOfJoin(indexPath, part);
  }

  /**
   * `commit_and_push`, with libgit2's staging and commit (`git`), the
   * statuses passed to `push_update_reference` (`updates`) and the result
   * of `origin.push` (`pushed`) as inputs.
   */
  method CommitAndPush(indexPath: string, modifiedFile: string, git: Result<(), string>,
                       updates: seq<Option<string>>, pushed: Result<(), string>) returns (r: Result<(), GitError>)
    ensures r == CommitOutcome(indexPath, modifiedFile, git, updates, pushed)
  {
    var relative := StripPrefix(modifiedFile, indexPath);
    if relative.None? {
      return Err(NotRelative(modifiedFile, indexPath));
    }
    if git.Err? {
      return Err(GitFailure(git.error));
    }
    var refStatus: Option<string> := None;
    var callbackCalled := false;
    for k := 0 to |updates|
      invariant callbackCalled <==> k > 0
      invariant refStatus == LastRejection(updates[..k])
    {
      assert updates[..k + 1][..k] == updates[..k];
      if updates[k].Some? {
        refStatus := updates[k];
      }
      callbackCalled := true;
    }
    assert updates[..|updates|] == updates;
    if pushed.Err? {
      return Err(GitFailure(pushed.error));
    }
    if !callbackCalled {
      return Err(CallbackNotCalled);
    }
    if refStatus.Some? {
      return Err(RefRejected(refStatus.value));
    }
    return Ok(());
  }

  // ---------------------------------------------------------------------
  // init_test_repo

  /** An entry the directory walk yields: its path relative to the repository, and whether it is a file. */
  datatype WalkEntry = WalkEntry(relativePath: string, isFile: bool)

  /** Entries `init_test_repo` stages: files whose path does not begin with the `.git` component. */
  predicate Staged(e: WalkEntry)
  {
    e.isFile && !StartsWith(e.relativePath, ".git")
  }

  /** The staging loop of `init_test_repo`, in walk order. */
  method StageFiles(entries: seq<WalkEntry>) returns (staged: seq<string>)
    ensures forall p :: p in staged <==> exists i :: 0 <= i < |entries| && entries[i].relativePath == p && Staged(entries[i])
    ensures |staged| <= |entries|
  {
    staged := [];
    for k := 0 to |entries|
      invariant |staged| <= k
      invariant forall p :: p in staged <==> exists i :: 0 <= i < k && entries[i].relativePath == p && Staged(entries[i])
    {
      if !StartsWith(entries[k].relativePath, ".git") && entries[k].isFile {
        staged := staged + [entries[k].relativePath];
      }
    }
  }

  /** The check is by whole components: `.git/HEAD` is left out, `.gitignore` is staged. */
  lemma StagedByComponent()
    ensures !Staged(WalkEntry(".git/HEAD", true))
    ensures Staged(WalkEntry(".gitignore", true))
  {
    assert ".git/HEAD"[..4] == ".git";
    assert ".gitignore"[4] == 'i';
  }
}
