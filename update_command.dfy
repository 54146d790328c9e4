/**
 * `wally update` (src/commands/update.rs): which locked packages the
 * resolver should try to keep. With no targets every locked version may
 * move; with targets, a locked id is kept unless it satisfies one of them.
 */
module UpdateCommand {
  import opened Semver
  import opened PackageNames
  import opened PackageIds
  import opened PackageReqs
  import opened CommandUtils

  /** One target against one locked id: a bare name matches every version, a requirement only its range. */
  predicate SatisfiesTarget(id: PackageId, target: PackageSpec)
  {
    match target
    case Named(n) => id.name == n
    case Required(req) => MatchesId(req, id)
  }

  /** `given_package_id_satisifies_targets`: some target is satisfied, trying them in order. */
  function SatisfiesTargets(id: PackageId, targets: seq<PackageSpec>): (r: bool)
    ensures r <==> exists i :: 0 <= i < |targets| && SatisfiesTarget(id, targets[i])
    decreases |targets|
  {
    if targets == [] then false
    else if SatisfiesTarget(id, targets[0]) then true
    else
      var rest := SatisfiesTargets(id, targets[1..]);
      assert forall i :: 1 <= i < |targets| ==> targets[i] == targets[1..][i - 1];
      rest
  }

  /** `try_to_use`: nothing when no target is given, else the locked ids that satisfy no target. */
  function TryToUse(locked: seq<PackageId>, targets: seq<PackageSpec>): (r: set<PackageId>)
    ensures targets == [] ==> r == {}
    ensures targets != [] ==> forall id :: id in r <==>
      id in locked && forall i :: 0 <= i < |targets| ==> !SatisfiesTarget(id, targets[i])
  {
    if targets == [] then {} else set id | id in locked && !SatisfiesTargets(id, targets)
  }

  /** Only locked ids are kept. */
  lemma TryToUseLocked(locked: seq<PackageId>, targets: seq<PackageSpec>, id: PackageId)
    requires id in TryToUse(locked, targets)
    ensures id in locked && targets != []
  {
  }

  /** A bare-name target frees every locked version of that package. */
  lemma NamedTargetFrees(locked: seq<PackageId>, targets: seq<PackageSpec>, i: nat, id: PackageId)
    requires i < |targets| && targets[i].Named? && id.name == targets[i].named
    ensures id !in TryToUse(locked, targets)
  {
    assert SatisfiesTarget(id, targets[i]);
  }

  /**
   * A requirement frees only the locked versions in its range: a locked
   * version of another package, or of the same package outside the range,
   * is kept when no other target reaches it.
   */
  lemma RequiredTargetKeepsOthers(locked: seq<PackageId>, req: PackageReq, id: PackageId)
    requires id in locked
    ensures id in TryToUse(locked, [Required(req)]) <==> !MatchesId(req, id)
  {
    assert SatisfiesTargets(id, [Required(req)]) == SatisfiesTarget(id, Required(req));
  }

  /** Naming more targets keeps fewer locked versions. */
  lemma TryToUseShrinks(locked: seq<PackageId>, targets: seq<PackageSpec>, more: seq<PackageSpec>)
    requires targets != []
    ensures TryToUse(locked, targets + more) <= TryToUse(locked, targets)
  {
    forall id | id in TryToUse(locked, targets + more) ensures id in TryToUse(locked, targets) {
      forall i | 0 <= i < |targets| ensures !SatisfiesTarget(id, targets[i]) {
        assert (targets + more)[i] == targets[i];
      }
    }
  }

  /** The distinct elements of a sequence are no more than its length. */
  lemma {:induction false} DistinctAtMostLength<T>(s: seq<T>, r: set<T>)
    requires forall x :: x in r ==> x in s
    ensures |r| <= |s|
    decreases |s|
  {
    if s != [] {
      var rest := r - {s[0]};
      forall x | x in rest ensures x in s[1..] {
        var i :| 0 <= i < |s| && s[i] == x;
        assert i != 0;
        assert s[1..][i - 1] == x;
      }
      DistinctAtMostLength(s[1..], rest);
    }
  }

  /**
   * The "Selected N dependencies to try update" count,
   * `lockfile.packages.len() - try_to_use.len()`, never goes below zero.
   */
  lemma SelectedCountNatural(locked: seq<PackageId>, targets: seq<PackageSpec>)
    ensures |TryToUse(locked, targets)| <= |locked|
  {
    DistinctAtMostLength(locked, TryToUse(locked, targets));
  }
}
