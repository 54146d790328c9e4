/**
 * The registry traversal of `wally search` (src/commands/search.rs): the
 * project's registry first, then the fallback registries each index names,
 * breadth first, each registry once, and at most `max_depth` indexes
 * loaded. Opening an index and reading its configuration is a parameter;
 * the HTTP queries that follow are not part of this model.
 */
module SearchCommand {
  import opened Wrappers
  import opened PackageSources

  /** Open a registry's index and read its fallback registries, or fail. */
  type FallbacksOf = string -> Result<seq<string>, string>

  /** `--max_depth` defaults to 255. */
  const DEFAULT_MAX_DEPTH: nat := 255

  /** The inner `for` loop: push each fallback not yet listed. */
  function AddNew(order: seq<string>, fallbacks: seq<string>): (r: seq<string>)
    ensures order <= r
    ensures Distinct(order) ==> Distinct(r)
    ensures forall x :: x in r <==> x in order || x in fallbacks
    ensures forall j :: |order| <= j < |r| ==> r[j] in fallbacks
    decreases |fallbacks|
  {
    if fallbacks == [] then order
    else
      var next := if fallbacks[0] in order then order else order + [fallbacks[0]];
      var r := AddNew(next, fallbacks[1..]);
      assert forall x :: x in fallbacks[1..] ==> x in fallbacks;
      assert forall x :: x in fallbacks ==> x == fallbacks[0] || x in fallbacks[1..];
      r
  }

  /** The `while` loop from counter `index`, yielding the registries whose indexes were loaded. */
  function Explore(order: seq<string>, index: nat, maxDepth: nat, fallbacksOf: FallbacksOf): Result<seq<string>, string>
    requires index <= |order|
    decreases maxDepth - index
  {
    if index < |order| && index < maxDepth then
      match fallbacksOf(order[index])
      case Err(e) => Err(e)
      case Ok(fallbacks) => Explore(AddNew(order, fallbacks), index + 1, maxDepth, fallbacksOf)
    else Ok(order[..index])
  }

  /** The traversal from the project's registry. */
  function Traverse(root: string, maxDepth: nat, fallbacksOf: FallbacksOf): Result<seq<string>, string>
  {
    Explore([root], 0, maxDepth, fallbacksOf)
  }

  /** What holds of `registry_order` at the head of every iteration. */
  ghost predicate Inv(root: string, order: seq<string>, index: nat, maxDepth: nat, fallbacksOf: FallbacksOf)
  {
    && |order| >= 1 && order[0] == root
    && index <= |order| && index <= maxDepth
    && Distinct(order)
    && (forall i :: 0 <= i < index ==> fallbacksOf(order[i]).Ok?)
    && (forall i, x :: 0 <= i < index && fallbacksOf(order[i]).Ok? && x in fallbacksOf(order[i]).value ==> x in order)
    && (forall j :: 0 < j < |order| ==> HasParent(order, j, index, fallbacksOf))
  }

  /** Registry `j` is named by one of the first `bound` registries listed before it. */
  ghost predicate HasParent(order: seq<string>, j: nat, bound: nat, fallbacksOf: FallbacksOf)
  {
    exists p :: 0 <= p < j && p < bound && NamedBy(order, p, j, fallbacksOf)
  }

  /** Registry `j` is among the fallbacks that registry `p` names. */
  ghost predicate NamedBy(order: seq<string>, p: nat, j: nat, fallbacksOf: FallbacksOf)
  {
    p < |order| && j < |order| && fallbacksOf(order[p]).Ok? && order[j] in fallbacksOf(order[p]).value
  }

  /** What a completed traversal has loaded. */
  ghost predicate Loaded(root: string, r: seq<string>, maxDepth: nat, fallbacksOf: FallbacksOf)
  {
    && |r| <= maxDepth
    && (maxDepth > 0 ==> |r| >= 1 && r[0] == root)
    && Distinct(r)
    && (forall i :: 0 <= i < |r| ==> fallbacksOf(r[i]).Ok?)
    && (forall j :: 0 < j < |r| ==> HasParent(r, j, j, fallbacksOf))
    && (|r| < maxDepth ==>
          forall i, x :: 0 <= i < |r| && fallbacksOf(r[i]).Ok? && x in fallbacksOf(r[i]).value ==> x in r)
  }

  /** One iteration keeps the invariant. */
  lemma InvStep(root: string, order: seq<string>, index: nat, maxDepth: nat, fallbacksOf: FallbacksOf)
    requires Inv(root, order, index, maxDepth, fallbacksOf) && index < |order| && index < maxDepth
    requires fallbacksOf(order[index]).Ok?
    ensures Inv(root, AddNew(order, fallbacksOf(order[index]).value), index + 1, maxDepth, fallbacksOf)
  {
    var fallbacks := fallbacksOf(order[index]).value;
    var next := AddNew(order, fallbacks);
    var bound := index + 1;
    assert forall i :: 0 <= i < |order| ==> next[i] == order[i];
    forall i, x | 0 <= i < bound && fallbacksOf(next[i]).Ok? && x in fallbacksOf(next[i]).value
      ensures x in next
    {
      if i < index {
        assert x in order;
      }
    }
    ParentsStep(order, index, bound, fallbacksOf);
    assert |next| >= 1 && next[0] == root;
    assert Distinct(next);
    assert forall i :: 0 <= i < bound ==> fallbacksOf(next[i]).Ok?;
  }

  lemma ParentsStep(order: seq<string>, index: nat, bound: nat, fallbacksOf: FallbacksOf)
    requires index < |order| && fallbacksOf(order[index]).Ok? && bound == index + 1
    requires forall j :: 0 < j < |order| ==> HasParent(order, j, index, fallbacksOf)
    ensures forall j :: 0 < j < |AddNew(order, fallbacksOf(order[index]).value)| ==>
      HasParent(AddNew(order, fallbacksOf(order[index]).value), j, bound, fallbacksOf)
  {
    var next := AddNew(order, fallbacksOf(order[index]).value);
    assert forall i :: 0 <= i < |order| ==> next[i] == order[i];
    forall j | 0 < j < |next| ensures HasParent(next, j, bound, fallbacksOf) {
      if j < |order| {
        assert HasParent(order, j, index, fallbacksOf);
        var p :| 0 <= p < j && p < index && NamedBy(order, p, j, fallbacksOf);
        assert NamedBy(next, p, j, fallbacksOf);
      } else {
        assert NamedBy(next, index, j, fallbacksOf);
      }
    }
  }

  /** The loop, run from any state that satisfies the invariant, loads what `Loaded` describes. */
  lemma {:induction false} ExploreLoads(root: string, order: seq<string>, index: nat, maxDepth: nat, fallbacksOf: FallbacksOf)
    requires Inv(root, order, index, maxDepth, fallbacksOf)
    ensures Explore(order, index, maxDepth, fallbacksOf).Ok? ==>
      Loaded(root, Explore(order, index, maxDepth, fallbacksOf).value, maxDepth, fallbacksOf)
    decreases maxDepth - index
  {
    if index < |order| && index < maxDepth {
      if fallbacksOf(order[index]).Ok? {
        InvStep(root, order, index, maxDepth, fallbacksOf);
        ExploreLoads(root, AddNew(order, fallbacksOf(order[index]).value), index + 1, maxDepth, fallbacksOf);
      }
    } else {
      var r := order[..index];
      assert index == |order| || index == maxDepth;
      assert forall i :: 0 <= i < |r| ==> r[i] == order[i];
      forall j | 0 < j < |r| ensures HasParent(r, j, j, fallbacksOf) {
        assert HasParent(order, j, index, fallbacksOf);
        var p :| 0 <= p < j && p < index && NamedBy(order, p, j, fallbacksOf);
        assert NamedBy(r, p, j, fallbacksOf);
      }
      if |r| < maxDepth {
        assert r == order;
      }
    }
  }

  /**
   * The traversal loads at most `max_depth` indexes, the project's
   * registry first, each registry once, each later one named as a fallback
   * by an earlier one; when it stops short of `max_depth` it has loaded
   * every registry reachable through fallbacks.
   */
  lemma TraverseLoads(root: string, maxDepth: nat, fallbacksOf: FallbacksOf)
    ensures Traverse(root, maxDepth, fallbacksOf).Ok? ==> Loaded(root, Traverse(root, maxDepth, fallbacksOf).value, maxDepth, fallbacksOf)
  {
    ExploreLoads(root, [root], 0, maxDepth, fallbacksOf);
  }

  /** A failure to open any index the loop reaches ends the search with that error. */
  lemma TraverseFailsOnRoot(root: string, maxDepth: nat, fallbacksOf: FallbacksOf)
    requires maxDepth > 0 && fallbacksOf(root).Err?
    ensures Traverse(root, maxDepth, fallbacksOf) == Err(fallbacksOf(root).error)
  {
  }

  /** With a depth of zero nothing is loaded. */
  lemma TraverseDepthZero(root: string, fallbacksOf: FallbacksOf)
    ensures Traverse(root, 0, fallbacksOf) == Ok([])
  {
  }

  /** The inner loop of `SearchSubcommand::run`: push each fallback not yet in `registry_order`. */
  method PushNew(order: seq<string>, fallbacks: seq<string>) returns (r: seq<string>)
    ensures r == AddNew(order, fallbacks)
  {
    r := order;
    for k := 0 to |fallbacks|
      invariant AddNew(r, fallbacks[k..]) == AddNew(order, fallbacks)
    {
      assert fallbacks[k..][1..] == fallbacks[k + 1..];
      if fallbacks[k] !in r {
        r := r + [fallbacks[k]];
      }
    }
    assert fallbacks[|fallbacks|..] == [];
  }

  /** Pushing registries keeps the listed prefix, one more of which is now loaded. */
  lemma PrefixKept(before: seq<string>, after: seq<string>, index: nat)
    requires index < |before| && before <= after
    ensures after[..index + 1] == before[..index] + [before[index]]
  {
  }

  /** The `while` loop of `SearchSubcommand::run` that fills `registry_indexes`. */
  method LoadRegistries(root: string, maxDepth: nat, fallbacksOf: FallbacksOf) returns (r: Result<seq<string>, string>)
    ensures r == Traverse(root, maxDepth, fallbacksOf)
  {
    var index := 0;
    var order := [root];
    var loaded := [];
    while index < |order| && index < maxDepth
      invariant index <= |order|
      invariant loaded == order[..index]
      invariant Explore(order, index, maxDepth, fallbacksOf) == Traverse(root, maxDepth, fallbacksOf)
      decreases maxDepth - index
    {
      var registry := order[index];
      var config := fallbacksOf(registry);
      if config.Err? {
        assert Explore(order, index, maxDepth, fallbacksOf) == Err(config.error);
        return Err(config.error);
      }
      loaded := loaded + [registry];
      ghost var before := order;
      order := PushNew(order, config.value);
      assert Explore(before, index, maxDepth, fallbacksOf) == Explore(order, index + 1, maxDepth, fallbacksOf);
      PrefixKept(before, order, index);
      index := index + 1;
    }
    assert Explore(order, index, maxDepth, fallbacksOf) == Ok(order[..index]);
    r := Ok(loaded);
  }
}
