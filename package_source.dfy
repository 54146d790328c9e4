/**
 * The registries packages are fetched from, in priority order
 * (src/package_source.rs).
 */
module PackageSources {
  import opened Wrappers
  import opened PackageIds
  import opened PackageReqs
  import opened Manifests
  import opened PackageContentsModel

  datatype PackageSourceId = DefaultRegistry | Git(url: string) | PathSource(path: string)

  /**
   * What a `PackageSource` answers: `update`, `query`, `download_package`
   * and `fallback_sources`, each with its possible failure.
   */
  datatype PackageSource = PackageSource(
    update: Result<(), string>,
    query: PackageReq -> Result<seq<Manifest>, string>,
    download: PackageId -> Result<PackageContents, string>,
    fallbacks: Result<seq<PackageSourceId>, string>)

  predicate Distinct<T(==)>(s: seq<T>)
  {
    forall i, j :: 0 <= i < j < |s| ==> s[i] != s[j]
  }

  /** The fallbacks a source names, or none when it cannot list them. */
  function FallbackList(s: PackageSource): seq<PackageSourceId>
  {
    if s.fallbacks.Ok? then s.fallbacks.value else []
  }

  /**
   * The first source in `order` whose query succeeds, with its answer
   * (the `find_map` over `source_order` in the resolver).
   */
  function FirstAnswer(order: seq<PackageSourceId>, sources: map<PackageSourceId, PackageSource>, req: PackageReq)
    : (r: Option<(PackageSourceId, seq<Manifest>)>)
    requires forall i :: 0 <= i < |order| ==> order[i] in sources
    ensures r.None? <==> forall i :: 0 <= i < |order| ==> sources[order[i]].query(req).Err?
    ensures r.Some? ==> exists i :: 0 <= i < |order| && order[i] == r.value.0
                                && sources[order[i]].query(req) == Ok(r.value.1)
                                && forall k :: 0 <= k < i ==> sources[order[k]].query(req).Err?
  {
    if order == [] then None
    else
      match sources[order[0]].query(req)
      case Ok(manifests) => Some((order[0], manifests))
      case Err(_) =>
        var rest := FirstAnswer(order[1..], sources, req);
        assert forall i :: 1 <= i < |order| ==> order[i] == order[1..][i - 1];
        rest
  }

  /** The default registry comes first, no source is listed twice, and the map holds exactly the listed sources. */
  ghost predicate WellFormed(order: seq<PackageSourceId>, sources: map<PackageSourceId, PackageSource>)
  {
    && |order| >= 1
    && order[0] == DefaultRegistry
    && Distinct(order)
    && (forall i :: 0 <= i < |order| ==> order[i] in sources)
    && (forall id :: id in sources ==> id in order)
  }

  /**
   * Every source that can ever be reached names fallbacks inside
   * `universe`: the registered ones, and those `openGit`/`openPath`
   * would build for an id of `universe`.
   */
  ghost predicate BoundedIn(
    order: seq<PackageSourceId>, sources: map<PackageSourceId, PackageSource>,
    universe: set<PackageSourceId>,
    openGit: string -> Result<PackageSource, string>,
    openPath: string -> PackageSource)
  {
    && (forall i :: 0 <= i < |order| ==> order[i] in universe)
    && (forall id, f :: id in sources && f in FallbackList(sources[id]) ==> f in universe)
    && (forall u, f :: Git(u) in universe && openGit(u).Ok? && f in FallbackList(openGit(u).value) ==> f in universe)
    && (forall p, f :: PathSource(p) in universe && f in FallbackList(openPath(p)) ==> f in universe)
  }

  /** `source` is what `add_fallbacks` builds for the id `id`. */
  ghost predicate Opened(
    id: PackageSourceId, source: PackageSource,
    openGit: string -> Result<PackageSource, string>,
    openPath: string -> PackageSource)
  {
    match id
    case DefaultRegistry => false
    case Git(url) => openGit(url) == Ok(source)
    case PathSource(path) => openPath(path) == source
  }

  /** The order only grew from `start`: earlier sources are untouched, and each new one is what its id opens to. */
  ghost predicate GrownIn(
    order: seq<PackageSourceId>, sources: map<PackageSourceId, PackageSource>,
    start: seq<PackageSourceId>, startSources: map<PackageSourceId, PackageSource>,
    openGit: string -> Result<PackageSource, string>, openPath: string -> PackageSource)
  {
    && start <= order
    && (forall id :: id in startSources ==> id in sources && sources[id] == startSources[id])
    && (forall j :: |start| <= j < |order| ==> order[j] in sources && Opened(order[j], sources[order[j]], openGit, openPath))
  }

  /** The first `count` sources of `order` listed their fallbacks, and all of those are in `order`. */
  ghost predicate ExploredIn(order: seq<PackageSourceId>, sources: map<PackageSourceId, PackageSource>, count: nat)
  {
    && count <= |order|
    && (forall i :: 0 <= i < count ==> order[i] in sources && sources[order[i]].fallbacks.Ok?)
    && (forall i, f :: 0 <= i < count && order[i] in sources && f in FallbackList(sources[order[i]]) ==> f in order)
  }

  /**
   * Breadth-first discovery: the `k`th source appended after `start` was
   * named by the source at `parent[k]` (at most `bound`), by none before
   * it, and parents never go back.
   */
  ghost predicate DiscoveredIn(
    order: seq<PackageSourceId>, sources: map<PackageSourceId, PackageSource>,
    start: seq<PackageSourceId>, parent: seq<nat>, bound: nat)
  {
    && |start| + |parent| == |order|
    && ParentsBefore(order, sources, start, parent, bound)
    && NamedByParent(order, sources, start, parent)
    && NotNamedEarlier(order, sources, start, parent)
    && ParentsInOrder(parent)
  }

  ghost predicate ParentsBefore(
    order: seq<PackageSourceId>, sources: map<PackageSourceId, PackageSource>,
    start: seq<PackageSourceId>, parent: seq<nat>, bound: nat)
  {
    forall k :: 0 <= k < |parent| ==> parent[k] < |start| + k && parent[k] <= bound && parent[k] < |order| && order[parent[k]] in sources
  }

  ghost predicate NamedByParent(
    order: seq<PackageSourceId>, sources: map<PackageSourceId, PackageSource>,
    start: seq<PackageSourceId>, parent: seq<nat>)
  {
    forall k :: 0 <= k < |parent| && |start| + k < |order| && parent[k] < |order| && order[parent[k]] in sources ==>
      order[|start| + k] in FallbackList(sources[order[parent[k]]])
  }

  ghost predicate NotNamedEarlier(
    order: seq<PackageSourceId>, sources: map<PackageSourceId, PackageSource>,
    start: seq<PackageSourceId>, parent: seq<nat>)
  {
    forall k, i :: 0 <= k < |parent| && |start| + k < |order| && 0 <= i < parent[k] && i < |order| && order[i] in sources ==>
      order[|start| + k] !in FallbackList(sources[order[i]])
  }

  ghost predicate ParentsInOrder(parent: seq<nat>)
  {
    forall k, l :: 0 <= k < l < |parent| ==> parent[k] <= parent[l]
  }

  /** The state of `add_fallbacks` before it visits the source at `index`. */
  ghost predicate Progress(
    order: seq<PackageSourceId>, sources: map<PackageSourceId, PackageSource>, index: nat,
    universe: set<PackageSourceId>,
    openGit: string -> Result<PackageSource, string>, openPath: string -> PackageSource,
    start: seq<PackageSourceId>, startSources: map<PackageSourceId, PackageSource>, parent: seq<nat>)
  {
    && WellFormed(order, sources)
    && BoundedIn(order, sources, universe, openGit, openPath)
    && GrownIn(order, sources, start, startSources, openGit, openPath)
    && ExploredIn(order, sources, index)
    && DiscoveredIn(order, sources, start, parent, index)
  }

  ghost function ListedIn(order: seq<PackageSourceId>): set<PackageSourceId>
  {
    set x | x in order
  }

  /** The search made progress: `after` lists something of `universe` that `before` did not, or nothing changed. */
  ghost predicate ShrankOrSame(universe: set<PackageSourceId>, before: seq<PackageSourceId>, after: seq<PackageSourceId>)
  {
    ListedIn(before) <= ListedIn(after)
    && (after == before || |universe - ListedIn(after)| < |universe - ListedIn(before)|)
  }

  lemma ShrankTrans(universe: set<PackageSourceId>, a: seq<PackageSourceId>, b: seq<PackageSourceId>, c: seq<PackageSourceId>)
    requires ShrankOrSame(universe, a, b) && ShrankOrSame(universe, b, c)
    ensures ShrankOrSame(universe, a, c)
  {
    assert universe - ListedIn(c) <= universe - ListedIn(b);
  }

  /**
   * Appending a fallback named first by the source at `index`, built the
   * way `add_fallbacks` builds it, keeps the search state and shrinks
   * what is left to discover.
   */
  lemma AppendKeepsProgress(
    order: seq<PackageSourceId>, sources: map<PackageSourceId, PackageSource>, index: nat,
    universe: set<PackageSourceId>,
    openGit: string -> Result<PackageSource, string>, openPath: string -> PackageSource,
    start: seq<PackageSourceId>, startSources: map<PackageSourceId, PackageSource>, parent: seq<nat>,
    fallback: PackageSourceId, source: PackageSource)
    requires Progress(order, sources, index, universe, openGit, openPath, start, startSources, parent)
    requires index < |order| && fallback in FallbackList(sources[order[index]])
    requires fallback !in order && Opened(fallback, source, openGit, openPath)
    ensures Progress(order + [fallback], sources[fallback := source], index, universe, openGit, openPath,
                     start, startSources, parent + [index])
    ensures ShrankOrSame(universe, order, order + [fallback]) && order + [fallback] != order
  {
    assert fallback !in sources;
    assert forall i :: 0 <= i < index ==> fallback !in FallbackList(sources[order[i]]);
    DiscoveredExtend(order, sources, start, parent, index, fallback, source);
    ExploredExtend(order, sources, index, fallback, source);
    WellFormedExtend(order, sources, fallback, source);
    BoundedExtend(order, sources, index, universe, openGit, openPath, fallback, source);
    GrownExtend(order, sources, start, startSources, openGit, openPath, fallback, source);
    ListedExtend(universe, order, fallback);
  }

  lemma WellFormedExtend(
    order: seq<PackageSourceId>, sources: map<PackageSourceId, PackageSource>,
    fallback: PackageSourceId, source: PackageSource)
    requires WellFormed(order, sources) && fallback !in order
    ensures WellFormed(order + [fallback], sources[fallback := source])
  {
    var order' := order + [fallback];
    assert forall i :: 0 <= i < |order| ==> order'[i] == order[i];
  }

  lemma BoundedExtend(
    order: seq<PackageSourceId>, sources: map<PackageSourceId, PackageSource>, index: nat,
    universe: set<PackageSourceId>,
    openGit: string -> Result<PackageSource, string>, openPath: string -> PackageSource,
    fallback: PackageSourceId, source: PackageSource)
    requires BoundedIn(order, sources, universe, openGit, openPath)
    requires index < |order| && order[index] in sources && fallback in FallbackList(sources[order[index]])
    requires Opened(fallback, source, openGit, openPath)
    ensures BoundedIn(order + [fallback], sources[fallback := source], universe, openGit, openPath)
  {
    var order', sources' := order + [fallback], sources[fallback := source];
    assert fallback in universe;
    assert forall i :: 0 <= i < |order| ==> order'[i] == order[i];
    assert forall f :: f in FallbackList(source) ==> f in universe;
  }

  lemma GrownExtend(
    order: seq<PackageSourceId>, sources: map<PackageSourceId, PackageSource>,
    start: seq<PackageSourceId>, startSources: map<PackageSourceId, PackageSource>,
    openGit: string -> Result<PackageSource, string>, openPath: string -> PackageSource,
    fallback: PackageSourceId, source: PackageSource)
    requires GrownIn(order, sources, start, startSources, openGit, openPath)
    requires fallback !in sources && Opened(fallback, source, openGit, openPath)
    ensures GrownIn(order + [fallback], sources[fallback := source], start, startSources, openGit, openPath)
  {
    var order' := order + [fallback];
    assert forall i :: 0 <= i < |order| ==> order'[i] == order[i];
  }

  lemma ListedExtend(universe: set<PackageSourceId>, order: seq<PackageSourceId>, fallback: PackageSourceId)
    requires fallback in universe && fallback !in order
    ensures ShrankOrSame(universe, order, order + [fallback]) && order + [fallback] != order
  {
    assert ListedIn(order + [fallback]) == ListedIn(order) + {fallback};
    assert universe - ListedIn(order + [fallback]) == (universe - ListedIn(order)) - {fallback};
  }

  /** Appending a fallback first named by the source at `index` keeps the discovery record. */
  lemma DiscoveredExtend(
    order: seq<PackageSourceId>, sources: map<PackageSourceId, PackageSource>,
    start: seq<PackageSourceId>, parent: seq<nat>, index: nat,
    fallback: PackageSourceId, source: PackageSource)
    requires DiscoveredIn(order, sources, start, parent, index)
    requires forall i :: 0 <= i < |order| ==> order[i] in sources
    requires fallback !in sources && index < |order|
    requires fallback in FallbackList(sources[order[index]])
    requires forall i :: 0 <= i < index ==> fallback !in FallbackList(sources[order[i]])
    ensures DiscoveredIn(order + [fallback], sources[fallback := source], start, parent + [index], index)
  {
    var order', sources', parent' := order + [fallback], sources[fallback := source], parent + [index];
    assert forall i :: 0 <= i < |order| ==> order'[i] == order[i] && sources'[order[i]] == sources[order[i]];
    assert order'[|start| + |parent|] == fallback;
    ParentsBeforeExtend(order, sources, start, parent, index, fallback, source);
    NamedByParentExtend(order, sources, start, parent, index, fallback, source);
    NotNamedEarlierExtend(order, sources, start, parent, index, fallback, source);
    assert ParentsInOrder(parent');
  }

  lemma ParentsBeforeExtend(
    order: seq<PackageSourceId>, sources: map<PackageSourceId, PackageSource>,
    start: seq<PackageSourceId>, parent: seq<nat>, index: nat,
    fallback: PackageSourceId, source: PackageSource)
    requires ParentsBefore(order, sources, start, parent, index) && |start| + |parent| == |order|
    requires index < |order| && order[index] in sources && fallback !in sources
    ensures ParentsBefore(order + [fallback], sources[fallback := source], start, parent + [index], index)
  {
    var order' := order + [fallback];
    assert forall i :: 0 <= i < |order| ==> order'[i] == order[i];
  }

  lemma NamedByParentExtend(
    order: seq<PackageSourceId>, sources: map<PackageSourceId, PackageSource>,
    start: seq<PackageSourceId>, parent: seq<nat>, index: nat,
    fallback: PackageSourceId, source: PackageSource)
    requires NamedByParent(order, sources, start, parent) && ParentsBefore(order, sources, start, parent, index)
    requires |start| + |parent| == |order|
    requires index < |order| && order[index] in sources && fallback !in sources
    requires fallback in FallbackList(sources[order[index]])
    ensures NamedByParent(order + [fallback], sources[fallback := source], start, parent + [index])
  {
    var order', sources', parent' := order + [fallback], sources[fallback := source], parent + [index];
    forall k | 0 <= k < |parent'| && |start| + k < |order'| && parent'[k] < |order'| && order'[parent'[k]] in sources'
      ensures order'[|start| + k] in FallbackList(sources'[order'[parent'[k]]])
    {
      if k < |parent| {
        assert parent'[k] == parent[k] && order'[|start| + k] == order[|start| + k];
        assert order'[parent[k]] == order[parent[k]];
      }
    }
  }

  lemma NotNamedEarlierExtend(
    order: seq<PackageSourceId>, sources: map<PackageSourceId, PackageSource>,
    start: seq<PackageSourceId>, parent: seq<nat>, index: nat,
    fallback: PackageSourceId, source: PackageSource)
    requires NotNamedEarlier(order, sources, start, parent) && ParentsBefore(order, sources, start, parent, index)
    requires |start| + |parent| == |order|
    requires index < |order| && fallback !in sources
    requires forall i :: 0 <= i < index ==> order[i] in sources && fallback !in FallbackList(sources[order[i]])
    ensures NotNamedEarlier(order + [fallback], sources[fallback := source], start, parent + [index])
  {
    var order', sources', parent' := order + [fallback], sources[fallback := source], parent + [index];
    forall k, i | 0 <= k < |parent'| && |start| + k < |order'| && 0 <= i < parent'[k] && i < |order'| && order'[i] in sources'
      ensures order'[|start| + k] !in FallbackList(sources'[order'[i]])
    {
      if k < |parent| {
        assert i < parent[k] < |start| + k;
        assert order'[i] == order[i];
        assert parent'[k] == parent[k] && order'[|start| + k] == order[|start| + k];
      }
    }
  }

  /** Appending a source not named by any explored one keeps them explored. */
  lemma ExploredExtend(
    order: seq<PackageSourceId>, sources: map<PackageSourceId, PackageSource>, count: nat,
    fallback: PackageSourceId, source: PackageSource)
    requires ExploredIn(order, sources, count) && fallback !in sources
    ensures ExploredIn(order + [fallback], sources[fallback := source], count)
  {
    var order', sources' := order + [fallback], sources[fallback := source];
    assert forall i :: 0 <= i < count ==> order'[i] == order[i] && sources'[order[i]] == sources[order[i]];
  }

  /** Once every fallback of the source at `index` is listed, that source counts as explored. */
  lemma VisitedKeepsProgress(
    order: seq<PackageSourceId>, sources: map<PackageSourceId, PackageSource>, index: nat,
    universe: set<PackageSourceId>,
    openGit: string -> Result<PackageSource, string>, openPath: string -> PackageSource,
    start: seq<PackageSourceId>, startSources: map<PackageSourceId, PackageSource>, parent: seq<nat>)
    requires Progress(order, sources, index, universe, openGit, openPath, start, startSources, parent)
    requires index < |order| && sources[order[index]].fallbacks.Ok?
    requires forall f :: f in FallbackList(sources[order[index]]) ==> f in order
    ensures Progress(order, sources, index + 1, universe, openGit, openPath, start, startSources, parent)
  {
  }

  /**
   * The body of the `for` loop of `add_fallbacks` for one `fallback` named
   * by the source at `index`: a fallback already listed is skipped; a new
   * one is opened (`openGit` may fail) and appended.
   */
  method ConsiderFallback(
    order: seq<PackageSourceId>, sources: map<PackageSourceId, PackageSource>, index: nat,
    fallback: PackageSourceId,
    ghost universe: set<PackageSourceId>,
    openGit: string -> Result<PackageSource, string>, openPath: string -> PackageSource,
    ghost start: seq<PackageSourceId>, ghost startSources: map<PackageSourceId, PackageSource>,
    ghost parent: seq<nat>)
    returns (r: Result<(), string>, order': seq<PackageSourceId>, sources': map<PackageSourceId, PackageSource>,
             ghost parent': seq<nat>)
    requires Progress(order, sources, index, universe, openGit, openPath, start, startSources, parent)
    requires index < |order| && fallback in FallbackList(sources[order[index]])
    ensures Progress(order', sources', index, universe, openGit, openPath, start, startSources, parent')
    ensures order <= order' && ShrankOrSame(universe, order, order')
    ensures index < |order'| && order'[index] == order[index]
    ensures forall x :: x in order ==> x in order'
    ensures forall id :: id in sources ==> id in sources' && sources'[id] == sources[id]
    ensures fallback in order ==> r.Ok? && order' == order && sources' == sources
    ensures r.Ok? ==> fallback in order'
    ensures r.Ok? && fallback !in order ==> order' == order + [fallback] && Opened(fallback, sources'[fallback], openGit, openPath)
    ensures r.Err? ==> exists u :: fallback == Git(u) && openGit(u).Err?
  {
    order', sources', parent' := order, sources, parent;
    if fallback in order {
      return Ok(()), order', sources', parent';
    }
    var source: PackageSource;
    match fallback {
      case DefaultRegistry =>
        // `order[0]` is the default registry, so it is never a new fallback.
        assert false;
      case Git(url) =>
        var built := openGit(url);
        if built.Err? {
          return Err(built.error), order', sources', parent';
        }
        source := built.value;
      case PathSource(path) =>
        source := openPath(path);
    }
    AppendKeepsProgress(order, sources, index, universe, openGit, openPath, start, startSources, parent, fallback, source);
    order', sources', parent' := order + [fallback], sources[fallback := source], parent + [index];
    r := Ok(());
  }

  /** One iteration of the `while` loop of `add_fallbacks`: list the new fallbacks of the source at `index`. */
  method VisitSource(
    order: seq<PackageSourceId>, sources: map<PackageSourceId, PackageSource>, index: nat,
    ghost universe: set<PackageSourceId>,
    openGit: string -> Result<PackageSource, string>, openPath: string -> PackageSource,
    ghost start: seq<PackageSourceId>, ghost startSources: map<PackageSourceId, PackageSource>,
    ghost parent: seq<nat>)
    returns (r: Result<(), string>, order': seq<PackageSourceId>, sources': map<PackageSourceId, PackageSource>,
             ghost parent': seq<nat>)
    requires Progress(order, sources, index, universe, openGit, openPath, start, startSources, parent)
    requires index < |order|
    ensures Progress(order', sources', index, universe, openGit, openPath, start, startSources, parent')
    ensures ShrankOrSame(universe, order, order')
    ensures sources[order[index]].fallbacks.Err? ==> r.Err? && order' == order
    ensures r.Ok? ==> Progress(order', sources', index + 1, universe, openGit, openPath, start, startSources, parent')
  {
    var current := sources[order[index]];
    if current.fallbacks.Err? {
      return Err(current.fallbacks.error), order, sources, parent;
    }
    r, order', sources', parent' := AddNamed(order, sources, index, current.fallbacks.value, universe, openGit, openPath, start, startSources, parent);
    if r.Ok? {
      VisitedKeepsProgress(order', sources', index, universe, openGit, openPath, start, startSources, parent');
    }
  }

  /** The `for` loop of `add_fallbacks` over the fallbacks `found` of the source at `index`. */
  method AddNamed(
    order: seq<PackageSourceId>, sources: map<PackageSourceId, PackageSource>, index: nat,
    found: seq<PackageSourceId>,
    ghost universe: set<PackageSourceId>,
    openGit: string -> Result<PackageSource, string>, openPath: string -> PackageSource,
    ghost start: seq<PackageSourceId>, ghost startSources: map<PackageSourceId, PackageSource>,
    ghost parent: seq<nat>)
    returns (r: Result<(), string>, order': seq<PackageSourceId>, sources': map<PackageSourceId, PackageSource>,
             ghost parent': seq<nat>)
    requires Progress(order, sources, index, universe, openGit, openPath, start, startSources, parent)
    requires index < |order| && sources[order[index]].fallbacks == Ok(found)
    ensures Progress(order', sources', index, universe, openGit, openPath, start, startSources, parent')
    ensures ShrankOrSame(universe, order, order')
    ensures index < |order'| && order'[index] == order[index]
    ensures order[index] in sources' && sources'[order[index]] == sources[order[index]]
    ensures r.Ok? ==> forall f :: f in found ==> f in order'
  {
    order', sources', parent' := order, sources, parent;
    for j := 0 to |found|
      invariant Progress(order', sources', index, universe, openGit, openPath, start, startSources, parent')
      invariant ShrankOrSame(universe, order, order')
      invariant Extends(order, sources, order', sources')
      invariant AllListed(found, j, order')
    {
      var step;
      ghost var (prev, prevSources) := (order', sources');
      step, order', sources', parent' := ConsiderFallback(order', sources', index, found[j], universe, openGit, openPath, start, startSources, parent');
      ShrankTrans(universe, order, prev, order');
      ExtendsTrans(order, sources, prev, prevSources, order', sources');
      if step.Err? {
        return step, order', sources', parent';
      }
      AllListedStep(found, j, prev, order');
    }
    r := Ok(());
  }

  /** The listing only grows, and the sources already opened stay as they were. */
  ghost predicate Extends(order: seq<PackageSourceId>, sources: map<PackageSourceId, PackageSource>,
                          order': seq<PackageSourceId>, sources': map<PackageSourceId, PackageSource>)
  {
    order <= order' && forall id :: id in sources ==> id in sources' && sources'[id] == sources[id]
  }

  lemma ExtendsTrans(a: seq<PackageSourceId>, sa: map<PackageSourceId, PackageSource>,
                     b: seq<PackageSourceId>, sb: map<PackageSourceId, PackageSource>,
                     c: seq<PackageSourceId>, sc: map<PackageSourceId, PackageSource>)
    requires Extends(a, sa, b, sb)
    requires b <= c && forall id :: id in sb ==> id in sc && sc[id] == sb[id]
    ensures Extends(a, sa, c, sc)
  {
  }

  /** The first `j` fallbacks are listed. */
  ghost predicate AllListed(found: seq<PackageSourceId>, j: nat, order: seq<PackageSourceId>)
  {
    j <= |found| && forall k :: 0 <= k < j ==> found[k] in order
  }

  lemma AllListedStep(found: seq<PackageSourceId>, j: nat, prev: seq<PackageSourceId>, order: seq<PackageSourceId>)
    requires AllListed(found, j, prev) && j < |found| && prev <= order && found[j] in order
    ensures AllListed(found, j + 1, order)
  {
    forall k | 0 <= k < j + 1 ensures found[k] in order {
      if k < j {
        assert found[k] in prev;
      }
    }
  }

  /** `PackageSourceMap`: the registered sources and the order they are consulted in. */
  class PackageSourceMap {
    var sources: map<PackageSourceId, PackageSource>
    var sourceOrder: seq<PackageSourceId>

    ghost predicate Valid()
      reads this
    {
      WellFormed(sourceOrder, sources)
    }

    /** `PackageSourceMap::new`. */
    constructor(defaultRegistry: PackageSource)
      ensures Valid()
      ensures sourceOrder == [DefaultRegistry]
      ensures sources.Keys == {DefaultRegistry} && sources[DefaultRegistry] == defaultRegistry
    {
      sources := map[DefaultRegistry := defaultRegistry];
      sourceOrder := [DefaultRegistry];
    }

    /** `get`: the registered source, or None. */
    function Get(id: PackageSourceId): (r: Option<PackageSource>)
      reads this
      ensures r.Some? <==> id in sources
      ensures r.Some? ==> r == Some(sources[id])
    {
      if id in sources then Some(sources[id]) else None
    }

    /**
     * `add_fallbacks`: visit the sources in order, appending every fallback
     * not listed yet, until every listed source has been visited (a
     * breadth-first search). `openGit` stands for
     * `Registry::from_registry_spec`, `openPath` for `TestRegistry::new`;
     * `universe` bounds every id they can name, which is what makes the
     * search end. On success every listed source has been explored, and
     * `parent[k]` is the position of the source that first named the `k`th
     * new source. On failure what was appended so far stays appended.
     */
    method AddFallbacks(
      openGit: string -> Result<PackageSource, string>,
      openPath: string -> PackageSource,
      ghost universe: set<PackageSourceId>)
      returns (r: Result<(), string>, ghost parent: seq<nat>)
      requires Valid() && BoundedIn(sourceOrder, sources, universe, openGit, openPath)
      modifies this
      ensures Valid()
      ensures GrownIn(sourceOrder, sources, old(sourceOrder), old(sources), openGit, openPath)
      ensures r.Ok? ==> ExploredIn(sourceOrder, sources, |sourceOrder|)
      ensures r.Ok? ==> DiscoveredIn(sourceOrder, sources, old(sourceOrder), parent, |sourceOrder|)
    {
      var order, table;
      r, order, table, parent := Search(sourceOrder, sources, openGit, openPath, universe);
      sourceOrder, sources := order, table;
    }
  }

  /** The loop of `add_fallbacks` on the order and the table it grows. */
  method Search(
    order: seq<PackageSourceId>, sources: map<PackageSourceId, PackageSource>,
    openGit: string -> Result<PackageSource, string>,
    openPath: string -> PackageSource,
    ghost universe: set<PackageSourceId>)
    returns (r: Result<(), string>, order': seq<PackageSourceId>, sources': map<PackageSourceId, PackageSource>,
             ghost parent: seq<nat>)
    requires WellFormed(order, sources) && BoundedIn(order, sources, universe, openGit, openPath)
    ensures WellFormed(order', sources')
    ensures GrownIn(order', sources', order, sources, openGit, openPath)
    ensures r.Ok? ==> ExploredIn(order', sources', |order'|)
    ensures r.Ok? ==> DiscoveredIn(order', sources', order, parent, |order'|)
  {
    order', sources', parent := order, sources, [];
    var index := 0;
    while index < |order'|
      invariant Progress(order', sources', index, universe, openGit, openPath, order, sources, parent)
      decreases |universe - ListedIn(order')|, |order'| - index
    {
      var visited;
      visited, order', sources', parent := VisitSource(order', sources', index, universe, openGit, openPath, order, sources, parent);
      if visited.Err? {
        return visited, order', sources', parent;
      }
      index := index + 1;
    }
    DiscoveredWeaken(order', sources', order, parent, index, |order'|);
    r := Ok(());
  }

  /** A discovery record bounded by `a` is bounded by any larger `b`. */
  lemma DiscoveredWeaken(
    order: seq<PackageSourceId>, sources: map<PackageSourceId, PackageSource>,
    start: seq<PackageSourceId>, parent: seq<nat>, a: nat, b: nat)
    requires DiscoveredIn(order, sources, start, parent, a) && a <= b
    ensures DiscoveredIn(order, sources, start, parent, b)
  {
  }
}
