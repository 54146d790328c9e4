/**
 * The dependency resolver (src/resolution.rs): a work queue of dependency
 * requests, each answered by reusing an activated package or by
 * activating the best candidate of the first source that answers.
 */
module Resolution {
  import opened Wrappers
  import opened Sorting
  import opened BTreeMaps
  import opened Semver
  import opened PackageNames
  import opened PackageIds
  import opened PackageReqs
  import opened Manifests
  import opened PackageSources
  import opened ResolutionRules
  import InMemory

  /** One dependency graph: source package -> alias -> chosen package. */
  type Graph = map<PackageId, map<string, PackageId>>

  /** Why `resolve` gave up on a request. */
  datatype ResolveError =
    | NoSource(req: PackageReq)
    | NoMatch(realm: Realm, req: PackageReq)
    | Conflict(req: PackageReq, realm: Realm, conflicting: seq<PackageId>)

  /** `dependencies.insert(dep_name, dep)` on the `source` entry, created empty when missing. */
  function AddEdge(g: Graph, source: PackageId, alias: string, dep: PackageId): (r: Graph)
    ensures r.Keys == g.Keys + {source}
    ensures source in r && alias in r[source] && r[source][alias] == dep
    ensures source in g ==> r[source].Keys == g[source].Keys + {alias}
    ensures forall s, a :: s in g && a in g[s] && (s, a) != (source, alias) ==> s in r && a in r[s] && r[s][a] == g[s][a]
  {
    g[source := (if source in g then g[source] else map[])[alias := dep]]
  }

  /** Every edge of `g` leaves from and points to a package of `ids`. */
  ghost predicate EdgesWithin(g: Graph, ids: set<PackageId>)
  {
    forall s :: s in g ==> s in ids && forall a :: a in g[s] ==> g[s][a] in ids
  }

  lemma AddEdgeWithin(g: Graph, ids: set<PackageId>, source: PackageId, alias: string, dep: PackageId)
    requires EdgesWithin(g, ids) && source in ids && dep in ids
    ensures EdgesWithin(AddEdge(g, source, alias, dep), ids)
  {
  }

  lemma EdgesWithinGrow(g: Graph, ids: set<PackageId>, more: set<PackageId>)
    requires EdgesWithin(g, ids) && ids <= more
    ensures EdgesWithin(g, more)
  {
  }

  /** The graph `g` of realm `which` after an edge was added to the graph of `target`. */
  function WithEdge(g: Graph, which: Realm, target: Realm, source: PackageId, alias: string, dep: PackageId): Graph
  {
    if which == target then AddEdge(g, source, alias, dep) else g
  }

  /** No two activated packages of one name have compatible versions. */
  ghost predicate NoCompatibleDuplicates(ids: set<PackageId>)
  {
    forall a, b :: a in ids && b in ids && a != b && a.name == b.name ==> !Compatible(a.version, b.version)
  }

  /**
   * The state `resolve` keeps between requests: the activated set is the
   * key set of the metadata, duplicates are never compatible, every
   * package came from a listed source, and every edge joins activated
   * packages.
   */
  ghost predicate Consistent(
    activated: set<PackageId>, metadata: map<PackageId, ResolvePackageMetadata>,
    shared: Graph, server: Graph, dev: Graph, order: seq<PackageSourceId>)
  {
    && activated == metadata.Keys
    && NoCompatibleDuplicates(activated)
    && (forall id :: id in metadata ==> metadata[id].sourceRegistry in order)
    && EdgesWithin(shared, activated)
    && EdgesWithin(server, activated)
    && EdgesWithin(dev, activated)
  }

  /** Adding an edge between activated packages keeps the state consistent. */
  lemma ConsistentAddEdge(
    a: set<PackageId>, m: map<PackageId, ResolvePackageMetadata>, sh: Graph, se: Graph, de: Graph,
    order: seq<PackageSourceId>, realm: Realm, source: PackageId, alias: string, dep: PackageId)
    requires Consistent(a, m, sh, se, de, order) && source in a && dep in a
    ensures Consistent(a, m, WithEdge(sh, Shared, realm, source, alias, dep), WithEdge(se, Server, realm, source, alias, dep),
                       WithEdge(de, Dev, realm, source, alias, dep), order)
  {
    AddEdgeWithin(sh, a, source, alias, dep);
    AddEdgeWithin(se, a, source, alias, dep);
    AddEdgeWithin(de, a, source, alias, dep);
  }

  /** Activating a package compatible with no activated one of its name keeps the state consistent. */
  lemma ConsistentActivate(
    a: set<PackageId>, m: map<PackageId, ResolvePackageMetadata>, sh: Graph, se: Graph, de: Graph,
    order: seq<PackageSourceId>, dep: PackageId, meta: ResolvePackageMetadata)
    requires Consistent(a, m, sh, se, de, order) && meta.sourceRegistry in order
    requires forall x :: x in a && x.name == dep.name ==> !Compatible(dep.version, x.version)
    ensures dep !in a
    ensures Consistent(a + {dep}, m[dep := meta], sh, se, de, order)
  {
    assert Compatible(dep.version, dep.version);
    EdgesWithinGrow(sh, a, a + {dep});
    EdgesWithinGrow(se, a, a + {dep});
    EdgesWithinGrow(de, a, a + {dep});
  }

  /** `g` records a dependency of `s` under `alias`. */
  ghost predicate HasEdge(g: Graph, s: PackageId, alias: string)
  {
    s in g && alias in g[s]
  }

  /** Some realm's graph records the dependency `r` asks for, under its source and alias. */
  ghost predicate Answered(sh: Graph, se: Graph, de: Graph, r: DependencyRequest)
  {
    HasEdge(sh, r.requestSource, r.packageAlias) || HasEdge(se, r.requestSource, r.packageAlias)
      || HasEdge(de, r.requestSource, r.packageAlias)
  }

  /** Every edge of `g` points to a package that a served request of that source and alias accepts. */
  ghost predicate EdgesJustified(g: Graph, served: set<DependencyRequest>)
  {
    forall s, alias :: s in g && alias in g[s] ==>
      exists r :: r in served && r.requestSource == s && r.packageAlias == alias && MatchesId(r.packageReq, g[s][alias])
  }

  /**
   * What answering requests means: every served request has an edge under
   * its source and alias, and every edge leads to a package that a
   * request of that source and alias accepts.
   */
  ghost predicate Satisfied(sh: Graph, se: Graph, de: Graph, served: set<DependencyRequest>)
  {
    && (forall r :: r in served ==> Answered(sh, se, de, r))
    && EdgesJustified(sh, served) && EdgesJustified(se, served) && EdgesJustified(de, served)
  }

  lemma AddEdgeKeepsEdge(g: Graph, source: PackageId, alias: string, dep: PackageId, s: PackageId, a: string)
    requires HasEdge(g, s, a)
    ensures HasEdge(AddEdge(g, source, alias, dep), s, a)
  {
  }

  lemma AddEdgeJustified(g: Graph, served: set<DependencyRequest>, req: DependencyRequest, dep: PackageId)
    requires EdgesJustified(g, served) && MatchesId(req.packageReq, dep)
    ensures EdgesJustified(AddEdge(g, req.requestSource, req.packageAlias, dep), served + {req})
  {
    var g' := AddEdge(g, req.requestSource, req.packageAlias, dep);
    forall s, alias | s in g' && alias in g'[s]
      ensures exists r :: r in served + {req} && r.requestSource == s && r.packageAlias == alias && MatchesId(r.packageReq, g'[s][alias])
    {
      if (s, alias) == (req.requestSource, req.packageAlias) {
        assert req in served + {req};
      } else {
        assert s in g && alias in g[s];
        var r :| r in served && r.requestSource == s && r.packageAlias == alias && MatchesId(r.packageReq, g[s][alias]);
        assert r in served + {req};
      }
    }
  }

  lemma JustifiedGrow(g: Graph, served: set<DependencyRequest>, req: DependencyRequest)
    requires EdgesJustified(g, served)
    ensures EdgesJustified(g, served + {req})
  {
    forall s, alias | s in g && alias in g[s]
      ensures exists r :: r in served + {req} && r.requestSource == s && r.packageAlias == alias && MatchesId(r.packageReq, g[s][alias])
    {
      var r :| r in served && r.requestSource == s && r.packageAlias == alias && MatchesId(r.packageReq, g[s][alias]);
      assert r in served + {req};
    }
  }

  /** Recording `req`'s edge to a package it accepts, in any realm's graph, keeps the requests satisfied. */
  lemma {:induction false} SatisfiedAddEdge(
    sh: Graph, se: Graph, de: Graph, served: set<DependencyRequest>, realm: Realm, req: DependencyRequest, dep: PackageId)
    requires Satisfied(sh, se, de, served) && MatchesId(req.packageReq, dep)
    ensures var s, a := req.requestSource, req.packageAlias;
      Satisfied(WithEdge(sh, Shared, realm, s, a, dep), WithEdge(se, Server, realm, s, a, dep),
                WithEdge(de, Dev, realm, s, a, dep), served + {req})
  {
    var s, a := req.requestSource, req.packageAlias;
    var sh', se', de' := WithEdge(sh, Shared, realm, s, a, dep), WithEdge(se, Server, realm, s, a, dep), WithEdge(de, Dev, realm, s, a, dep);
    match realm {
      case Shared =>
        AddEdgeJustified(sh, served, req, dep); JustifiedGrow(se, served, req); JustifiedGrow(de, served, req);
      case Server =>
        JustifiedGrow(sh, served, req); AddEdgeJustified(se, served, req, dep); JustifiedGrow(de, served, req);
      case Dev =>
        JustifiedGrow(sh, served, req); JustifiedGrow(se, served, req); AddEdgeJustified(de, served, req, dep);
    }
    forall r | r in served + {req} ensures Answered(sh', se', de', r) {
      if r == req {
        match realm {
          case Shared => assert HasEdge(sh', s, a);
          case Server => assert HasEdge(se', s, a);
          case Dev => assert HasEdge(de', s, a);
        }
      } else {
        assert Answered(sh, se, de, r);
        var rs, ra := r.requestSource, r.packageAlias;
        if HasEdge(sh, rs, ra) {
          if realm == Shared { AddEdgeKeepsEdge(sh, s, a, dep, rs, ra); }
          assert HasEdge(sh', rs, ra);
        } else if HasEdge(se, rs, ra) {
          if realm == Server { AddEdgeKeepsEdge(se, s, a, dep, rs, ra); }
          assert HasEdge(se', rs, ra);
        } else {
          if realm == Dev { AddEdgeKeepsEdge(de, s, a, dep, rs, ra); }
          assert HasEdge(de', rs, ra);
        }
      }
    }
  }

  /** `Resolve`: the activated packages, their metadata, and one dependency graph per realm. */
  class Resolve {
    var activated: set<PackageId>
    var metadata: map<PackageId, ResolvePackageMetadata>
    var sharedDependencies: Graph
    var serverDependencies: Graph
    var devDependencies: Graph

    /** `Resolve::default()`. */
    constructor()
      ensures activated == {} && metadata == map[]
      ensures sharedDependencies == map[] && serverDependencies == map[] && devDependencies == map[]
    {
      activated := {};
      metadata := map[];
      sharedDependencies := map[];
      serverDependencies := map[];
      devDependencies := map[];
    }

    ghost predicate Valid(order: seq<PackageSourceId>)
      reads this
    {
      Consistent(activated, metadata, sharedDependencies, serverDependencies, devDependencies, order)
    }

    /** The requests of `served` are satisfied by the three graphs. */
    ghost predicate Satisfies(served: set<DependencyRequest>)
      reads this
    {
      Satisfied(sharedDependencies, serverDependencies, devDependencies, served)
    }

    /** The root stays activated with its own realm and the default registry as its source. */
    ghost predicate RootKept(rootId: PackageId, rootRealm: Realm)
      reads this
    {
      rootId in metadata && metadata[rootId].realm == rootRealm && metadata[rootId].sourceRegistry == DefaultRegistry
    }

    /** `activate`: mark `dep` activated and record the edge `source --depName--> dep` in the graph of `depRealm`. */
    method Activate(source: PackageId, depName: string, depRealm: Realm, dep: PackageId)
      modifies this
      ensures activated == old(activated) + {dep}
      ensures metadata == old(metadata)
      ensures sharedDependencies == WithEdge(old(sharedDependencies), Shared, depRealm, source, depName, dep)
      ensures serverDependencies == WithEdge(old(serverDependencies), Server, depRealm, source, depName, dep)
      ensures devDependencies == WithEdge(old(devDependencies), Dev, depRealm, source, depName, dep)
    {
      activated := activated + {dep};
      match depRealm {
        case Shared => sharedDependencies := AddEdge(sharedDependencies, source, depName, dep);
        case Server => serverDependencies := AddEdge(serverDependencies, source, depName, dep);
        case Dev => devDependencies := AddEdge(devDependencies, source, depName, dep);
      }
    }
  }

  /**
   * The two facts about query answers the resolver relies on, stated for
   * every listed source: an answer meets the request it answers (the
   * resolver never checks this itself), and its ids come from a finite
   * universe.
   */
  ghost predicate AnswersWithin(
    order: seq<PackageSourceId>, sources: map<PackageSourceId, PackageSource>, universe: set<PackageId>)
  {
    forall i, req, m :: 0 <= i < |order| && order[i] in sources && sources[order[i]].query(req).Ok?
                         && m in sources[order[i]].query(req).value
      ==> MatchesId(req, ManifestId(m)) && ManifestId(m) in universe
  }

  /**
   * Sources backed by in-memory registries filled through `publish`
   * meet `AnswersWithin`, with their published ids as the universe.
   */
  lemma InMemoryAnswersWithin(
    order: seq<PackageSourceId>, sources: map<PackageSourceId, PackageSource>,
    storages: map<PackageSourceId, InMemory.Storage>, universe: set<PackageId>)
    requires forall i :: 0 <= i < |order| ==> order[i] in sources && order[i] in storages
    requires forall i :: 0 <= i < |order| ==> InMemory.Keyed(storages[order[i]]) && InMemory.StoredIds(storages[order[i]]) <= universe
    requires forall i, req :: 0 <= i < |order| ==> sources[order[i]].query(req) == InMemory.Query(storages[order[i]], req)
    ensures AnswersWithin(order, sources, universe)
  {
    forall i, req, m | 0 <= i < |order| && order[i] in sources && sources[order[i]].query(req).Ok?
                       && m in sources[order[i]].query(req).value
      ensures MatchesId(req, ManifestId(m)) && ManifestId(m) in universe
    {
      InMemory.QueryMeetsRequest(storages[order[i]], req, m);
    }
  }

  /** A candidate taken from the first answer is a manifest of the requested package. */
  lemma FromFirstAnswer(
    order: seq<PackageSourceId>, sources: map<PackageSourceId, PackageSource>, universe: set<PackageId>,
    req: PackageReq, m: Manifest)
    requires forall i :: 0 <= i < |order| ==> order[i] in sources
    requires AnswersWithin(order, sources, universe)
    requires FirstAnswer(order, sources, req).Some? && m in FirstAnswer(order, sources, req).value.1
    ensures MatchesId(req, ManifestId(m)) && m.package.name == req.name && ManifestId(m) in universe
    ensures FirstAnswer(order, sources, req).value.0 in order
  {
    var answer := FirstAnswer(order, sources, req).value;
    var i :| 0 <= i < |order| && order[i] == answer.0 && sources[order[i]].query(req) == Ok(answer.1)
                && forall k :: 0 <= k < i ==> sources[order[k]].query(req).Err?;
    AnswerWithin(order, sources, universe, i, req, m);
  }

  lemma AnswerWithin(
    order: seq<PackageSourceId>, sources: map<PackageSourceId, PackageSource>, universe: set<PackageId>,
    i: nat, req: PackageReq, m: Manifest)
    requires AnswersWithin(order, sources, universe)
    requires i < |order| && order[i] in sources && sources[order[i]].query(req).Ok? && m in sources[order[i]].query(req).value
    ensures MatchesId(req, ManifestId(m)) && ManifestId(m) in universe
  {
  }

  /** The first activated id of the descending list that the request accepts. */
  method FindReusable(matching: seq<PackageId>, req: PackageReq) returns (found: Option<nat>)
    ensures found.None? <==> forall i :: 0 <= i < |matching| ==> !MatchesId(req, matching[i])
    ensures found.Some? ==> found.value < |matching| && MatchesId(req, matching[found.value])
    ensures found.Some? ==> forall k :: 0 <= k < found.value ==> !MatchesId(req, matching[k])
  {
    for i := 0 to |matching|
      invariant forall k :: 0 <= k < i ==> !MatchesId(req, matching[k])
    {
      if MatchesId(req, matching[i]) {
        return Some(i);
      }
    }
    return None;
  }

  /**
   * The candidate loop: the first candidate compatible with no activated
   * package of its name, and the ids of those skipped for a conflict.
   */
  method SelectCandidate(filtered: seq<Manifest>, matching: seq<PackageId>)
    returns (chosen: Option<nat>, conflicting: seq<PackageId>)
    ensures chosen.Some? ==> chosen.value < |filtered| && !HasConflict(matching, filtered[chosen.value].package.version)
    ensures var end := if chosen.Some? then chosen.value else |filtered|;
      && (forall k :: 0 <= k < end ==> HasConflict(matching, filtered[k].package.version))
      && conflicting == seq(end, k requires 0 <= k < end => ManifestId(filtered[k]))
    ensures chosen.None? ==> (conflicting == [] <==> filtered == [])
  {
    conflicting := [];
    for i := 0 to |filtered|
      invariant forall k :: 0 <= k < i ==> HasConflict(matching, filtered[k].package.version)
      invariant conflicting == seq(i, k requires 0 <= k < i => ManifestId(filtered[k]))
    {
      var candidate := filtered[i];
      var hasConflicting := false;
      for j := 0 to |matching|
        invariant hasConflicting <==> exists k :: 0 <= k < j && Compatible(candidate.package.version, matching[k].version)
      {
        if Compatible(candidate.package.version, matching[j].version) {
          hasConflicting := true;
        }
      }
      if hasConflicting {
        conflicting := conflicting + [ManifestId(candidate)];
        continue;
      }
      return Some(i), conflicting;
    }
    chosen := None;
  }

  /** Appends one request per entry, in order. */
  method QueueEntries(queue: seq<DependencyRequest>, source: PackageId, entries: seq<(string, PackageReq)>, requestRealm: Realm, originRealm: Realm)
    returns (queue': seq<DependencyRequest>)
    ensures queue' == queue + RequestsFor(source, entries, requestRealm, originRealm)
  {
    queue' := queue;
    for i := 0 to |entries|
      invariant |queue'| == |queue| + i && queue'[..|queue|] == queue
      invariant forall k :: 0 <= k < i ==> queue'[|queue| + k] == DependencyRequest(source, requestRealm, originRealm, entries[k].0, entries[k].1)
    {
      queue' := queue' + [DependencyRequest(source, requestRealm, originRealm, entries[i].0, entries[i].1)];
    }
    assert queue' == queue + RequestsFor(source, entries, requestRealm, originRealm);
  }

  /** Appends the requests for one dependency table, in key order. */
  method QueueRequests(queue: seq<DependencyRequest>, source: PackageId, table: DependencyTable, requestRealm: Realm, originRealm: Realm)
    returns (queue': seq<DependencyRequest>)
    ensures queue' == queue + RequestsFor(source, Entries(table), requestRealm, originRealm)
  {
    queue' := QueueEntries(queue, source, Entries(table), requestRealm, originRealm);
  }

  /** Every queued request comes from an activated package. */
  ghost predicate SourcesActivated(queue: seq<DependencyRequest>, ids: set<PackageId>)
  {
    forall i :: 0 <= i < |queue| ==> queue[i].requestSource in ids
  }

  lemma RequestsFromActivated(source: PackageId, entries: seq<(string, PackageReq)>, requestRealm: Realm, originRealm: Realm, ids: set<PackageId>)
    requires source in ids
    ensures SourcesActivated(RequestsFor(source, entries, requestRealm, originRealm), ids)
  {
  }

  lemma SourcesActivatedAppend(a: seq<DependencyRequest>, b: seq<DependencyRequest>, ids: set<PackageId>)
    requires SourcesActivated(a, ids) && SourcesActivated(b, ids)
    ensures SourcesActivated(a + b, ids)
  {
    assert forall i :: 0 <= i < |a + b| ==> (a + b)[i] == if i < |a| then a[i] else b[i - |a|];
  }

  /**
   * Reusing the activated `pid` for `request`: its origin realm becomes the
   * join with the request's, and the edge goes into the graph of that joined realm.
   */
  method ReuseActivated(resolve: Resolve, request: DependencyRequest, pid: PackageId, ghost order: seq<PackageSourceId>, ghost rootId: PackageId, ghost rootRealm: Realm)
    requires resolve.Valid(order) && resolve.RootKept(rootId, rootRealm)
    requires pid in resolve.activated && request.requestSource in resolve.activated
    modifies resolve
    ensures resolve.Valid(order) && resolve.RootKept(rootId, rootRealm)
    ensures var join := RealmJoin(old(resolve.metadata[pid].originRealm), request.originRealm);
      && resolve.activated == old(resolve.activated)
      && resolve.metadata == old(resolve.metadata)[pid := old(resolve.metadata[pid]).(originRealm := join)]
      && resolve.sharedDependencies == WithEdge(old(resolve.sharedDependencies), Shared, join, request.requestSource, request.packageAlias, pid)
      && resolve.serverDependencies == WithEdge(old(resolve.serverDependencies), Server, join, request.requestSource, request.packageAlias, pid)
      && resolve.devDependencies == WithEdge(old(resolve.devDependencies), Dev, join, request.requestSource, request.packageAlias, pid)
  {
    ghost var a, m := resolve.activated, resolve.metadata;
    ghost var sh, se, de := resolve.sharedDependencies, resolve.serverDependencies, resolve.devDependencies;
    var meta := resolve.metadata[pid];
    var realmMatch := RealmJoin(meta.originRealm, request.originRealm);
    resolve.metadata := resolve.metadata[pid := meta.(originRealm := realmMatch)];
    resolve.Activate(request.requestSource, request.packageAlias, realmMatch, pid);
    ghost var m' := m[pid := meta.(originRealm := realmMatch)];
    assert a + {pid} == a && m'.Keys == m.Keys;
    assert Consistent(a, m', sh, se, de, order);
    ConsistentAddEdge(a, m', sh, se, de, order, realmMatch, request.requestSource, request.packageAlias, pid);
  }

  /**
   * Activating a new candidate for `request`: the edge goes into the graph
   * of the request's origin realm, and the metadata records the candidate's
   * realm, that origin and the answering source.
   */
  method ActivateCandidate(
    resolve: Resolve, request: DependencyRequest, candidateId: PackageId, meta: ResolvePackageMetadata,
    ghost order: seq<PackageSourceId>, ghost rootId: PackageId, ghost rootRealm: Realm)
    requires resolve.Valid(order) && resolve.RootKept(rootId, rootRealm)
    requires request.requestSource in resolve.activated && meta.sourceRegistry in order && meta.originRealm == request.originRealm
    requires forall a :: a in resolve.activated && a.name == candidateId.name ==> !Compatible(candidateId.version, a.version)
    modifies resolve
    ensures resolve.Valid(order) && resolve.RootKept(rootId, rootRealm)
    ensures candidateId !in old(resolve.activated)
    ensures resolve.activated == old(resolve.activated) + {candidateId}
    ensures resolve.metadata == old(resolve.metadata)[candidateId := meta]
    ensures resolve.sharedDependencies == WithEdge(old(resolve.sharedDependencies), Shared, request.originRealm, request.requestSource, request.packageAlias, candidateId)
    ensures resolve.serverDependencies == WithEdge(old(resolve.serverDependencies), Server, request.originRealm, request.requestSource, request.packageAlias, candidateId)
    ensures resolve.devDependencies == WithEdge(old(resolve.devDependencies), Dev, request.originRealm, request.requestSource, request.packageAlias, candidateId)
  {
    ghost var a, m := resolve.activated, resolve.metadata;
    ghost var sh, se, de := resolve.sharedDependencies, resolve.serverDependencies, resolve.devDependencies;
    ConsistentActivate(a, m, sh, se, de, order, candidateId, meta);
    ConsistentAddEdge(a + {candidateId}, m[candidateId := meta], sh, se, de, order,
                      request.originRealm, request.requestSource, request.packageAlias, candidateId);
    resolve.Activate(request.requestSource, request.packageAlias, request.originRealm, candidateId);
    resolve.metadata := resolve.metadata[candidateId := meta];
  }

  /** The search left less of `universe` to activate. */
  lemma Shrinks(universe: set<PackageId>, ids: set<PackageId>, x: PackageId)
    requires x in universe && x !in ids
    ensures |universe - (ids + {x})| < |universe - ids|
  {
    assert universe - (ids + {x}) == (universe - ids) - {x};
  }

  /** The candidates of the first answering source in the order they are tried. */
  function Ranked(answer: seq<Manifest>, tryToUse: set<PackageId>, requestRealm: Realm): seq<Manifest>
  {
    RealmValidCandidates(SortCandidates(answer, tryToUse), requestRealm)
  }

  /** `c` is the first of `ranked` that conflicts with none of `matching`. */
  ghost predicate FirstFree(ranked: seq<Manifest>, matching: seq<PackageId>, c: Manifest)
  {
    exists k :: 0 <= k < |ranked| && ranked[k] == c && !HasConflict(matching, c.package.version)
      && forall j :: 0 <= j < k ==> HasConflict(matching, ranked[j].package.version)
  }

  /**
   * The part of one turn that chooses a new package: the first source that
   * answers the request, its candidates ranked and filtered by realm, and
   * the first of those compatible with no activated package of the name.
   */
  method FindCandidate(
    activated: set<PackageId>, request: DependencyRequest, tryToUse: set<PackageId>,
    order: seq<PackageSourceId>, sources: map<PackageSourceId, PackageSource>, ghost universe: set<PackageId>)
    returns (r: Result<(Manifest, PackageSourceId), ResolveError>)
    requires forall i :: 0 <= i < |order| ==> order[i] in sources
    requires AnswersWithin(order, sources, universe)
    ensures r.Ok? ==> FirstAnswer(order, sources, request.packageReq).Some?
    ensures r.Ok? ==> var answer := FirstAnswer(order, sources, request.packageReq).value;
      && r.value.1 == answer.0 && r.value.0 in answer.1
      && FirstFree(Ranked(answer.1, tryToUse, request.requestRealm), MatchingActivated(activated, request.packageReq.name), r.value.0)
    ensures r.Ok? ==> var c := r.value.0;
      && ManifestId(c) in universe && MatchesId(request.packageReq, ManifestId(c)) && r.value.1 in order
      && IsDependencyValid(request.requestRealm, c.package.realm)
      && forall a :: a in activated && a.name == c.package.name ==> !Compatible(c.package.version, a.version)
    ensures r.Err? && r.error.NoSource? ==>
      r.error.req == request.packageReq && forall i :: 0 <= i < |order| ==> sources[order[i]].query(request.packageReq).Err?
    ensures r.Err? && r.error.NoMatch? ==> var answer := FirstAnswer(order, sources, request.packageReq);
      answer.Some? && Ranked(answer.value.1, tryToUse, request.requestRealm) == []
    ensures r.Err? && r.error.Conflict? ==> var answer := FirstAnswer(order, sources, request.packageReq);
      && answer.Some? && r.error.conflicting != []
      && forall m :: m in Ranked(answer.value.1, tryToUse, request.requestRealm) ==>
           HasConflict(MatchingActivated(activated, request.packageReq.name), m.package.version)
  {
    var matching := MatchingActivated(activated, request.packageReq.name);
    var answer := FirstAnswer(order, sources, request.packageReq);
    if answer.None? {
      return Err(NoSource(request.packageReq));
    }
    var (sourceId, manifests) := answer.value;
    var candidates := SortCandidates(manifests, tryToUse);
    var filtered := RealmValidCandidates(candidates, request.requestRealm);
    var chosen, conflicting := SelectCandidate(filtered, matching);
    if chosen.None? {
      if conflicting == [] {
        return Err(NoMatch(request.requestRealm, request.packageReq));
      }
      return Err(Conflict(request.packageReq, request.requestRealm, conflicting));
    }
    var candidate := filtered[chosen.value];
    assert FirstFree(filtered, matching, candidate) by {
      assert filtered[chosen.value] == candidate;
    }
    assert candidate in manifests by {
      assert candidate in candidates;
      assert candidate in multiset(candidates);
    }
    FromFirstAnswer(order, sources, universe, request.packageReq, candidate);
    forall a | a in activated && a.name == candidate.package.name
      ensures !Compatible(candidate.package.version, a.version)
    {
      assert a in matching;
    }
    return Ok((candidate, sourceId));
  }

  /** The requests a newly activated candidate queues: its shared, then its server dependencies, with the parent's origin. */
  function CandidateRequests(candidate: Manifest, originRealm: Realm): seq<DependencyRequest>
  {
    RequestsFor(ManifestId(candidate), Entries(candidate.dependencies), Shared, originRealm)
      + RequestsFor(ManifestId(candidate), Entries(candidate.serverDependencies), Server, originRealm)
  }

  /** What one turn of the loop did. */
  datatype Outcome = Reused(pid: PackageId) | Activated(candidate: Manifest, sourceId: PackageSourceId) | Failed(error: ResolveError)

  /**
   * One turn of the `'outer` loop for `request`, already taken off the
   * queue: reuse the highest activated match, or else activate the
   * candidate `FindCandidate` chooses and queue its dependencies. Either
   * way the request is then satisfied, on top of the requests `served`
   * before it.
   */
  method ResolveRequest(
    resolve: Resolve, request: DependencyRequest, queue: seq<DependencyRequest>,
    tryToUse: set<PackageId>,
    order: seq<PackageSourceId>, sources: map<PackageSourceId, PackageSource>,
    ghost universe: set<PackageId>, ghost rootId: PackageId, ghost rootRealm: Realm, ghost served: set<DependencyRequest>)
    returns (outcome: Outcome, queue': seq<DependencyRequest>)
    requires forall i :: 0 <= i < |order| ==> order[i] in sources
    requires AnswersWithin(order, sources, universe)
    requires resolve.Valid(order) && resolve.RootKept(rootId, rootRealm) && resolve.Satisfies(served)
    requires request.requestSource in resolve.activated && SourcesActivated(queue, resolve.activated)
    modifies resolve
    ensures resolve.Valid(order) && resolve.RootKept(rootId, rootRealm)
    ensures SourcesActivated(queue', resolve.activated)
    ensures !outcome.Failed? ==> resolve.Satisfies(served + {request})
    ensures outcome.Reused? ==> queue' == queue && resolve.activated == old(resolve.activated)
    ensures outcome.Reused? ==> var pid := outcome.pid;
      && pid in old(resolve.activated) && MatchesId(request.packageReq, pid)
      && (forall a :: a in old(resolve.activated) && MatchesId(request.packageReq, a) ==> a == pid || VersionLess(a.version, pid.version))
    ensures outcome.Reused? ==> var pid, join := outcome.pid, RealmJoin(old(resolve.metadata[outcome.pid].originRealm), request.originRealm);
      && resolve.metadata == old(resolve.metadata)[pid := old(resolve.metadata[pid]).(originRealm := join)]
      && resolve.sharedDependencies == WithEdge(old(resolve.sharedDependencies), Shared, join, request.requestSource, request.packageAlias, pid)
      && resolve.serverDependencies == WithEdge(old(resolve.serverDependencies), Server, join, request.requestSource, request.packageAlias, pid)
      && resolve.devDependencies == WithEdge(old(resolve.devDependencies), Dev, join, request.requestSource, request.packageAlias, pid)
    ensures !outcome.Reused? ==> forall a :: a in old(resolve.activated) ==> !MatchesId(request.packageReq, a)
    ensures outcome.Activated? ==>
      && FirstAnswer(order, sources, request.packageReq).Some?
      && outcome.sourceId == FirstAnswer(order, sources, request.packageReq).value.0
      && outcome.candidate in FirstAnswer(order, sources, request.packageReq).value.1
      && FirstFree(Ranked(FirstAnswer(order, sources, request.packageReq).value.1, tryToUse, request.requestRealm),
                   MatchingActivated(old(resolve.activated), request.packageReq.name), outcome.candidate)
      && MatchesId(request.packageReq, ManifestId(outcome.candidate))
    ensures outcome.Activated? ==> var cid := ManifestId(outcome.candidate);
      && cid !in old(resolve.activated)
      && resolve.activated == old(resolve.activated) + {cid}
      && |universe - resolve.activated| < |universe - old(resolve.activated)|
      && queue' == queue + CandidateRequests(outcome.candidate, request.originRealm)
      && resolve.metadata == old(resolve.metadata)[cid := ResolvePackageMetadata(outcome.candidate.package.realm, request.originRealm, outcome.sourceId)]
      && resolve.sharedDependencies == WithEdge(old(resolve.sharedDependencies), Shared, request.originRealm, request.requestSource, request.packageAlias, cid)
      && resolve.serverDependencies == WithEdge(old(resolve.serverDependencies), Server, request.originRealm, request.requestSource, request.packageAlias, cid)
      && resolve.devDependencies == WithEdge(old(resolve.devDependencies), Dev, request.originRealm, request.requestSource, request.packageAlias, cid)
    ensures outcome.Failed? ==> unchanged(resolve) && queue' == queue
    ensures outcome.Failed? && outcome.error.NoSource? ==>
      outcome.error.req == request.packageReq && forall i :: 0 <= i < |order| ==> sources[order[i]].query(request.packageReq).Err?
    ensures outcome.Failed? && outcome.error.NoMatch? ==> var answer := FirstAnswer(order, sources, request.packageReq);
      answer.Some? && Ranked(answer.value.1, tryToUse, request.requestRealm) == []
    ensures outcome.Failed? && outcome.error.Conflict? ==> var answer := FirstAnswer(order, sources, request.packageReq);
      && answer.Some? && outcome.error.conflicting != []
      && forall m :: m in Ranked(answer.value.1, tryToUse, request.requestRealm) ==>
           HasConflict(MatchingActivated(old(resolve.activated), request.packageReq.name), m.package.version)
  {
    queue' := queue;
    ghost var sh, se, de := resolve.sharedDependencies, resolve.serverDependencies, resolve.devDependencies;
    var matching := MatchingActivated(resolve.activated, request.packageReq.name);
    var reusable := FindReusable(matching, request.packageReq);
    if reusable.Some? {
      var pid := matching[reusable.value];
      FirstMatchIsHighest(resolve.activated, request.packageReq, reusable.value);
      ghost var join := RealmJoin(resolve.metadata[pid].originRealm, request.originRealm);
      ReuseActivated(resolve, request, pid, order, rootId, rootRealm);
      SatisfiedAddEdge(sh, se, de, served, join, request, pid);
      return Reused(pid), queue';
    }
    assert forall a :: a in resolve.activated && MatchesId(request.packageReq, a) ==> a in matching;
    var found := FindCandidate(resolve.activated, request, tryToUse, order, sources, universe);
    if found.Err? {
      return Failed(found.error), queue';
    }
    var (candidate, sourceId) := found.value;
    var candidateId := ManifestId(candidate);
    ghost var before := resolve.activated;
    ActivateCandidate(resolve, request, candidateId, ResolvePackageMetadata(candidate.package.realm, request.originRealm, sourceId),
                      order, rootId, rootRealm);
    SatisfiedAddEdge(sh, se, de, served, request.originRealm, request, candidateId);
    Shrinks(universe, before, candidateId);
    SourcesGrow(queue, before, resolve.activated);
    queue' := QueueCandidate(queue, candidate, request.originRealm, resolve.activated);
    outcome := Activated(candidate, sourceId);
  }

  /** Queues the shared, then the server dependencies of an activated candidate. */
  method QueueCandidate(queue: seq<DependencyRequest>, candidate: Manifest, originRealm: Realm, ghost ids: set<PackageId>)
    returns (queue': seq<DependencyRequest>)
    requires SourcesActivated(queue, ids) && ManifestId(candidate) in ids
    ensures queue' == queue + CandidateRequests(candidate, originRealm)
    ensures SourcesActivated(queue', ids)
  {
    var id := ManifestId(candidate);
    var shared := Entries(candidate.dependencies);
    var server := Entries(candidate.serverDependencies);
    queue' := QueueEntries(queue, id, shared, Shared, originRealm);
    QueueKeepsSources(queue, id, shared, Shared, originRealm, ids);
    ghost var middle := queue';
    queue' := QueueEntries(queue', id, server, Server, originRealm);
    QueueKeepsSources(middle, id, server, Server, originRealm, ids);
    AppendAssoc(queue, RequestsFor(id, shared, Shared, originRealm), RequestsFor(id, server, Server, originRealm));
  }

  lemma AppendAssoc<T>(a: seq<T>, b: seq<T>, c: seq<T>)
    ensures a + (b + c) == (a + b) + c
  {
  }

  lemma QueueKeepsSources(queue: seq<DependencyRequest>, source: PackageId, entries: seq<(string, PackageReq)>, requestRealm: Realm, originRealm: Realm, ids: set<PackageId>)
    requires SourcesActivated(queue, ids) && source in ids
    ensures SourcesActivated(queue + RequestsFor(source, entries, requestRealm, originRealm), ids)
  {
    RequestsFromActivated(source, entries, requestRealm, originRealm, ids);
    SourcesActivatedAppend(queue, RequestsFor(source, entries, requestRealm, originRealm), ids);
  }

  lemma SourcesGrow(queue: seq<DependencyRequest>, ids: set<PackageId>, more: set<PackageId>)
    requires SourcesActivated(queue, ids) && ids <= more
    ensures SourcesActivated(queue, more)
  {
  }

  /** `m` was in the first answer to a served request, and that answer came from `source`. */
  ghost predicate AnsweredFrom(
    order: seq<PackageSourceId>, sources: map<PackageSourceId, PackageSource>, served: set<DependencyRequest>,
    source: PackageSourceId, m: Manifest)
  {
    && (forall i :: 0 <= i < |order| ==> order[i] in sources)
    && exists r :: r in served && FirstAnswer(order, sources, r.packageReq).Some?
         && FirstAnswer(order, sources, r.packageReq).value.0 == source
         && m in FirstAnswer(order, sources, r.packageReq).value.1
  }

  lemma AnsweredFromGrow(
    order: seq<PackageSourceId>, sources: map<PackageSourceId, PackageSource>, served: set<DependencyRequest>,
    more: set<DependencyRequest>, source: PackageSourceId, m: Manifest)
    requires AnsweredFrom(order, sources, served, source, m) && served <= more
    ensures AnsweredFrom(order, sources, more, source, m)
  {
    var r :| r in served && FirstAnswer(order, sources, r.packageReq).Some?
         && FirstAnswer(order, sources, r.packageReq).value.0 == source
         && m in FirstAnswer(order, sources, r.packageReq).value.1;
    assert r in more;
  }

  /**
   * Where the activated packages came from: `chosen` maps each package
   * activated by the loop to its manifest and the origin realm its
   * requests were queued with. The manifest was in the first answer to a
   * served request, from the source and with the realm its metadata holds.
   */
  ghost predicate ChosenFrom(
    chosen: map<PackageId, (Manifest, Realm)>, served: set<DependencyRequest>,
    activated: set<PackageId>, metadata: map<PackageId, ResolvePackageMetadata>,
    order: seq<PackageSourceId>, sources: map<PackageSourceId, PackageSource>)
  {
    forall id :: id in chosen ==>
      && id in activated && id in metadata && ManifestId(chosen[id].0) == id
      && chosen[id].0.package.realm == metadata[id].realm
      && AnsweredFrom(order, sources, served, metadata[id].sourceRegistry, chosen[id].0)
  }

  /** Every request of `start`, and every request of a chosen package, is served or still queued. */
  ghost predicate Pending(
    start: seq<DependencyRequest>, queue: seq<DependencyRequest>, served: set<DependencyRequest>,
    chosen: map<PackageId, (Manifest, Realm)>)
  {
    && (forall q :: q in start ==> q in served || q in queue)
    && (forall id, q :: id in chosen && q in CandidateRequests(chosen[id].0, chosen[id].1) ==> q in served || q in queue)
  }

  lemma TailMembers<T>(s: seq<T>)
    requires s != []
    ensures forall x :: x in s ==> x == s[0] || x in s[1..]
  {
    forall x | x in s ensures x == s[0] || x in s[1..] {
      var i :| 0 <= i < |s| && s[i] == x;
      if i > 0 {
        assert s[1..][i - 1] == x;
      }
    }
  }

  /** With nothing queued, everything pending was served. */
  lemma PendingDone(start: seq<DependencyRequest>, served: set<DependencyRequest>, chosen: map<PackageId, (Manifest, Realm)>)
    requires Pending(start, [], served, chosen)
    ensures forall q :: q in start ==> q in served
    ensures forall id, q :: id in chosen && q in CandidateRequests(chosen[id].0, chosen[id].1) ==> q in served
  {
    forall id, q | id in chosen && q in CandidateRequests(chosen[id].0, chosen[id].1) ensures q in served {
      var empty: seq<DependencyRequest> := [];
      assert q in served || q in empty;
      assert q !in empty;
    }
  }

  /** Taking `queue[0]` off the queue and serving it keeps everything pending served or queued. */
  lemma PendingStep(
    start: seq<DependencyRequest>, queue: seq<DependencyRequest>, served: set<DependencyRequest>,
    chosen: map<PackageId, (Manifest, Realm)>)
    requires queue != [] && Pending(start, queue, served, chosen)
    ensures Pending(start, queue[1..], served + {queue[0]}, chosen)
  {
    TailMembers(queue);
  }

  /** Choosing `c`, whose requests were just queued, keeps everything pending served or queued. */
  lemma PendingChoose(
    start: seq<DependencyRequest>, queue: seq<DependencyRequest>, served: set<DependencyRequest>,
    chosen: map<PackageId, (Manifest, Realm)>, c: Manifest, origin: Realm)
    requires Pending(start, queue, served, chosen)
    ensures Pending(start, queue + CandidateRequests(c, origin), served, chosen[ManifestId(c) := (c, origin)])
  {
  }

  /**
   * `resolve`: activate the root with its own realm, queue its shared,
   * server and dev dependencies (each with that realm as request and
   * origin), then answer requests first-in first-out until the queue is
   * empty or a request cannot be met. `universe` bounds the ids the
   * sources can answer with; it is what makes the loop end.
   *
   * On success every request was served: the root's, and those of every
   * package the loop activated (`chosen`). Each has an edge under its
   * source and alias, and each edge leads to an activated package that
   * a request of that source and alias accepts.
   */
  method ResolveGraph(root: Manifest, tryToUse: set<PackageId>, packageSources: PackageSourceMap, ghost universe: set<PackageId>)
    returns (r: Result<Resolve, ResolveError>, ghost served: set<DependencyRequest>, ghost chosen: map<PackageId, (Manifest, Realm)>)
    requires packageSources.Valid()
    requires AnswersWithin(packageSources.sourceOrder, packageSources.sources, universe)
    ensures r.Ok? ==> fresh(r.value)
    ensures r.Ok? ==> r.value.Valid(packageSources.sourceOrder)
    ensures r.Ok? ==> r.value.RootKept(ManifestId(root), root.package.realm) && ManifestId(root) in r.value.activated
    ensures r.Ok? ==> forall q :: q in RootRequests(root) ==> q in served
    ensures r.Ok? ==> forall id :: id in r.value.activated ==> id == ManifestId(root) || id in chosen
    ensures r.Ok? ==> ChosenFrom(chosen, served, r.value.activated, r.value.metadata, packageSources.sourceOrder, packageSources.sources)
    ensures r.Ok? ==> forall id, q :: id in chosen && q in CandidateRequests(chosen[id].0, chosen[id].1) ==> q in served
    ensures r.Ok? ==> r.value.Satisfies(served)
    ensures r.Err? && r.error.NoSource? ==> forall i :: 0 <= i < |packageSources.sourceOrder| ==>
              packageSources.sources[packageSources.sourceOrder[i]].query(r.error.req).Err?
    ensures r.Err? && r.error.Conflict? ==> r.error.conflicting != []
  {
    var order, sources := packageSources.sourceOrder, packageSources.sources;
    var rootId := ManifestId(root);
    var resolve := new Resolve();
    resolve.activated := {rootId};
    resolve.metadata := map[rootId := ResolvePackageMetadata(root.package.realm, root.package.realm, DefaultRegistry)];
    assert resolve.Valid(order);
    assert resolve.Satisfies({});
    var queue := InitialRequests(root);
    var failure;
    failure, served, chosen := DrainQueue(resolve, queue, tryToUse, order, sources, universe, rootId, root.package.realm);
    if failure.Some? {
      return Err(failure.value), served, chosen;
    }
    return Ok(resolve), served, chosen;
  }

  /** What the `'outer` loop keeps while it drains the queue that started as `start`. */
  ghost predicate Draining(
    resolve: Resolve, start: seq<DependencyRequest>, queue: seq<DependencyRequest>,
    served: set<DependencyRequest>, chosen: map<PackageId, (Manifest, Realm)>, activated0: set<PackageId>,
    order: seq<PackageSourceId>, sources: map<PackageSourceId, PackageSource>, rootId: PackageId, rootRealm: Realm)
    reads resolve
  {
    && resolve.Valid(order) && resolve.RootKept(rootId, rootRealm) && resolve.Satisfies(served)
    && SourcesActivated(queue, resolve.activated)
    && Pending(start, queue, served, chosen)
    && (forall id :: id in resolve.activated ==> id in activated0 || id in chosen)
    && ChosenFrom(chosen, served, resolve.activated, resolve.metadata, order, sources)
  }

  /**
   * The `'outer` loop of `resolve`: take requests off the queue until it
   * is empty or one fails. When it empties, every request of `queue` and
   * of every package it activated was served and is satisfied.
   */
  method DrainQueue(resolve: Resolve, queue: seq<DependencyRequest>, tryToUse: set<PackageId>,
                    order: seq<PackageSourceId>, sources: map<PackageSourceId, PackageSource>,
                    ghost universe: set<PackageId>, ghost rootId: PackageId, ghost rootRealm: Realm)
    returns (failure: Option<ResolveError>, ghost served: set<DependencyRequest>, ghost chosen: map<PackageId, (Manifest, Realm)>)
    requires forall i :: 0 <= i < |order| ==> order[i] in sources
    requires AnswersWithin(order, sources, universe)
    requires resolve.Valid(order) && resolve.RootKept(rootId, rootRealm) && resolve.Satisfies({})
    requires SourcesActivated(queue, resolve.activated)
    modifies resolve
    ensures resolve.Valid(order) && resolve.RootKept(rootId, rootRealm)
    ensures failure.None? ==> forall q :: q in queue ==> q in served
    ensures failure.None? ==> forall id :: id in resolve.activated ==> id in old(resolve.activated) || id in chosen
    ensures failure.None? ==> ChosenFrom(chosen, served, resolve.activated, resolve.metadata, order, sources)
    ensures failure.None? ==> forall id, q :: id in chosen && q in CandidateRequests(chosen[id].0, chosen[id].1) ==> q in served
    ensures failure.None? ==> resolve.Satisfies(served)
    ensures failure.Some? && failure.value.NoSource? ==>
      forall i :: 0 <= i < |order| ==> sources[order[i]].query(failure.value.req).Err?
    ensures failure.Some? && failure.value.Conflict? ==> failure.value.conflicting != []
  {
    ghost var start, activated0 := queue, resolve.activated;
    served, chosen := {}, map[];
    var queue := queue;
    while queue != []
      invariant Draining(resolve, start, queue, served, chosen, activated0, order, sources, rootId, rootRealm)
      decreases |universe - resolve.activated|, |queue|
    {
      failure, queue, served, chosen := DrainStep(resolve, queue, tryToUse, order, sources, universe, rootId, rootRealm,
                                                  start, activated0, served, chosen);
      if failure.Some? {
        return;
      }
    }
    PendingDone(start, served, chosen);
    return None, served, chosen;
  }

  /** One turn of the `'outer` loop, with the ghost bookkeeping of what was served and chosen. */
  method DrainStep(resolve: Resolve, queue: seq<DependencyRequest>, tryToUse: set<PackageId>,
                   order: seq<PackageSourceId>, sources: map<PackageSourceId, PackageSource>,
                   ghost universe: set<PackageId>, ghost rootId: PackageId, ghost rootRealm: Realm,
                   ghost start: seq<DependencyRequest>, ghost activated0: set<PackageId>,
                   ghost served: set<DependencyRequest>, ghost chosen: map<PackageId, (Manifest, Realm)>)
    returns (failure: Option<ResolveError>, queue': seq<DependencyRequest>,
             ghost served': set<DependencyRequest>, ghost chosen': map<PackageId, (Manifest, Realm)>)
    requires forall i :: 0 <= i < |order| ==> order[i] in sources
    requires AnswersWithin(order, sources, universe)
    requires queue != [] && Draining(resolve, start, queue, served, chosen, activated0, order, sources, rootId, rootRealm)
    modifies resolve
    ensures resolve.Valid(order) && resolve.RootKept(rootId, rootRealm)
    ensures failure.None? ==> Draining(resolve, start, queue', served', chosen', activated0, order, sources, rootId, rootRealm)
    ensures failure.None? ==>
      || |universe - resolve.activated| < |universe - old(resolve.activated)|
      || (resolve.activated == old(resolve.activated) && |queue'| < |queue|)
    ensures failure.Some? && failure.value.NoSource? ==>
      forall i :: 0 <= i < |order| ==> sources[order[i]].query(failure.value.req).Err?
    ensures failure.Some? && failure.value.Conflict? ==> failure.value.conflicting != []
  {
    var request := queue[0];
    ghost var before, metaBefore := resolve.activated, resolve.metadata;
    var outcome;
    outcome, queue' := ResolveRequest(resolve, request, queue[1..], tryToUse, order, sources, universe, rootId, rootRealm, served);
    served', chosen' := served + {request}, chosen;
    if outcome.Failed? {
      return Some(outcome.error), queue', served', chosen';
    }
    PendingStep(start, queue, served, chosen);
    if outcome.Activated? {
      PendingChoose(start, queue[1..], served', chosen, outcome.candidate, request.originRealm);
      ChosenAfterActivate(chosen, served, before, metaBefore, order, sources, request, outcome.candidate, outcome.sourceId);
      chosen' := chosen[ManifestId(outcome.candidate) := (outcome.candidate, request.originRealm)];
    } else {
      ChosenAfterReuse(chosen, served, before, metaBefore, order, sources, request, outcome.pid,
                       RealmJoin(metaBefore[outcome.pid].originRealm, request.originRealm));
    }
    failure := None;
  }

  lemma ChosenAfterActivate(
    chosen: map<PackageId, (Manifest, Realm)>, served: set<DependencyRequest>,
    activated: set<PackageId>, metadata: map<PackageId, ResolvePackageMetadata>,
    order: seq<PackageSourceId>, sources: map<PackageSourceId, PackageSource>,
    request: DependencyRequest, c: Manifest, sourceId: PackageSourceId)
    requires forall i :: 0 <= i < |order| ==> order[i] in sources
    requires ChosenFrom(chosen, served, activated, metadata, order, sources)
    requires FirstAnswer(order, sources, request.packageReq).Some?
    requires FirstAnswer(order, sources, request.packageReq).value.0 == sourceId
    requires c in FirstAnswer(order, sources, request.packageReq).value.1
    requires ManifestId(c) !in activated
    ensures ChosenFrom(chosen[ManifestId(c) := (c, request.originRealm)], served + {request}, activated + {ManifestId(c)},
                       metadata[ManifestId(c) := ResolvePackageMetadata(c.package.realm, request.originRealm, sourceId)], order, sources)
  {
    var cid := ManifestId(c);
    var chosen', served' := chosen[cid := (c, request.originRealm)], served + {request};
    var metadata' := metadata[cid := ResolvePackageMetadata(c.package.realm, request.originRealm, sourceId)];
    forall id | id in chosen'
      ensures id in activated + {cid} && id in metadata' && ManifestId(chosen'[id].0) == id
      ensures chosen'[id].0.package.realm == metadata'[id].realm
      ensures AnsweredFrom(order, sources, served', metadata'[id].sourceRegistry, chosen'[id].0)
    {
      if id == cid {
        assert request in served';
      } else {
        AnsweredFromGrow(order, sources, served, served', metadata[id].sourceRegistry, chosen[id].0);
      }
    }
  }

  lemma ChosenAfterReuse(
    chosen: map<PackageId, (Manifest, Realm)>, served: set<DependencyRequest>,
    activated: set<PackageId>, metadata: map<PackageId, ResolvePackageMetadata>,
    order: seq<PackageSourceId>, sources: map<PackageSourceId, PackageSource>,
    request: DependencyRequest, pid: PackageId, join: Realm)
    requires ChosenFrom(chosen, served, activated, metadata, order, sources) && pid in metadata
    ensures ChosenFrom(chosen, served + {request}, activated, metadata[pid := metadata[pid].(originRealm := join)], order, sources)
  {
    var served', metadata' := served + {request}, metadata[pid := metadata[pid].(originRealm := join)];
    forall id | id in chosen
      ensures id in activated && id in metadata' && ManifestId(chosen[id].0) == id
      ensures chosen[id].0.package.realm == metadata'[id].realm
      ensures AnsweredFrom(order, sources, served', metadata'[id].sourceRegistry, chosen[id].0)
    {
      assert metadata'[id].sourceRegistry == metadata[id].sourceRegistry && metadata'[id].realm == metadata[id].realm;
      AnsweredFromGrow(order, sources, served, served', metadata[id].sourceRegistry, chosen[id].0);
    }
  }

  /** The root's requests: shared, then server, then dev dependencies, each with that realm as request and origin. */
  function RootRequests(root: Manifest): seq<DependencyRequest>
  {
    RequestsFor(ManifestId(root), Entries(root.dependencies), Shared, Shared)
      + RequestsFor(ManifestId(root), Entries(root.serverDependencies), Server, Server)
      + RequestsFor(ManifestId(root), Entries(root.devDependencies), Dev, Dev)
  }

  /** Builds the initial queue of `resolve`. */
  method InitialRequests(root: Manifest) returns (queue: seq<DependencyRequest>)
    ensures queue == RootRequests(root)
    ensures SourcesActivated(queue, {ManifestId(root)})
  {
    var id := ManifestId(root);
    var shared := Entries(root.dependencies);
    var server := Entries(root.serverDependencies);
    var dev := Entries(root.devDependencies);
    queue := QueueEntries([], id, shared, Shared, Shared);
    QueueKeepsSources([], id, shared, Shared, Shared, {id});
    ghost var q1 := queue;
    queue := QueueEntries(queue, id, server, Server, Server);
    QueueKeepsSources(q1, id, server, Server, Server, {id});
    ghost var q2 := queue;
    queue := QueueEntries(queue, id, dev, Dev, Dev);
    QueueKeepsSources(q2, id, dev, Dev, Dev, {id});
    assert [] + RequestsFor(id, shared, Shared, Shared) == RequestsFor(id, shared, Shared, Shared);
  }
}
