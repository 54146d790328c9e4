/**
 * The registry's search backend (wally-registry-backend/src/search.rs):
 * the crawl that makes one search document per package of the index, with
 * the number of packages that depend on it, and the query rewrite and
 * result limit of a search. The directory walk is a parameter (the entries
 * in walk order); the text engine that tokenises, scores and ranks is a
 * parameter of `Search`.
 */
module RegistrySearch {
  import opened Wrappers
  import opened Strings
  import opened Semver
  import opened PackageNames
  import opened PackageReqs
  import opened Manifests
  import opened PackageIndexes
  import opened BTreeMaps

  /** `DOC_LIMIT`: the most results one search returns. */
  const DOC_LIMIT: nat := 100

  predicate EndsWith(s: string, suffix: string)
  {
    |suffix| <= |s| && s[|s| - |suffix|..] == suffix
  }

  /** `is_config`: a name ending in `.json` or `.toml`, or starting with `.`. */
  predicate IsConfig(fileName: string)
  {
    EndsWith(fileName, ".json") || EndsWith(fileName, ".toml") || (|fileName| > 0 && fileName[0] == '.')
  }

  /**
   * One entry of the walk below the index directory (`min_depth(1)`): the
   * directories between the index and the entry, its own name, and whether
   * it is a directory.
   */
  datatype WalkEntry = WalkEntry(dirs: seq<string>, fileName: string, isDir: bool)

  /** `filter_entry(|e| !is_config(e))`: the walk yields an entry when neither it nor a directory above it is a configuration entry. */
  predicate Reached(e: WalkEntry)
  {
    !IsConfig(e.fileName) && forall i :: 0 <= i < |e.dirs| ==> !IsConfig(e.dirs[i])
  }

  /** The scope is the name of the file's parent directory (the index directory itself for a top-level file). */
  function ScopeOf(e: WalkEntry, rootName: string): string
  {
    if e.dirs == [] then rootName else e.dirs[|e.dirs| - 1]
  }

  /** A search document: the fields `crawl_packages` stores for a package. */
  datatype SearchDocument = SearchDocument(
    scope: string,
    name: string,
    versions: seq<string>,
    description: Option<string>,
    dependentCount: nat)

  /** Why a crawl stops: a file whose path is no package name, or an index entry that cannot be read. */
  datatype CrawlError =
    | NotAPackage(nameError: NameError)
    | Unreadable(indexError: IndexError)

  // ---------------------------------------------------------------------
  // The version chosen for a package
  // ---------------------------------------------------------------------

  /** The position of the first version, from `i` on, that is not a pre-release. */
  function FirstReleaseFrom(versions: seq<Manifest>, i: nat): (r: Option<nat>)
    requires i <= |versions|
    ensures r.Some? ==> i <= r.value < |versions| && !IsPrerelease(versions[r.value].package.version)
    ensures forall k :: i <= k < (if r.Some? then r.value else |versions|) ==> IsPrerelease(versions[k].package.version)
    decreases |versions| - i
  {
    if i == |versions| then None
    else if !IsPrerelease(versions[i].package.version) then Some(i)
    else FirstReleaseFrom(versions, i + 1)
  }

  /** The version whose manifest the document is made from: the first non-pre-release in index order. */
  function FirstRelease(versions: seq<Manifest>): Option<nat>
  {
    FirstReleaseFrom(versions, 0)
  }

  /** The text of the first `n` versions, in index order. */
  function VersionTexts(versions: seq<Manifest>, n: nat): (r: seq<string>)
    requires n <= |versions|
    ensures |r| == n
  {
    if n == 0 then [] else VersionTexts(versions, n - 1) + [VersionToString(versions[n - 1].package.version)]
  }

  /** Text `k` of the list is the display of version `k`. */
  lemma {:induction false} VersionTextsAt(versions: seq<Manifest>, n: nat, k: nat)
    requires k < n <= |versions|
    ensures VersionTexts(versions, n)[k] == VersionToString(versions[k].package.version)
    decreases n
  {
    if k < n - 1 {
      VersionTextsAt(versions, n - 1, k);
    }
  }

  /** The requirements of a manifest, table by table, each table in key order: what the chain of `values()` yields. */
  function ReqsOf(m: Manifest): seq<PackageReq>
  {
    Values(Entries(m.dependencies)) + Values(Entries(m.serverDependencies)) + Values(Entries(m.devDependencies))
  }

  function Values(entries: seq<(string, PackageReq)>): (r: seq<PackageReq>)
    ensures |r| == |entries| && forall i :: 0 <= i < |r| ==> r[i] == entries[i].1
  {
    seq(|entries|, i requires 0 <= i < |entries| => entries[i].1)
  }

  /** The package names a list of requirements asks for. */
  function ReqNames(reqs: seq<PackageReq>): set<PackageName>
    decreases |reqs|
  {
    if reqs == [] then {} else ReqNames(reqs[..|reqs| - 1]) + {reqs[|reqs| - 1].name}
  }

  lemma {:induction false} ReqNamesMeaning(reqs: seq<PackageReq>, n: PackageName)
    ensures n in ReqNames(reqs) <==> exists i :: 0 <= i < |reqs| && reqs[i].name == n
    decreases |reqs|
  {
    if reqs != [] {
      var init := reqs[..|reqs| - 1];
      ReqNamesMeaning(init, n);
      if n in ReqNames(init) {
        var i :| 0 <= i < |init| && init[i].name == n;
        assert reqs[i] == init[i];
      }
      if exists i :: 0 <= i < |reqs| && reqs[i].name == n {
        var i :| 0 <= i < |reqs| && reqs[i].name == n;
        if i < |init| {
          assert init[i] == reqs[i];
        }
      }
    }
  }

  /** The packages a manifest depends on, through any of its three tables. */
  function DependencyNames(m: Manifest): set<PackageName>
  {
    TableNames(m.dependencies) + TableNames(m.serverDependencies) + TableNames(m.devDependencies)
  }

  function TableNames(table: DependencyTable): set<PackageName>
  {
    set alias | alias in table :: table[alias].name
  }

  /** `es` lists exactly the entries of `table`. */
  ghost predicate Lists(table: DependencyTable, es: seq<(string, PackageReq)>)
  {
    && (forall i :: 0 <= i < |es| ==> es[i].0 in table && table[es[i].0] == es[i].1)
    && (forall alias :: alias in table ==> exists i :: 0 <= i < |es| && es[i].0 == alias)
  }

  lemma EntriesList(table: DependencyTable)
    ensures Lists(table, Entries(table))
  {
  }

  /** The values of a listing name exactly the packages of its table. */
  lemma ListedNames(table: DependencyTable, es: seq<(string, PackageReq)>)
    requires Lists(table, es)
    ensures ReqNames(Values(es)) == TableNames(table)
  {
    forall n ensures n in ReqNames(Values(es)) <==> n in TableNames(table) {
      ReqNamesMeaning(Values(es), n);
      if n in TableNames(table) {
        var alias :| alias in table && table[alias].name == n;
        var i :| 0 <= i < |es| && es[i].0 == alias;
        assert Values(es)[i].name == n;
      }
    }
  }

  /** The names of a concatenation are the names of its parts. */
  lemma {:induction false} ReqNamesAppend(x: seq<PackageReq>, y: seq<PackageReq>)
    ensures ReqNames(x + y) == ReqNames(x) + ReqNames(y)
    decreases |y|
  {
    if y != [] {
      assert (x + y)[..|x + y| - 1] == x + y[..|y| - 1];
      ReqNamesAppend(x, y[..|y| - 1]);
    } else {
      assert x + y == x;
    }
  }

  /** The chained `values()` of the three tables name exactly the packages the manifest depends on. */
  lemma ReqsOfNames(m: Manifest)
    ensures ReqNames(ReqsOf(m)) == DependencyNames(m)
  {
    var a := Entries(m.dependencies);
    var b := Entries(m.serverDependencies);
    var c := Entries(m.devDependencies);
    EntriesList(m.dependencies);
    EntriesList(m.serverDependencies);
    EntriesList(m.devDependencies);
    ListedNames(m.dependencies, a);
    ListedNames(m.serverDependencies, b);
    ListedNames(m.devDependencies, c);
    ReqNamesAppend(Values(a), Values(b));
    ReqNamesAppend(Values(a) + Values(b), Values(c));
  }

  // ---------------------------------------------------------------------
  // The crawl as a fold over the walk
  // ---------------------------------------------------------------------

  /** `package_to_doc_map` and `dependency_graph`. */
  datatype Crawled = Crawled(docs: map<PackageName, SearchDocument>, graph: map<PackageName, set<PackageName>>)

  /** One call of the `for_each` closure: `dependency` gains `package` as a dependent. */
  function AddDependent(graph: map<PackageName, set<PackageName>>, package: PackageName, dependency: PackageName): map<PackageName, set<PackageName>>
  {
    graph[dependency := (if dependency in graph then graph[dependency] else {}) + {package}]
  }

  /** The `for_each` over the requirements, in order. */
  function AddDependents(graph: map<PackageName, set<PackageName>>, package: PackageName, reqs: seq<PackageReq>): map<PackageName, set<PackageName>>
    decreases |reqs|
  {
    if reqs == [] then graph
    else AddDependent(AddDependents(graph, package, reqs[..|reqs| - 1]), package, reqs[|reqs| - 1].name)
  }

  /** `package` becomes a dependent of each of `deps`; nothing else changes. */
  function WithDependent(graph: map<PackageName, set<PackageName>>, package: PackageName, deps: set<PackageName>): (r: map<PackageName, set<PackageName>>)
    ensures r.Keys == graph.Keys + deps
  {
    map p | p in graph.Keys + deps :: (if p in graph then graph[p] else {}) + (if p in deps then {package} else {})
  }

  /** Adding the requirements one at a time makes `package` a dependent of each package they name. */
  lemma {:induction false} AddDependentsMeaning(graph: map<PackageName, set<PackageName>>, package: PackageName, reqs: seq<PackageReq>)
    ensures AddDependents(graph, package, reqs) == WithDependent(graph, package, ReqNames(reqs))
    decreases |reqs|
  {
    if reqs != [] {
      var init := reqs[..|reqs| - 1];
      AddDependentsMeaning(graph, package, init);
      WithDependentStep(graph, package, ReqNames(init), reqs[|reqs| - 1].name);
    } else {
      var w := WithDependent(graph, package, {});
      assert forall p :: p in w ==> w[p] == graph[p];
    }
  }

  lemma WithDependentStep(graph: map<PackageName, set<PackageName>>, package: PackageName, deps: set<PackageName>, d: PackageName)
    ensures AddDependent(WithDependent(graph, package, deps), package, d) == WithDependent(graph, package, deps + {d})
  {
    var x := AddDependent(WithDependent(graph, package, deps), package, d);
    var y := WithDependent(graph, package, deps + {d});
    assert x.Keys == y.Keys;
    forall p | p in x ensures x[p] == y[p] {
      WithDependentStepAt(graph, package, deps, d, p);
    }
  }

  lemma WithDependentStepAt(graph: map<PackageName, set<PackageName>>, package: PackageName, deps: set<PackageName>, d: PackageName, p: PackageName)
    requires p in graph || p in deps || p == d
    ensures AddDependent(WithDependent(graph, package, deps), package, d)[p] == WithDependent(graph, package, deps + {d})[p]
  {
    var before := if p in graph then graph[p] else {};
    if p == d {
      assert AddDependent(WithDependent(graph, package, deps), package, d)[p] == before + (if p in deps then {package} else {}) + {package};
    }
  }

  /** What the loop records for the chosen manifest `m`, whose version texts are `texts`. */
  function Record(c: Crawled, m: Manifest, texts: seq<string>): Crawled
  {
    var p := m.package.name;
    var doc := SearchDocument(p.scope, p.name, texts, m.package.description, 0);
    var g := if p in c.graph then c.graph else c.graph[p := {}];
    Crawled(c.docs[p := doc], WithDependent(g, p, DependencyNames(m)))
  }

  /** The inner `for` loop over a package's versions. */
  function CrawlVersions(c: Crawled, versions: seq<Manifest>): Crawled
  {
    match FirstRelease(versions)
    case None => c
    case Some(i) => Record(c, versions[i], VersionTexts(versions, i + 1))
  }

  /** One entry of the walk: skipped, or a package file whose metadata is read and recorded. */
  function Visit(c: Crawled, e: WalkEntry, rootName: string, files: map<PackageName, string>, codec: Codec): Result<Crawled, CrawlError>
  {
    if !Reached(e) || e.isDir then Ok(c)
    else match New(ScopeOf(e, rootName), e.fileName)
      case Err(err) => Err(NotAPackage(err))
      case Ok(n) =>
        match ReadPackage(files, n, codec)
        case Err(err) => Err(Unreadable(err))
        case Ok(versions) => Ok(CrawlVersions(c, versions))
  }

  /**
   * The walk loop over `entries`, from empty maps; the first failure ends
   * it. Every package with a document has an entry in the graph, which is
   * why the lookup that counts its dependents cannot fail.
   */
  function CrawlEntries(entries: seq<WalkEntry>, rootName: string, files: map<PackageName, string>, codec: Codec): (r: Result<Crawled, CrawlError>)
    ensures r.Ok? ==> r.value.docs.Keys <= r.value.graph.Keys
    decreases |entries|
  {
    if entries == [] then Ok(Crawled(map[], map[]))
    else match CrawlEntries(entries[..|entries| - 1], rootName, files, codec)
      case Err(err) => Err(err)
      case Ok(c) =>
        VisitCovers(c, entries[|entries| - 1], rootName, files, codec);
        Visit(c, entries[|entries| - 1], rootName, files, codec)
  }

  /** A visit keeps every documented package in the graph. */
  lemma VisitCovers(c: Crawled, e: WalkEntry, rootName: string, files: map<PackageName, string>, codec: Codec)
    requires c.docs.Keys <= c.graph.Keys
    ensures Visit(c, e, rootName, files, codec).Ok? ==>
      Visit(c, e, rootName, files, codec).value.docs.Keys <= Visit(c, e, rootName, files, codec).value.graph.Keys
  {
    if Reached(e) && !e.isDir && New(ScopeOf(e, rootName), e.fileName).Ok? {
      var n := New(ScopeOf(e, rootName), e.fileName).value;
      if ReadPackage(files, n, codec).Ok? {
        var versions := ReadPackage(files, n, codec).value;
        if FirstRelease(versions).Some? {
          assert Visit(c, e, rootName, files, codec).value == Record(c, versions[FirstRelease(versions).value], VersionTexts(versions, FirstRelease(versions).value + 1));
        }
      }
    }
  }

  /** The final loop: each document gets the number of its dependents. */
  function Documents(c: Crawled): (r: map<PackageName, SearchDocument>)
    requires c.docs.Keys <= c.graph.Keys
  {
    map p | p in c.docs :: c.docs[p].(dependentCount := |c.graph[p]|)
  }

  // ---------------------------------------------------------------------
  // What the crawl computes
  // ---------------------------------------------------------------------

  /** The manifests the crawl records, in walk order. */
  function Chosen(entries: seq<WalkEntry>, rootName: string, files: map<PackageName, string>, codec: Codec): seq<Manifest>
    decreases |entries|
  {
    if entries == [] then []
    else Chosen(entries[..|entries| - 1], rootName, files, codec) + EntryChosen(entries[|entries| - 1], rootName, files, codec)
  }

  /** The manifest one entry of the walk records, if any. */
  function EntryChosen(e: WalkEntry, rootName: string, files: map<PackageName, string>, codec: Codec): seq<Manifest>
  {
    if !Reached(e) || e.isDir then []
    else match New(ScopeOf(e, rootName), e.fileName)
      case Err(_) => []
      case Ok(n) =>
        match ReadPackage(files, n, codec)
        case Err(_) => []
        case Ok(versions) => ChosenOf(versions)
  }

  /** The manifest a package's versions record: its first non-pre-release. */
  function ChosenOf(versions: seq<Manifest>): seq<Manifest>
  {
    match FirstRelease(versions)
    case None => []
    case Some(i) => [versions[i]]
  }

  /** The packages among `chosen` that depend on `p`. */
  function DependentsIn(chosen: seq<Manifest>, p: PackageName): set<PackageName>
    decreases |chosen|
  {
    if chosen == [] then {}
    else
      var last := chosen[|chosen| - 1];
      DependentsIn(chosen[..|chosen| - 1], p) + (if p in DependencyNames(last) then {last.package.name} else {})
  }

  /** The packages `chosen` names: the recorded packages and everything they depend on. */
  function MentionedIn(chosen: seq<Manifest>): set<PackageName>
    decreases |chosen|
  {
    if chosen == [] then {}
    else
      var last := chosen[|chosen| - 1];
      MentionedIn(chosen[..|chosen| - 1]) + {last.package.name} + DependencyNames(last)
  }

  /** `q` depends on `p` when some recorded manifest of `q` depends on `p`. */
  lemma {:induction false} DependentsInMeaning(chosen: seq<Manifest>, p: PackageName, q: PackageName)
    ensures q in DependentsIn(chosen, p) <==>
      exists k :: 0 <= k < |chosen| && chosen[k].package.name == q && p in DependencyNames(chosen[k])
    decreases |chosen|
  {
    if chosen != [] {
      var init := chosen[..|chosen| - 1];
      DependentsInMeaning(init, p, q);
      if q in DependentsIn(init, p) {
        var k :| 0 <= k < |init| && init[k].package.name == q && p in DependencyNames(init[k]);
        assert chosen[k] == init[k];
      }
      if exists k :: 0 <= k < |chosen| && chosen[k].package.name == q && p in DependencyNames(chosen[k]) {
        var k :| 0 <= k < |chosen| && chosen[k].package.name == q && p in DependencyNames(chosen[k]);
        if k < |init| {
          assert init[k] == chosen[k];
        }
      }
    }
  }

  /** A package that nothing mentions has no dependents. */
  lemma {:induction false} UnmentionedHasNoDependents(chosen: seq<Manifest>, p: PackageName)
    requires p !in MentionedIn(chosen)
    ensures DependentsIn(chosen, p) == {}
    decreases |chosen|
  {
    if chosen != [] {
      UnmentionedHasNoDependents(chosen[..|chosen| - 1], p);
    }
  }

  /** `graph` is the dependency graph of the recorded manifests `chosen`. */
  ghost predicate GraphOf(graph: map<PackageName, set<PackageName>>, chosen: seq<Manifest>)
  {
    && graph.Keys == MentionedIn(chosen)
    && forall p :: p in graph ==> graph[p] == DependentsIn(chosen, p)
  }

  /** Recording one more manifest keeps the graph that of the recorded manifests. */
  lemma RecordGraph(c: Crawled, chosen: seq<Manifest>, m: Manifest, texts: seq<string>)
    requires GraphOf(c.graph, chosen)
    ensures GraphOf(Record(c, m, texts).graph, chosen + [m])
  {
    var next := chosen + [m];
    assert next[..|next| - 1] == chosen;
    var r := Record(c, m, texts).graph;
    forall x | x in r ensures r[x] == DependentsIn(next, x) {
      RecordGraphAt(c.graph, chosen, m, x);
    }
  }

  lemma RecordGraphAt(graph: map<PackageName, set<PackageName>>, chosen: seq<Manifest>, m: Manifest, x: PackageName)
    requires GraphOf(graph, chosen)
    requires x in graph || x == m.package.name || x in DependencyNames(m)
    ensures WithDependent(if m.package.name in graph then graph else graph[m.package.name := {}], m.package.name, DependencyNames(m))[x]
      == DependentsIn(chosen + [m], x)
  {
    var next := chosen + [m];
    assert next[..|next| - 1] == chosen;
    if x !in graph {
      UnmentionedHasNoDependents(chosen, x);
    }
  }

  /** What the crawl of a prefix has recorded: the graph of the recorded manifests, and documents only for recorded packages. */
  ghost predicate CrawledFrom(c: Crawled, chosen: seq<Manifest>)
  {
    && GraphOf(c.graph, chosen)
    && forall p :: p in c.docs ==> LastNamed(chosen, p)
  }

  /** Some recorded manifest names `p`. */
  ghost predicate LastNamed(chosen: seq<Manifest>, p: PackageName)
  {
    exists k :: 0 <= k < |chosen| && chosen[k].package.name == p
  }

  /** Recording a manifest keeps the crawl that of the recorded manifests. */
  lemma RecordStep(c: Crawled, chosen: seq<Manifest>, m: Manifest, texts: seq<string>)
    requires CrawledFrom(c, chosen)
    ensures CrawledFrom(Record(c, m, texts), chosen + [m])
  {
    RecordGraph(c, chosen, m, texts);
    var next := chosen + [m];
    forall p | p in Record(c, m, texts).docs ensures LastNamed(next, p) {
      if p == m.package.name {
        assert next[|chosen|] == m;
      } else {
        var k :| 0 <= k < |chosen| && chosen[k].package.name == p;
        assert next[k] == chosen[k];
      }
    }
  }

  lemma VersionsStep(c: Crawled, chosen: seq<Manifest>, versions: seq<Manifest>)
    requires CrawledFrom(c, chosen)
    ensures CrawledFrom(CrawlVersions(c, versions), chosen + ChosenOf(versions))
  {
    match FirstRelease(versions)
    case None =>
      assert chosen + [] == chosen;
    case Some(i) =>
      RecordStep(c, chosen, versions[i], VersionTexts(versions, i + 1));
  }

  lemma VisitStep(c: Crawled, chosen: seq<Manifest>, e: WalkEntry, rootName: string, files: map<PackageName, string>, codec: Codec)
    requires CrawledFrom(c, chosen) && Visit(c, e, rootName, files, codec).Ok?
    ensures CrawledFrom(Visit(c, e, rootName, files, codec).value, chosen + EntryChosen(e, rootName, files, codec))
  {
    if !Reached(e) || e.isDir {
      assert chosen + [] == chosen;
    } else {
      var versions := ReadPackage(files, New(ScopeOf(e, rootName), e.fileName).value, codec).value;
      VersionsStep(c, chosen, versions);
    }
  }

  lemma {:induction false} CrawlIsChosen(entries: seq<WalkEntry>, rootName: string, files: map<PackageName, string>, codec: Codec)
    requires CrawlEntries(entries, rootName, files, codec).Ok?
    ensures CrawledFrom(CrawlEntries(entries, rootName, files, codec).value, Chosen(entries, rootName, files, codec))
    decreases |entries|
  {
    if entries != [] {
      var init := entries[..|entries| - 1];
      CrawlIsChosen(init, rootName, files, codec);
      VisitStep(CrawlEntries(init, rootName, files, codec).value, Chosen(init, rootName, files, codec), entries[|entries| - 1], rootName, files, codec);
    }
  }

  /** In a crawl that records `chosen`, a document's count is the number of its dependents among `chosen`. */
  lemma CountOf(c: Crawled, chosen: seq<Manifest>, p: PackageName)
    requires CrawledFrom(c, chosen) && c.docs.Keys <= c.graph.Keys && p in c.docs
    ensures Documents(c)[p].dependentCount == |DependentsIn(chosen, p)|
  {
  }

  /**
   * The dependent count of every document is the number of distinct
   * packages whose recorded manifest names it in any of its three
   * dependency tables (`DependentsInMeaning`, `DependencyNamesMeaning`).
   */
  lemma DependentCountMeaning(entries: seq<WalkEntry>, rootName: string, files: map<PackageName, string>, codec: Codec, p: PackageName)
    requires CrawlEntries(entries, rootName, files, codec).Ok?
    requires p in Documents(CrawlEntries(entries, rootName, files, codec).value)
    ensures Documents(CrawlEntries(entries, rootName, files, codec).value)[p].dependentCount ==
      |DependentsIn(Chosen(entries, rootName, files, codec), p)|
  {
    CrawlIsChosen(entries, rootName, files, codec);
    CountOf(CrawlEntries(entries, rootName, files, codec).value, Chosen(entries, rootName, files, codec), p);
  }

  /** Only packages the crawl recorded have documents. */
  lemma DocumentedWereRecorded(entries: seq<WalkEntry>, rootName: string, files: map<PackageName, string>, codec: Codec, p: PackageName)
    requires CrawlEntries(entries, rootName, files, codec).Ok?
    requires p in Documents(CrawlEntries(entries, rootName, files, codec).value)
    ensures exists k :: 0 <= k < |Chosen(entries, rootName, files, codec)| && Chosen(entries, rootName, files, codec)[k].package.name == p
  {
    CrawlIsChosen(entries, rootName, files, codec);
    assert LastNamed(Chosen(entries, rootName, files, codec), p);
  }

  /** A package whose versions are all pre-releases gets no document and adds nothing to the graph. */
  lemma PrereleasesOnlyNoDocument(c: Crawled, versions: seq<Manifest>)
    requires forall k :: 0 <= k < |versions| ==> IsPrerelease(versions[k].package.version)
    ensures CrawlVersions(c, versions) == c
  {
  }

  /**
   * The document a package file yields when version `i` is its first
   * non-pre-release: filed under that version's package name, with its
   * scope, name and description, listing every version up to and including
   * it, in index order; no other document changes.
   */
  lemma ReleaseDocument(c: Crawled, versions: seq<Manifest>, i: nat)
    requires i < |versions| && !IsPrerelease(versions[i].package.version)
    requires forall k :: 0 <= k < i ==> IsPrerelease(versions[k].package.version)
    ensures CrawlVersions(c, versions).docs == c.docs[versions[i].package.name :=
      SearchDocument(versions[i].package.name.scope, versions[i].package.name.name,
        VersionTexts(versions, i + 1), versions[i].package.description, 0)]
  {
    var r := FirstRelease(versions);
    assert r.Some?;
    assert r.value == i;
  }

  /** A crawl that fails leaves the failure of the first entry that fails, whatever entries follow. */
  lemma {:induction false} CrawlStopsAtError(entries: seq<WalkEntry>, n: nat, rootName: string, files: map<PackageName, string>, codec: Codec)
    requires n <= |entries| && CrawlEntries(entries[..n], rootName, files, codec).Err?
    ensures CrawlEntries(entries, rootName, files, codec) == CrawlEntries(entries[..n], rootName, files, codec)
    decreases |entries| - n
  {
    if n < |entries| {
      assert entries[..n + 1][..n] == entries[..n];
      CrawlStopsAtError(entries, n + 1, rootName, files, codec);
    } else {
      assert entries[..n] == entries;
    }
  }

  // ---------------------------------------------------------------------
  // The backend
  // ---------------------------------------------------------------------

  /** `query_input.replace('/', " ")`. */
  function QueryText(query: string): (r: string)
    ensures |r| == |query|
    ensures forall i :: 0 <= i < |r| ==> r[i] == (if query[i] == '/' then ' ' else query[i])
    ensures forall i :: 0 <= i < |r| ==> r[i] != '/'
  {
    ReplaceChar(query, '/', ' ')
  }

  /**
   * The text engine: given the stored documents and a query text, the
   * matching documents best first, or the query parser's error.
   */
  type Engine = (map<PackageName, SearchDocument>, string) -> Result<seq<SearchDocument>, string>

  /** `SearchBackend`: the documents its reader sees once the writer has committed. */
  class SearchBackend {
    var documents: map<PackageName, SearchDocument>

    /** A backend with an empty search index. */
    constructor()
      ensures documents == map[]
    {
      documents := map[];
    }

    /**
     * `crawl_packages`: walk the index and replace the documents by one for
     * each package, counting its dependents. A failure returns before the
     * commit, so the documents the reader sees stay as they were.
     */
    method CrawlPackages(index: PackageIndex, entries: seq<WalkEntry>, rootName: string, codec: Codec) returns (r: Result<(), CrawlError>)
      requires index.Coherent(codec)
      modifies this, index
      ensures index.packageFiles == old(index.packageFiles) && index.ownerFiles == old(index.ownerFiles)
      ensures index.Coherent(codec)
      ensures r.Ok? <==> CrawlEntries(entries, rootName, index.packageFiles, codec).Ok?
      ensures r.Err? ==> r.error == CrawlEntries(entries, rootName, index.packageFiles, codec).error && documents == old(documents)
      ensures r.Ok? ==> documents == Documents(CrawlEntries(entries, rootName, index.packageFiles, codec).value)
    {
      ghost var files := index.packageFiles;
      var docs: map<PackageName, SearchDocument> := map[];
      var graph: map<PackageName, set<PackageName>> := map[];
      for i := 0 to |entries|
        invariant index.packageFiles == files && index.ownerFiles == old(index.ownerFiles) && index.Coherent(codec)
        invariant documents == old(documents)
        invariant CrawlEntries(entries[..i], rootName, files, codec) == Ok(Crawled(docs, graph))
      {
        assert entries[..i + 1][..i] == entries[..i];
        var next := VisitEntry(index, docs, graph, entries[i], rootName, codec);
        if next.Err? {
          CrawlStopsAtError(entries, i + 1, rootName, files, codec);
          return Err(next.error);
        }
        docs, graph := next.value.docs, next.value.graph;
      }
      assert entries[..|entries|] == entries;
      documents := CountDependents(docs, graph);
      r := Ok(());
    }

    /**
     * `search`: the engine runs on the query with every `/` made a space,
     * and at most `DOC_LIMIT` of its documents, best first, are returned.
     */
    method Search(query: string, engine: Engine) returns (r: Result<seq<SearchDocument>, string>)
      ensures r.Err? <==> engine(documents, QueryText(query)).Err?
      ensures r.Err? ==> r.error == engine(documents, QueryText(query)).error
      ensures r.Ok? ==> |r.value| <= DOC_LIMIT
      ensures r.Ok? ==> r.value == engine(documents, QueryText(query)).value[..Min(DOC_LIMIT, |engine(documents, QueryText(query)).value|)]
    {
      var text := QueryText(query);
      var found := engine(documents, text);
      if found.Err? {
        return Err(found.error);
      }
      var top := found.value[..Min(DOC_LIMIT, |found.value|)];
      var docs: seq<SearchDocument> := [];
      for k := 0 to |top|
        invariant docs == top[..k]
      {
        docs := docs + [top[k]];
      }
      assert top[..|top|] == top;
      r := Ok(docs);
    }
  }

  function Min(a: nat, b: nat): nat { if a < b then a else b }

  /** The body of the walk loop for one entry. */
  method VisitEntry(index: PackageIndex, docs: map<PackageName, SearchDocument>, graph: map<PackageName, set<PackageName>>,
                    e: WalkEntry, rootName: string, codec: Codec) returns (r: Result<Crawled, CrawlError>)
    requires index.Coherent(codec)
    modifies index
    ensures index.packageFiles == old(index.packageFiles) && index.ownerFiles == old(index.ownerFiles)
    ensures index.Coherent(codec)
    ensures r == Visit(Crawled(docs, graph), e, rootName, index.packageFiles, codec)
  {
    if !Reached(e) || e.isDir {
      return Ok(Crawled(docs, graph));
    }
    var name := New(ScopeOf(e, rootName), e.fileName);
    if name.Err? {
      return Err(NotAPackage(name.error));
    }
    var metadata := index.GetPackageMetadata(name.value, codec);
    if metadata.Err? {
      return Err(Unreadable(metadata.error));
    }
    var texts, chosen := ChooseVersion(metadata.value);
    if chosen.None? {
      return Ok(Crawled(docs, graph));
    }
    var c := RecordRelease(docs, graph, metadata.value[chosen.value], texts);
    r := Ok(c);
  }

  /** What the loop stores for the chosen manifest, before its `break`. */
  method RecordRelease(docs: map<PackageName, SearchDocument>, graph: map<PackageName, set<PackageName>>,
                       manifest: Manifest, texts: seq<string>) returns (r: Crawled)
    ensures r == Record(Crawled(docs, graph), manifest, texts)
  {
    var package := manifest.package.name;
    var docs' := docs[package := SearchDocument(package.scope, package.name, texts, manifest.package.description, 0)];
    var graph' := graph;
    if package !in graph' {
      graph' := graph'[package := {}];
    }
    graph' := AddDependentsOf(graph', package, ReqsOf(manifest));
    ReqsOfNames(manifest);
    r := Crawled(docs', graph');
  }

  /** The inner loop over a package's versions: each version's text is added until the first non-pre-release, which ends it. */
  method ChooseVersion(versions: seq<Manifest>) returns (texts: seq<string>, chosen: Option<nat>)
    ensures chosen == FirstRelease(versions)
    ensures chosen.Some? ==> texts == VersionTexts(versions, chosen.value + 1)
  {
    texts := [];
    for k := 0 to |versions|
      invariant texts == VersionTexts(versions, k)
      invariant FirstReleaseFrom(versions, k) == FirstRelease(versions)
    {
      texts := AddVersionText(texts, versions, k);
      if !IsPrerelease(versions[k].package.version) {
        return texts, Some(k);
      }
    }
    chosen := None;
  }

  /** `doc.add_text(versions, manifest.package.version.to_string())`. */
  method AddVersionText(texts: seq<string>, versions: seq<Manifest>, k: nat) returns (r: seq<string>)
    requires k < |versions| && texts == VersionTexts(versions, k)
    ensures r == VersionTexts(versions, k + 1)
  {
    r := texts + [VersionToString(versions[k].package.version)];
  }

  /** The `for_each` over the chained dependency tables. */
  method AddDependentsOf(graph: map<PackageName, set<PackageName>>, package: PackageName, reqs: seq<PackageReq>) returns (r: map<PackageName, set<PackageName>>)
    ensures r == WithDependent(graph, package, ReqNames(reqs))
  {
    r := graph;
    for k := 0 to |reqs|
      invariant r == AddDependents(graph, package, reqs[..k])
    {
      assert reqs[..k + 1][..k] == reqs[..k];
      var dependency := reqs[k].name;
      var dependents := if dependency in r then r[dependency] else {};
      r := r[dependency := dependents + {package}];
    }
    assert reqs[..|reqs|] == reqs;
    AddDependentsMeaning(graph, package, reqs);
  }

  /** The final loop: each document with the size of `dependency_graph.get(package)`. */
  method CountDependents(docs: map<PackageName, SearchDocument>, graph: map<PackageName, set<PackageName>>) returns (r: map<PackageName, SearchDocument>)
    requires docs.Keys <= graph.Keys
    ensures r == Documents(Crawled(docs, graph))
  {
    r := map[];
    var remaining := docs.Keys;
    while remaining != {}
      invariant remaining <= docs.Keys
      invariant r.Keys == docs.Keys - remaining
      invariant forall p :: p in r ==> r[p] == docs[p].(dependentCount := |graph[p]|)
      decreases |remaining|
    {
      var p :| p in remaining;
      r := r[p := docs[p].(dependentCount := |graph[p]|)];
      remaining := remaining - {p};
    }
  }
}
