# Wally, modelled in Dafny

This project models the core of Wally, a package manager for Roblox, in Dafny: the command-line library, the registry server and the registry website's generator. It proves properties of that model. One module covers each source file:

- **Package identifiers.**
  - `PackageNames`, `PackageIds`, `PackageReqs`, `PackagePaths` and `PackageLocations` model the validators, the parsers and the printers, each with its print-then-parse round trip.
  - `Manifests` models the realm rules and the manifest's defaults.
  - `Semver` models versions, pre-releases, precedence and requirements as the `semver` crate implements Semantic Versioning 2.0.0 (section 2, section 9 and section 11). Build metadata and wildcard requirements are not modelled.
- **The resolver.**
  - `ResolutionRules` holds the pure rules: the origin-realm join, SemVer compatibility, and how already-activated packages and candidates are ranked.
  - `Resolution` holds `Resolve` as a class whose activated set, metadata and dependency graphs change in place, and the work-queue loop that drains dependency requests.
  - Both invariants are proved: the activated set is the metadata's key set, and no two activated packages with the same name have compatible versions.
- **Installation and packaging.** `Installation` models the realm directories, directory names, link texts, the realm-to-realm link table, the link-writing loops, the downloads and `clean`. `PackageContentsModel` models the include/exclude filter, the directory walk and the archive entries.
- **Sources and the index.**
  - `PackageSources` models the breadth-first fallback discovery.
  - `InMemory` models the in-memory test registry.
  - `PackageIndexes` models the index files, the owner lists and the metadata cache.
  - `GitUtil` models the credential callback's two flags and the checks around a push.
  - `SearchCommand` models the registry traversal of `wally search`.
- **Manifest editing.**
  - `TomlDocuments` models the `wally.toml` document as ordered tables that keep insertion order.
  - `CommandUtils`, `AddCommand`, `RemoveCommand` and `UpdateCommand` model the CLI commands that edit the document or choose what the lockfile keeps.
- **The registry.**
  - `BackendAuth` models the authentication modes and the read and write decisions.
  - `RegistryServer` models the client-version gate, archive serving and publishing.
  - `RegistrySearch` models the search crawl and its dependent counts.
  - `LocalStorages` models file storage of archives.
  - `ApiErrors` is the error type the endpoints answer with.
- **The website.** `SiteGenerator` models the crawl of `generator.js` over routes, with the route key corrected as the third finding describes: visited-set deduplication, the sitemap and route-to-file mapping. `Capitalize` models the frontend's `capitalize`.
- **Shared helpers.** `Wrappers`, `Strings`, `Sorting` (Rust's ordered collections and `sort_by` as an insertion sort), `Paths` (Unix `std::path` joins) and `Bytes`.

How the source's state appears in the model:

- State the source changes in place is a Dafny class with `modifies` clauses: `Resolve`, `PackageSourceMap`, `InMemoryRegistry`, `PackageIndex`, `CredentialsCallback`, `SearchBackend`, `LocalStorage`, the installation `FileSystem`, the manifest file and the site generator's `SiteBuilder`. Loops in the source are loops here, each proved against a specification function.
- Foreign code is abstracted:
  - I/O, git, JSON, TOML parsing, zip, glob matching, hashing and rendering become parameters or are left out.
  - Rust's `char::is_alphanumeric` is a parameter that agrees with ASCII on ASCII characters.
- Some source properties hold by the definition of a model function rather than by a separate lemma: `PackageReqs.MatchesNameVersion`, `PackageReqs.MatchesId`, `PackageLocations.LocationMatches`, `PackageLocations.LocationMatchesId` and `RegistrySearch.IsConfig`.
- The `Semver` module models the `semver` crate. That crate's source is not part of this model, so its members have no rows below; the rows that use them cite the Wally files.

## Model

| member | source | states |
|---|---|---|
| PackageNames.ValidateScope | src/package_name.rs:49-67 | no error exactly when the scope is 1 to 64 characters, each an ASCII lower-case letter, digit or `-`; a bad character is reported before emptiness or length |
| PackageNames.ValidateName | src/package_name.rs:69-87 | the same rule and order of checks for the name part |
| PackageNames.New | src/package_name.rs:26-38 | succeeds exactly when both parts are valid, and then keeps them unchanged; an invalid scope is the error reported |
| PackageNames.Parse | src/package_name.rs:95-107 | a text with no `/` is refused as not scoped; an accepted text is a valid name that prints back as that same text |
| PackageNames.ParseToString | src/package_name.rs:89-107 | parsing the printed form (`SCOPE/NAME`, also the serialized form) of a valid name gives the name back |
| PackageNames.ParseRejectsTwoSlashes | src/package_name.rs:95-107 | any text with two `/` is refused: the split is at the first one and the name then holds a `/` |
| PackageNames.CompareNamesProperties | src/package_name.rs:17-23 | the derived order on (scope, name) is antisymmetric and is `Equal` exactly for equal names |
| PackageNames.NameLessTransitive | src/package_name.rs:17-23 | the derived order is transitive |
| PackageIds.ParseId | src/package_id.rs:49-70 | no `/`, or no `@` after the first `/`, is a format error; an accepted text is a valid id that prints back as that text |
| PackageIds.ParseIdOfString | src/package_id.rs:43-82 | parsing the printed form `SCOPE/NAME@VERSION` (also the serialized form) of a valid id gives the id back |
| PackageIds.ParseIdNeedsFullVersion | src/package_id.rs:61-65 | a version text too short to hold `MAJOR.MINOR.PATCH`, including the empty one, is a version error |
| PackageIds.CompareIdsProperties | src/package_id.rs:19-23 | the derived order (name, then version precedence) is antisymmetric and `Equal` only for equal ids |
| PackageIds.IdLessTransitive | src/package_id.rs:19-23 | the derived order is transitive |
| PackageReqs.LeadingCount | src/package_req.rs:57 | counts exactly the run of `c` at the start of the text |
| PackageReqs.TrimStartMatches | src/package_req.rs:57 | the result is a suffix of the text and no longer starts with `c` |
| PackageReqs.ParsePackageReq | src/package_req.rs:64-95 | no `/`, or no `@` after the first `/`, is a format error; an accepted requirement has a valid name and at least one comparator |
| PackageReqs.BlankRequirementRefused | src/package_req.rs:78-86 | an empty or all-whitespace requirement is a format error whatever the scope and name |
| PackageReqs.BareCaretRoundTrip | src/package_req.rs:47-62 | a single `^` comparator prints as its bare version, which parses back to that same `^` requirement |
| PackageReqs.BarePartialParses | src/package_req.rs:153-163 | a bare version such as `1.2.3` is read as the caret requirement `^1.2.3` |
| PackageReqs.ParsePackageReqOfString | src/package_req.rs:47-102 | parsing the printed (and serialized) form of a valid requirement gives the requirement back |
| PackagePaths.ParsePackagePath | src/package_path.rs:48-64 | an error for no `+` exactly when the text has none; a location type other than `fs` is refused with that type; an accepted path prints back as the input |
| PackagePaths.ParsePackagePathOfString | src/package_path.rs:42-71 | parsing the printed (and serialized) `fs+PATH` gives the path back, whatever it holds |
| PackagePaths.ParseFsExample | src/package_path.rs:115-120 | `fs+hello/world` names the path `hello/world` |
| PackagePaths.ParseGitRefused | src/package_path.rs:56-61 | `git+...` is refused as not `fs` |
| PackagePaths.RequirementOf | src/package_path.rs:35-38 | the requirement carries the manifest's package name |
| PackagePaths.GetPackageReq | src/package_path.rs:28-39 | a manifest that fails to load is that error; otherwise the requirement of the loaded manifest |
| PackagePaths.RequirementOfMatchesOnlyItself | src/package_path.rs:32-39 | the requirement a path dependency stands for is met by its manifest's own id and by no other id |
| PackageLocations.LocationName | src/package_location.rs:19-24 | the wrapped requirement's name, for each variant |
| PackageLocations.LocationVersionReq | src/package_location.rs:26-31 | the wrapped requirement's version requirement, for each variant |
| PackageLocations.LocationMatchesRequirement | src/package_location.rs:33-39 | a location matches an id exactly when its name equals the id's name and its requirement admits the id's version, which is what the wrapped requirement matches |
| PackageLocations.PathLocationMatchesOnlyItself | src/package_location.rs:33-39 | a path location matches its manifest's id and nothing else |
| Manifests.ParseRealm | src/manifest.rs:170-176 | exactly the three lower-case names are realms, and each is the serialized name of the realm read |
| Manifests.RealmNameRoundTrip | src/manifest.rs:170-176 | the three serialized names are distinct and each reads back as its realm |
| Manifests.IsDependencyValid | src/manifest.rs:178-186 | a dependency is allowed exactly when, if the dependent is shared, the dependency is shared too |
| Manifests.DefaultPlaceInfo | src/manifest.rs:161-168 | the default place has neither a shared nor a server packages location |
| Manifests.ManifestId | src/manifest.rs:52-54 | the id pairs the package's name and version |
| Manifests.FromTables | src/manifest.rs:17-31 | the place and each of the three dependency tables default to empty when absent and are kept when present |
| ResolutionRules.RealmJoin | src/resolution.rs:146-152 | the merged origin is one of the two realms and ranks at least as high as both (Dev < Server < Shared) |
| ResolutionRules.RealmJoinLaws | src/resolution.rs:138-152 | the origin merge is commutative, idempotent and associative, with Dev as its unit |
| ResolutionRules.CompatibleByKey | src/resolution.rs:301-311 | two versions are compatible exactly when they share the major and, for a 0 major, the minor |
| ResolutionRules.CompatibleEquivalence | src/resolution.rs:301-311 | compatibility is reflexive, symmetric and transitive |
| ResolutionRules.CaretMatchesAreCompatible | src/resolution.rs:212-218 | every version a `^v` requirement admits is compatible with `v` |
| ResolutionRules.IdGreaterIsStrictTotalOrder | src/resolution.rs:125-127 | descending id order is a strict total order |
| ResolutionRules.SameNameIdLess | src/resolution.rs:125-127 | between ids of one package, id order is version order |
| ResolutionRules.MatchingActivated | src/resolution.rs:116-127 | exactly the activated ids with the requested name, in strictly descending version order |
| ResolutionRules.FirstMatchIsHighest | src/resolution.rs:129-132 | the first activated id the request matches has the highest version among all matching activated ids |
| ResolutionRules.CandidateLeIsTotalPreorder | src/resolution.rs:194-203 | the candidate comparator (lockfile members first, then descending version) is a total preorder |
| ResolutionRules.SortCandidates | src/resolution.rs:188-203 | a permutation of the answer in which no lockfile member follows a non-member and versions descend within each group |
| ResolutionRules.SortedCandidatesPreferLockfile | src/resolution.rs:194-203 | of two sorted candidates, a later lockfile member implies an earlier one, and within the same group the earlier is not the lower version |
| ResolutionRules.RealmValidCandidates | src/resolution.rs:205-207 | exactly the candidates whose realm the request realm may depend on |
| ResolutionRules.RealmValidKeepsOrder | src/resolution.rs:205-207 | filtering keeps the candidate order |
| ResolutionRules.RequestsFor | src/resolution.rs:84-112 | one request per table entry |
| ResolutionRules.RequestsForTable | src/resolution.rs:84-112 | every queued request carries the given source and realms and an entry of the table, and every alias of the table is queued |
| Resolution.AddEdge | src/resolution.rs:42-47 | the source's entry is created when missing and gains `alias -> dep`; every other edge is kept |
| Resolution.AddEdgeWithin | src/resolution.rs:39-48 | an edge between activated packages keeps every edge between activated packages |
| Resolution.ConsistentAddEdge | src/resolution.rs:39-48 | adding an edge between activated packages to the graph of any realm keeps the resolver's invariant |
| Resolution.ConsistentActivate | src/resolution.rs:209-249 | a candidate compatible with no activated package of its name is new, and activating it with its metadata keeps the invariant (activated set is the metadata's key set, no compatible duplicates) |
| Resolution.Resolve.constructor | src/resolution.rs:18-36 | the default resolve is empty in every field |
| Resolution.Resolve.Activate | src/resolution.rs:39-48 | `dep` joins the activated set and the edge goes into the graph of `dep_realm` only; metadata is unchanged |
| Resolution.InMemoryAnswersWithin | src/package_source/in_memory.rs:69-93 | sources answering from in-memory registries filled by `publish` meet both facts the resolver relies on: every answer meets the request, and its id is a published one |
| Resolution.FromFirstAnswer | src/resolution.rs:167-186 | a candidate of the first answering source meets the request (name and version requirement) and that source is listed |
| Resolution.FindReusable | src/resolution.rs:129-165 | the first entry of the descending list the request accepts, and none when no entry does |
| Resolution.SelectCandidate | src/resolution.rs:209-272 | the first filtered candidate compatible with no activated package of the name; every candidate before it conflicts and is listed, in order, as conflicting; no candidate chosen and none conflicting only when there were no candidates |
| Resolution.QueueEntries | src/resolution.rs:251-269 | the queue gains one request per entry, in order, after what it held |
| Resolution.QueueRequests | src/resolution.rs:84-112 | the queue gains the requests of a table in key order |
| Resolution.RequestsFromActivated | src/resolution.rs:251-269 | requests from an activated package come from an activated package |
| Resolution.ReuseActivated | src/resolution.rs:131-163 | the reused package's origin becomes the join of its origin and the request's, the edge goes into the graph of that joined realm, and the invariant and the root are kept |
| Resolution.ActivateCandidate | src/resolution.rs:230-249 | the new candidate joins the activated set with metadata (its realm, the request's origin, the answering source), the edge goes into the graph of the request's origin realm, and the invariant and the root are kept |
| Resolution.FindCandidate | src/resolution.rs:167-295 | either the first candidate, ranked and realm-filtered, of the first answering source that conflicts with no activated package of the name; or no source answered; or no candidate passed the realm filter; or every such candidate conflicted |
| Resolution.SatisfiedAddEdge | src/resolution.rs:39-48 | recording a request's edge to a package it accepts, in any realm's graph, keeps every served request answered and every edge justified |
| Resolution.ResolveRequest | src/resolution.rs:115-296 | one turn. A reuse takes the highest activated package the request accepts, joins its origin realm, adds the edge in the joined realm's graph and queues nothing. An activation happens only when no activated package matches: it takes the first conflict-free candidate of the ranked, realm-filtered first answer, records its metadata (its realm, the request's origin, the answering source), adds the edge in the origin realm's graph and queues its shared, then server requests. A failure changes nothing and carries the no-source, no-match or conflict facts. After any success the request is satisfied |
| Resolution.QueueCandidate | src/resolution.rs:251-269 | the queue gains the candidate's shared, then server requests with the parent's origin |
| Resolution.ResolveGraph | src/resolution.rs:62-299 | a result keeps the invariant (activated set equals the metadata keys, no two compatible versions of one name, every edge between activated packages) and the root activated with its own realm and the default registry. Every request of the root, and of every other activated package (with the manifest it was activated from, found in the first answer of its source), was served: each has an edge under its source and alias, and each edge leads to an activated package that a request of that source and alias accepts. A missing source means every source refused the request |
| Resolution.DrainQueue | src/resolution.rs:114-296 | the loop keeps the invariant and the root and ends, turn by turn, on an empty queue or the first failure; on an empty queue every request it started with, and every request of every package it activated, was served and is satisfied |
| Resolution.DrainStep | src/resolution.rs:115-296 | one turn keeps the loop's bookkeeping (served, chosen and still-queued requests) and shrinks the measure |
| Resolution.InitialRequests | src/resolution.rs:81-112 | the root's shared, then server, then dev requests, each with that realm as request and origin |
| PackageSources.FirstAnswer | src/resolution.rs:167-186 | none exactly when every listed source refuses the query; otherwise the answer of the first source whose query succeeds, every earlier one having refused |
| PackageSources.PackageSourceMap.constructor | src/package_source.rs:32-40 | the map holds only the default registry, which is also the whole order |
| PackageSources.PackageSourceMap.Get | src/package_source.rs:42-44 | the registered source, and none exactly when the id is not registered |
| PackageSources.PackageSourceMap.AddFallbacks | src/package_source.rs:50-79 | the order only grows, keeping the registered sources and default registry first and listing no source twice; on success every listed source has been visited and all its fallbacks are listed, each new source first named by the earliest source that names it (breadth first) |
| PackageSources.Search | src/package_source.rs:53-79 | the `while` loop: the same promises on the order and the table it grows |
| PackageSources.VisitSource | src/package_source.rs:56-75 | one visit: a source that cannot list its fallbacks is that error with nothing added; otherwise its fallbacks are all listed afterwards |
| PackageSources.AddNamed | src/package_source.rs:59-73 | the `for` loop: on success every fallback named is listed, and what was there stays |
| PackageSources.ConsiderFallback | src/package_source.rs:60-72 | a listed fallback is skipped; a new one is opened and appended; only a git fallback that fails to open is an error |
| PackageSources.AppendKeepsProgress | src/package_source.rs:60-72 | appending a fallback first named by the source being visited keeps the search state and shrinks what is left to find |
| PackageSources.VisitedKeepsProgress | src/package_source.rs:75 | a source whose fallbacks are all listed counts as visited |
| InMemory.MatchingManifests | src/package_source/in_memory.rs:81-90 | only manifests whose version the requirement admits, no more of them than entries |
| InMemory.MatchingManifestsComplete | src/package_source/in_memory.rs:81-90 | a manifest is returned exactly when some entry carries it and its version matches |
| InMemory.MatchingManifestsAppend | src/package_source/in_memory.rs:81-90 | the filter keeps publish order: a later matching entry comes later |
| InMemory.Query | src/package_source/in_memory.rs:69-93 | never fails; empty when the scope or the name is unknown; every manifest returned matches the requirement |
| InMemory.FirstWithVersion | src/package_source/in_memory.rs:105-108 | the first entry with the version, and none exactly when no entry has it |
| InMemory.Download | src/package_source/in_memory.rs:95-111 | "does not exist" exactly when no entry of the id's scope and name has its version; otherwise the contents of the first entry that does |
| InMemory.InMemoryRegistry.constructor | src/package_source/in_memory.rs:27-31 | nothing is published |
| InMemory.InMemoryRegistry.Publish | src/package_source/in_memory.rs:34-47 | the entry is appended to the list of its scope and name, created when missing; every other list is unchanged; every entry stays filed under its own name |
| InMemory.QueryMeetsRequest | src/package_source/in_memory.rs:69-93 | on storage filled by `publish`, every manifest a query answers has the requested name and a version the requirement admits, and is a published one |
| InMemory.InMemoryRegistry.Source | src/package_source/in_memory.rs:50-115 | the source's update succeeds, its fallbacks fail, and its query and download answer from the storage |
| InMemory.QueryAfterPublish | src/package_source/in_memory.rs:34-93 | after a publish, a query of that package sees the new manifest at the end exactly when it matches; other queries are unchanged |
| InMemory.DownloadKeepsFirst | src/package_source/in_memory.rs:105-108 | publishing a second entry with a version already present does not change which one is downloaded |
| PackageIndexes.PackagePathMeaning | src/package_index.rs:239-246 | a package file lies inside the index, two valid packages share a file only when they are the same package, and no package file is a scope's owners file |
| PackageIndexes.HexEncode | src/package_index.rs:262 | two lower-case hex digits per byte |
| PackageIndexes.HexDecodeEncode | src/package_index.rs:262 | the hex text gives back the bytes it encodes |
| PackageIndexes.IndexIdentMeaning | src/package_index.rs:255-263 | the directory name is the registry name, a dash and 16 hex digits that decode to the first 8 bytes of the URL's hash |
| PackageIndexes.IndexPath | src/package_index.rs:254-272 | fails, with "no cache directory", exactly when there is no cache directory |
| PackageIndexes.ReadPackage | src/package_index.rs:155-175 | fails exactly when the file is missing or a line does not parse; otherwise gives every entry of the file |
| PackageIndexes.Appended | src/package_index.rs:116-130 | the old file followed by the entry and a newline; the entry and a newline when the file is new |
| PackageIndexes.ReadAfterAppend | src/package_index.rs:112-182 | after a publish, a fresh read of the package gives its earlier entries followed by the new manifest |
| PackageIndexes.ScopeOwners | src/package_index.rs:185-200 | a missing owners file means no owners; otherwise the parsed owners or the parse error |
| PackageIndexes.Overwrite | src/package_index.rs:222-225 | a write without truncation: the new text first, and the old file's tail kept when the new text is shorter |
| PackageIndexes.PackageIndex.constructor | src/package_index.rs:51-66 | the files as found, and an empty cache |
| PackageIndexes.PackageIndex.EmptyCacheCoherent | src/package_index.rs:59 | an empty cache agrees with the files |
| PackageIndexes.PackageIndex.GetPackageMetadata | src/package_index.rs:149-182 | a hit returns the cached entries; a miss reads the file and caches it only when it parses; a cache that agreed with the files still does, and the answer is a fresh read's |
| PackageIndexes.PackageIndex.Publish | src/package_index.rs:112-146 | the entry is appended before the push; a failed push leaves the cache alone; a successful one evicts the package and keeps the cache in agreement with the files |
| PackageIndexes.PackageIndex.IsScopeOwner | src/package_index.rs:203-206 | true exactly when the id is among the scope's owners; the owners' error otherwise; false for a scope without an owners file |
| PackageIndexes.PackageIndex.AddScopeOwner | src/package_index.rs:211-237 | an unreadable owners file is the error and changes nothing; otherwise the list with the new id is written over the old file and the push decides the result |
| PackageIndexes.AddedOwnerIsLast | src/package_index.rs:211-237 | when the new text is not shorter than the old file, reading back gives the earlier owners followed by the new one |
| GitUtil.Respond | src/git_util.rs:29-49 | the token is offered exactly on a plaintext request when one is configured and not yet tried, the helper exactly on a plaintext request without a token and not yet tried; otherwise default credentials when accepted, else no authentication; the flags only ever turn on |
| GitUtil.CredentialsCallback.constructor | src/git_util.rs:22-28 | the captured token, neither flag set |
| GitUtil.CredentialsCallback.Call | src/git_util.rs:29-49 | answers and updates its flags as Respond says |
| GitUtil.Answers | src/git_util.rs:29-49 | one answer per request |
| GitUtil.NoTokenAfterTried | src/git_util.rs:31-35 | once tried, the token is never offered again |
| GitUtil.NoHelperAfterTried | src/git_util.rs:36-40 | once tried, the credential helper is never offered again |
| GitUtil.NoHelperWithToken | src/git_util.rs:30-41 | with a token configured the credential helper is never offered |
| GitUtil.OfferedAtMostOnce | src/git_util.rs:26-49 | over a callback's lifetime the token and the helper are each offered at most once |
| GitUtil.FirstPlaintextRequest | src/git_util.rs:30-41 | a fresh callback answers a first plaintext request with the token, or with the helper when there is none |
| GitUtil.LastOfInit | src/git_util.rs:173-180 | an accepted last update leaves the last rejection as it was |
| GitUtil.LastRejection | src/git_util.rs:173-180 | none exactly when every update was accepted; otherwise a rejection with no later one |
| GitUtil.CommitOutcomeMeaning | src/git_util.rs:135-191 | the push succeeds exactly when the file lies under the index, libgit2's steps succeed, the callback was called and every reference update was accepted; a file outside the index is "not relative"; "callback not called" exactly when no update arrived |
| GitUtil.IndexFileIsRelative | src/git_util.rs:144-151 | a file joined under the index passes the relative-path check |
| GitUtil.CommitAndPush | src/git_util.rs:135-191 | the result is the outcome above; the loop over the reference updates keeps the last rejection |
| GitUtil.StageFiles | src/git_util.rs:67-75 | a path is staged exactly when the walk yields it as a file not under `.git`; no more paths than entries |
| GitUtil.StagedByComponent | src/git_util.rs:71 | the `.git` test is by path component: `.git/HEAD` is skipped and `.gitignore` is staged |
| CommandUtils.AsTableName | src/commands/utils.rs:36-42 | the shared realm's table is `dependencies`; every other realm's is its manifest name followed by `-dependencies` |
| CommandUtils.AsTableNameInjective | src/commands/utils.rs:36-42 | each realm has its own table |
| CommandUtils.ParseSpec | src/commands/utils.rs:22-33 | a requirement when the text parses as one, else a bare name when it parses as one, and an error exactly when it is neither |
| CommandUtils.NoAtIsNamed | src/commands/utils.rs:22-33 | a text without `@` can only be a bare name |
| CommandUtils.ParseSpecOfName | src/commands/utils.rs:11-33 | a printed valid name parses back as that name, and its short name is the name's |
| CommandUtils.ParseSpecOfReq | src/commands/utils.rs:11-33 | a printed valid requirement parses back as that requirement |
| CommandUtils.SpecNameValid | src/commands/utils.rs:11-16 | the short name of a parsed spec obeys the naming rule and is the name of the package it refers to |
| AddCommand.CompareKeyProperties | src/commands/add.rs:215-217 | keys tie exactly when they agree up to ASCII case, and swapping them reverses the answer (Unicode lower-casing is left out) |
| AddCommand.CompareKeyNotGreaterTransitive | src/commands/add.rs:215-217 | "not above" in key order is transitive |
| AddCommand.CompareKeyListsMeaning | src/commands/add.rs:201-213 | once the first pairs tie, the pair after them decides, or the lengths do when one list is used up |
| AddCommand.CompareSingleKeys | src/commands/add.rs:201-213 | one-key paths compare as their keys do |
| AddCommand.KeyPaths | src/commands/add.rs:186 | one single-key path per entry, in table order |
| AddCommand.SortedAsWrittenMeaning | src/commands/add.rs:185-199 | the check as written accepts exactly the strictly ascending tables, agrees with the intended check whenever it does not panic, and panics only when an adjacent pair ties |
| AddCommand.SortedAsWrittenPanicsOnCaseTwins | src/commands/add.rs:192-198 | a table with the distinct keys `Roact` and `roact` reaches the `unreachable!` |
| AddCommand.EntryLeIsTotalPreorder | src/commands/add.rs:127 | the case-insensitive key order used to sort is total and transitive |
| AddCommand.SortedAdjacentIsSorted | src/commands/add.rs:185-199 | the intended adjacent check holds exactly when the whole table is in key order |
| AddCommand.AdjacentToPairwise | src/commands/add.rs:191 | ascending neighbours make every pair ascending |
| AddCommand.IntoCaretReq | src/commands/add.rs:170-183 | a requirement on that package with a single caret comparator |
| AddCommand.IntoCaretReqMatches | src/commands/add.rs:170-183 | the requirement admits the version it was made from and nothing of lower precedence |
| AddCommand.IntoCaretReqText | src/commands/add.rs:170-183 | the requirement is written `scope/name@version` and parses back unchanged |
| AddCommand.CaretReqValid | src/commands/add.rs:173-181 | the caret requirement of a valid version is valid |
| AddCommand.CaretTextIsVersion | src/commands/add.rs:173-181 | the caret comparator prints as the version it was made from |
| AddCommand.LatestVersion | src/commands/add.rs:87-90 | a version some manifest has, with no manifest of higher precedence |
| AddCommand.RequirementForMeaning | src/commands/add.rs:83-105 | a bare name succeeds exactly when some release is listed, and then takes a caret on a highest one; a requirement succeeds exactly when something matches it and is kept as given |
| AddCommand.ParsePackageParam | src/commands/add.rs:157-167 | without `:` the whole text is the spec and there is no alias; an alias never holds `:` |
| AddCommand.ParsePackageParamOfText | src/commands/add.rs:157-167 | an alias without `:`, a `:` and a printed spec parse back as that alias and spec |
| AddCommand.AliasOf | src/commands/add.rs:75-80 | the explicit alias or the short name with every `-` replaced by `_` and every other character kept |
| AddCommand.AliasOfNameChars | src/commands/add.rs:75-80 | a default alias is non-empty and made of lower-case letters, digits and `_` |
| AddCommand.AddOne | src/commands/add.rs:74-124 | one package is added exactly when its requirement is found and its alias is new, and then its entry is appended; a taken alias is "already exists" |
| AddCommand.AllAddableStep | src/commands/add.rs:74-124 | the packages are addable exactly when the first one is and the rest are addable to the grown table |
| AddCommand.AddableRest | src/commands/add.rs:74-124 | addable packages leave the rest addable after the first |
| AddCommand.AddableAll | src/commands/add.rs:74-124 | a first addable package and an addable rest make all addable |
| AddCommand.AddAllSucceeds | src/commands/add.rs:74-124 | the loop succeeds exactly when every requirement is found and every alias is new to the table and to the packages before it |
| AddCommand.NewEntriesAt | src/commands/add.rs:123 | one new entry per package, in command order |
| AddCommand.SnocConcat | src/commands/add.rs:123 | appending one entry and then the rest is appending both |
| AddCommand.AddAllEntries | src/commands/add.rs:74-124 | after a successful loop the table is the old one followed by the new entries |
| AddCommand.ReorderMeaning | src/commands/add.rs:126-134 | re-sorting keeps the same entries and puts them in key order; an unsorted table keeps its order |
| AddCommand.AddToDocument | src/commands/add.rs:35-37 | corrected: an empty package list is refused (the re-sort uses the corrected sortedness check) |
| AddCommand.AddToDocumentMeaning | src/commands/add.rs:34-144 | corrected: with the sortedness check of the first finding, after a successful add the realm's table is a table holding the old entries and one new entry per package, re-sorted when it was sorted before, and every other key of the document is unchanged |
| AddCommand.AddedUnique | src/commands/add.rs:107-113 | the grown table repeats no key exactly when the old one did not |
| AddCommand.AliasTakenFails | src/commands/add.rs:107-113 | an alias already in the table makes the whole command fail |
| AddCommand.Add | src/commands/add.rs:34-144 | corrected: the file is rewritten with the new document exactly when the add succeeds, and left alone on every error |
| AddCommand.AddEntries | src/commands/add.rs:74-124 | the loop computes the whole insertion, stopping at the first failure |
| RemoveCommand.DashedAliasRejectedAsWritten | src/commands/remove.rs:139-141 | as written, the alias `wally add` derives from a dashed package name cannot be named for removal |
| RemoveCommand.UnderscoreTargetRejectedAsWritten | src/commands/remove.rs:131-141 | as written, the target `it_isnt_there` is refused; the corrected rule accepts it |
| RemoveCommand.ValidIdentifierWidens | src/commands/remove.rs:139-141 | the corrected rule accepts everything the written one does, and differs from it only on `_` |
| RemoveCommand.ParseAliasTarget | src/commands/remove.rs:122-137 | corrected (aliases may hold `_`): a text without `:` is a bare alias, accepted exactly when it is an identifier; a text with one is a realm name, `:` and the alias; an accepted alias is always an identifier |
| RemoveCommand.ParseAliasTargetOfText | src/commands/remove.rs:122-137 | corrected (aliases may hold `_`): a written target reads back unchanged when its alias is an identifier |
| RemoveCommand.AddedAliasRemovable | src/commands/remove.rs:122-141 | with the corrected rule, every alias `wally add` derives from a package name parses as a removal target |
| RemoveCommand.RemoveFromRealmMeaning | src/commands/remove.rs:92-114 | fails exactly when the realm's item is not a table; otherwise only that table changes, only that alias goes, what was under it is reported, and nothing changes when it was absent |
| RemoveCommand.CheckRemoved | src/commands/remove.rs:63-78 | fails exactly when the removed item is not a string |
| RemoveCommand.EveryRealmListed | src/commands/remove.rs:10 | the realm list holds every realm |
| RemoveCommand.TargetRealms | src/commands/remove.rs:36-48 | a target with a realm touches that realm alone; one without touches every realm |
| RemoveCommand.KeepsEntriesTransitive | src/commands/remove.rs:35-49 | keeping every other entry composes over successive removals |
| RemoveCommand.RemoveFromRealmKeeps | src/commands/remove.rs:92-114 | one removal keeps every other entry of every table |
| RemoveCommand.RemoveFromRealmLacks | src/commands/remove.rs:112 | after one removal the realm's table lacks the alias |
| RemoveCommand.RemoveFromRealmsKeeps | src/commands/remove.rs:41-47 | removing from several realms keeps every other entry of every table |
| RemoveCommand.RemoveFromRealmsLacks | src/commands/remove.rs:41-47 | after removing from several realms none of their tables holds the alias |
| RemoveCommand.RemoveFromRealmsOthers | src/commands/remove.rs:41-47 | no document key but those realms' tables changes |
| RemoveCommand.RemoveFromRealmPreservesLacks | src/commands/remove.rs:92-114 | a removal keeps a table lacking any alias it lacked |
| RemoveCommand.RemovePreservesLacks | src/commands/remove.rs:41-47 | several removals keep a table lacking any alias it lacked |
| RemoveCommand.RemoveFromDocument | src/commands/remove.rs:26-28 | an empty target list is refused |
| RemoveCommand.AllTableNames | src/commands/remove.rs:10 | the three realms' tables are `server-dependencies`, `dependencies` and `dev-dependencies` |
| RemoveCommand.RemoveTargetMeaning | src/commands/remove.rs:35-49 | a target with a realm empties only that table of the alias; one without leaves no realm's table holding it; keys other than the dependency tables never change; every other entry is kept |
| RemoveCommand.RemoveTargetErrors | src/commands/remove.rs:36-114 | a target with a realm fails exactly when that item is not a table or the alias holds something other than a string |
| RemoveCommand.LacksStaysAfterTarget | src/commands/remove.rs:35-49 | a later target keeps an alias absent |
| RemoveCommand.RemoveTargetPreservesGone | src/commands/remove.rs:35-49 | a later target keeps an earlier one gone |
| RemoveCommand.RemoveAllPreservesGone | src/commands/remove.rs:35-49 | the remaining targets keep an earlier one gone |
| RemoveCommand.RemoveAllMeaning | src/commands/remove.rs:35-49 | after every target is handled, none is left in the realms it named, and every key other than the dependency tables is unchanged |
| RemoveCommand.RemoveAllGone | src/commands/remove.rs:35-49 | after every target is handled, none is left in the realms it named |
| RemoveCommand.GoneAfterTarget | src/commands/remove.rs:36-48 | a handled target is gone from its realms |
| RemoveCommand.RemoveAllKeepsOthers | src/commands/remove.rs:35-49 | keys other than the dependency tables never change |
| RemoveCommand.AbsentAliasChangesNothing | src/commands/remove.rs:92-114 | an alias in none of the tables is removed without error and without change |
| RemoveCommand.RemoveDependencies | src/commands/remove.rs:25-60 | the file gets the new document exactly when every target was handled, and is left alone on every error |
| RemoveCommand.RemoveAllFrom | src/commands/remove.rs:35-49 | the loop over the targets computes the whole removal, stopping at the first error |
| RemoveCommand.RemoveTargetFrom | src/commands/remove.rs:36-48 | the loop over one target's realms computes its removal, stopping at the first error |
| UpdateCommand.SatisfiesTargets | src/commands/update.rs:151-160 | true exactly when some target is satisfied: a bare name by any version of it, a requirement by what it matches |
| UpdateCommand.TryToUse | src/commands/update.rs:57-80 | no targets keep nothing; otherwise exactly the locked ids that satisfy no target are kept |
| UpdateCommand.TryToUseLocked | src/commands/update.rs:66-70 | only locked ids are kept, and only when targets were given |
| UpdateCommand.NamedTargetFrees | src/commands/update.rs:155 | a bare-name target frees every locked version of that package |
| UpdateCommand.RequiredTargetKeepsOthers | src/commands/update.rs:156-158 | with one requirement, a locked id is kept exactly when the requirement does not match it |
| UpdateCommand.TryToUseShrinks | src/commands/update.rs:66-70 | naming more targets keeps no more locked ids |
| UpdateCommand.DistinctAtMostLength | src/commands/update.rs:66-70 | collecting into a set yields no more ids than were listed |
| UpdateCommand.SelectedCountNatural | src/commands/update.rs:72-77 | the count of selected dependencies never goes below zero |
| SearchCommand.AddNew | src/commands/search.rs:45-50 | the list only grows, stays free of repeats, gains exactly the fallbacks not yet listed, and everything it gains is a fallback |
| SearchCommand.InvStep | src/commands/search.rs:37-53 | one iteration keeps the loop invariant: the project's registry first, no repeats, every loaded registry's fallbacks listed, every later registry named by an earlier loaded one |
| SearchCommand.ParentsStep | src/commands/search.rs:45-50 | every registry pushed in an iteration is named by the registry just loaded |
| SearchCommand.ExploreLoads | src/commands/search.rs:37-53 | from any state meeting the invariant, a loop that completes has loaded what the traversal promises |
| SearchCommand.TraverseLoads | src/commands/search.rs:33-53 | at most `max_depth` indexes are loaded, the project's registry first, each registry once, each later one named as a fallback by an earlier one; stopping short of `max_depth` means every registry reachable through fallbacks was loaded |
| SearchCommand.TraverseFailsOnRoot | src/commands/search.rs:39-41 | a registry whose index cannot be opened ends the search with that error |
| SearchCommand.TraverseDepthZero | src/commands/search.rs:37 | with a depth of zero nothing is loaded |
| SearchCommand.PushNew | src/commands/search.rs:45-50 | the inner loop pushes exactly the new fallbacks, in order |
| SearchCommand.PrefixKept | src/commands/search.rs:43-50 | pushing keeps the registries already listed |
| SearchCommand.LoadRegistries | src/commands/search.rs:33-53 | the `while` loop loads exactly the registries of the traversal, or fails with the first error |
| BackendAuth.DebugText | wally-registry-backend/src/auth.rs:42-51 | one fixed text per kind of mode |
| BackendAuth.DebugHidesKeys | wally-registry-backend/src/auth.rs:42-51 | two modes of the same kind log the same text, so no key reaches the log |
| BackendAuth.BearerToken | wally-registry-backend/src/auth.rs:54-61 | a token exactly when the header is present and starts with "Bearer ", and then the rest of the header, trimmed |
| BackendAuth.TrimSkipsSpace | wally-registry-backend/src/auth.rs:55 | the space left at byte 6 makes no difference to the trimmed token |
| BackendAuth.TrimFromFirstNonSpace | wally-registry-backend/src/auth.rs:55 | `trim` depends only on the text after the leading whitespace |
| BackendAuth.TrimIs | wally-registry-backend/src/auth.rs:55 | `trim` keeps the text after the leading whitespace, less its trailing whitespace |
| BackendAuth.SliceOfSuffix | wally-registry-backend/src/auth.rs:55 | slicing a suffix is slicing the whole text |
| BackendAuth.TrimOfRest | wally-registry-backend/src/auth.rs:55 | `trim` is the slice between the leading and the trailing whitespace |
| BackendAuth.LeadingPastWhitespace | wally-registry-backend/src/auth.rs:55 | added leading whitespace adds to the leading count |
| BackendAuth.TrimPastWhitespace | wally-registry-backend/src/auth.rs:55 | leading whitespace makes no difference to `trim` |
| BackendAuth.MatchApiKey | wally-registry-backend/src/auth.rs:53-70 | succeeds with the given result exactly when the bearer token equals the key; every failure is 401, "API key required" when there is no bearer token |
| BackendAuth.BearerTokenOf | wally-registry-backend/src/auth.rs:54-61 | "Bearer " and a text give that text, trimmed |
| BackendAuth.BearerKeyAccepted | wally-registry-backend/src/auth.rs:53-70 | "Bearer <key>" is accepted for a key without whitespace at either end |
| BackendAuth.PaddedKeyAccepted | wally-registry-backend/src/auth.rs:53-70 | whitespace between "Bearer " and the key is ignored |
| BackendAuth.UntrimmedKeyNeverMatches | wally-registry-backend/src/auth.rs:53-70 | a configured key with whitespace at either end matches no header |
| BackendAuth.ReadAccessFor | wally-registry-backend/src/auth.rs:112-131 | public when the mode has no read key; otherwise accepted exactly when the bearer token is the read key, and refused with 401 |
| BackendAuth.ReadPublicExactly | wally-registry-backend/src/auth.rs:121-129 | reads are public exactly without authentication, under GitHub OAuth, or with a double key that has no read key |
| BackendAuth.VerifyGithubToken | wally-registry-backend/src/auth.rs:72-104 | no bearer token is 401; a failed request to GitHub is 500; an unreadable answer is 401; otherwise the GitHub user |
| BackendAuth.WriteAccessFor | wally-registry-backend/src/auth.rs:165-185 | refused without authentication; with a key mode accepted exactly when the bearer token is the write key; under OAuth what GitHub says; only OAuth yields a GitHub writer |
| BackendAuth.NoWriteWithoutHeader | wally-registry-backend/src/auth.rs:165-185 | no mode lets a request without an `authorization` header write |
| BackendAuth.DoubleKeyReadsPublicWritesNeedKey | wally-registry-backend/src/auth.rs:125-181 | with a double key and no read key anyone reads, a write without a key is refused, and the write key writes |
| BackendAuth.ReadKeyDoesNotWrite | wally-registry-backend/src/auth.rs:125-181 | with two different keys the read key reads but does not write |
| BackendAuth.CanWritePackage | wally-registry-backend/src/auth.rs:139-161 | a key holder may write anything; a GitHub user may write exactly to a scope they own or to an unowned scope named after their lower-cased login; an unreadable owners file is the error |
| BackendAuth.FirstPublisherClaimsScope | wally-registry-backend/src/auth.rs:151-155 | the first GitHub user to publish to a scope named after their login may write it |
| BackendAuth.OwnedScopeIsClosed | wally-registry-backend/src/auth.rs:148-157 | once a scope has owners, a non-owner may not write it, whatever their login |
| RegistryServer.VersionGate | wally-registry-backend/src/main.rs:335-377 | no minimum admits every request; a missing header is 426; an unparsable one is 400; otherwise admitted exactly when the client's version is not below the minimum, and 426 when it is |
| RegistryServer.GateCompares | wally-registry-backend/src/main.rs:357-376 | a client sending its printed version is admitted exactly when it is not older than the minimum |
| RegistryServer.GateAdmitsMinimum | wally-registry-backend/src/main.rs:366 | the minimum version itself is admitted |
| RegistryServer.PackageContents | wally-registry-backend/src/main.rs:62-87 | the read guard's and then the version gate's error first; a bad name or version is 400; otherwise the stored archive, or 404 exactly when nothing is stored |
| RegistryServer.ContentsServed | wally-registry-backend/src/main.rs:74-86 | what was stored for a valid package is served at its URL; a version nothing was stored for is 404 |
| RegistryServer.NewOfValid | wally-registry-backend/src/main.rs:74-76 | a valid scope and name are accepted unchanged |
| RegistryServer.Admission | wally-registry-backend/src/main.rs:135-164 | the version gate, then the write guard, then the 2 MiB limit (400), then the archive and its manifest (400), then the write permission (500 when unreadable, 401 when refused), in that order; passing means all of them passed |
| RegistryServer.KeyWriterAdmitted | wally-registry-backend/src/main.rs:135-164 | an API-key writer past the gates is refused only for the body or the archive |
| RegistryServer.Publish | wally-registry-backend/src/main.rs:126-204 | a refused admission or a 401 changes nothing; a 409 leaves storage and package files alone; success stores the archive at the package's file, appends the manifest to the index, and happens only when the version was not listed; a GitHub writer who was not an owner is added as one; an already-listed version is refused, with 409 for an API-key writer |
| RegistryServer.RepublishConflicts | wally-registry-backend/src/main.rs:176-184 | after a successful publish, publishing the same archive again is 409 Conflict |
| RegistrySearch.FirstReleaseFrom | wally-registry-backend/src/search.rs:118-121 | the first version from that position on that is not a pre-release; every version before it is one, and none means all are |
| RegistrySearch.VersionTexts | wally-registry-backend/src/search.rs:119 | one version text per version looked at |
| RegistrySearch.VersionTextsAt | wally-registry-backend/src/search.rs:119 | text `k` is the display of version `k`, in index order |
| RegistrySearch.Values | wally-registry-backend/src/search.rs:136-140 | the requirements of a table's entries, in order |
| RegistrySearch.ReqNamesMeaning | wally-registry-backend/src/search.rs:141-147 | a package is named exactly when some requirement names it |
| RegistrySearch.EntriesList | wally-registry-backend/src/search.rs:136-140 | a table's listing holds exactly its entries |
| RegistrySearch.ListedNames | wally-registry-backend/src/search.rs:136-140 | the values of a table's listing name exactly its packages |
| RegistrySearch.ReqNamesAppend | wally-registry-backend/src/search.rs:136-140 | the names of chained requirements are the names of each part |
| RegistrySearch.ReqsOfNames | wally-registry-backend/src/search.rs:136-140 | the three chained tables name exactly the packages the manifest depends on |
| RegistrySearch.WithDependent | wally-registry-backend/src/search.rs:141-147 | the graph gains the dependencies as keys and nothing else |
| RegistrySearch.AddDependentsMeaning | wally-registry-backend/src/search.rs:141-147 | adding requirements one at a time makes the package a dependent of every package they name and changes nothing else |
| RegistrySearch.WithDependentStep | wally-registry-backend/src/search.rs:142-146 | one more dependency added is one more in the set |
| RegistrySearch.WithDependentStepAt | wally-registry-backend/src/search.rs:142-146 | the same, for one key of the graph |
| RegistrySearch.CrawlEntries | wally-registry-backend/src/search.rs:92-155 | every package with a document has an entry in the graph, so the count lookup cannot fail |
| RegistrySearch.VisitCovers | wally-registry-backend/src/search.rs:129-134 | a visit keeps every documented package in the graph |
| RegistrySearch.DependentsInMeaning | wally-registry-backend/src/search.rs:132-147 | a package depends on another exactly when its recorded manifest names it |
| RegistrySearch.UnmentionedHasNoDependents | wally-registry-backend/src/search.rs:132-147 | a package nothing mentions has no dependents |
| RegistrySearch.RecordGraph | wally-registry-backend/src/search.rs:129-147 | recording one more manifest keeps the graph that of the recorded manifests |
| RegistrySearch.RecordGraphAt | wally-registry-backend/src/search.rs:129-147 | the same, for one key of the graph |
| RegistrySearch.RecordStep | wally-registry-backend/src/search.rs:129-147 | recording keeps the crawl that of the recorded manifests, with documents only for recorded packages |
| RegistrySearch.VersionsStep | wally-registry-backend/src/search.rs:118-151 | the loop over one package's versions records its first release, or nothing |
| RegistrySearch.VisitStep | wally-registry-backend/src/search.rs:97-151 | one entry of the walk records what its package file chooses |
| RegistrySearch.CrawlIsChosen | wally-registry-backend/src/search.rs:92-152 | a completed walk holds the graph and the documents of the manifests it recorded |
| RegistrySearch.CountOf | wally-registry-backend/src/search.rs:154-157 | a document's count is the number of its dependents among the recorded manifests |
| RegistrySearch.DependentCountMeaning | wally-registry-backend/src/search.rs:92-160 | every document's count is the number of distinct packages whose recorded manifest depends on it through any of the three tables |
| RegistrySearch.DocumentedWereRecorded | wally-registry-backend/src/search.rs:129-130 | only recorded packages have documents |
| RegistrySearch.PrereleasesOnlyNoDocument | wally-registry-backend/src/search.rs:118-151 | a package whose versions are all pre-releases gets no document and changes no graph entry |
| RegistrySearch.ReleaseDocument | wally-registry-backend/src/search.rs:118-130 | the first release is filed under its package with its scope, name and description and every version up to it in index order; other documents do not change |
| RegistrySearch.CrawlStopsAtError | wally-registry-backend/src/search.rs:97-114 | the first failing entry ends the crawl with its error, whatever follows |
| RegistrySearch.QueryText | wally-registry-backend/src/search.rs:173 | the query with every `/` replaced by a space and every other character kept |
| RegistrySearch.SearchBackend.constructor | wally-registry-backend/src/search.rs:26-76 | the search index starts empty |
| RegistrySearch.SearchBackend.CrawlPackages | wally-registry-backend/src/search.rs:78-166 | the index's files are unchanged and its cache stays in agreement with them; on success the documents are exactly those of the crawl, with their dependent counts; on failure the reader still sees the old documents |
| RegistrySearch.SearchBackend.Search | wally-registry-backend/src/search.rs:168-209 | the engine's error, or at most 100 of its documents, best first, for the query with `/` made spaces |
| RegistrySearch.VisitEntry | wally-registry-backend/src/search.rs:97-151 | one turn of the walk loop skips directories and configuration entries, fails on a bad name or an unreadable entry, otherwise records the chosen version |
| RegistrySearch.RecordRelease | wally-registry-backend/src/search.rs:122-147 | stores the document and the package's dependency edges |
| RegistrySearch.ChooseVersion | wally-registry-backend/src/search.rs:118-151 | the first release, and the texts of every version up to it |
| RegistrySearch.AddVersionText | wally-registry-backend/src/search.rs:119 | one more version text |
| RegistrySearch.AddDependentsOf | wally-registry-backend/src/search.rs:136-147 | the package becomes a dependent of exactly the packages its requirements name |
| RegistrySearch.CountDependents | wally-registry-backend/src/search.rs:154-160 | each document gets the size of its dependent set |
| LocalStorages.BaseOf | wally-registry-backend/src/storage/local.rs:53 | the base directory is `packages` when none is configured |
| LocalStorages.PackageFile | wally-registry-backend/src/storage/local.rs:52-64 | an accepted path lies below the base directory; the only error is the escape refusal |
| LocalStorages.VersionTextStartsWithDigit | wally-registry-backend/src/storage/local.rs:56 | a printed version starts with a digit, so the archive name adds no separator |
| LocalStorages.PackageFileOfValid | wally-registry-backend/src/storage/local.rs:52-64 | for a valid package name the path is accepted and is exactly `<base>/<scope>/<name>/<version>.zip` |
| LocalStorages.AbsoluteScopeRefused | wally-registry-backend/src/storage/local.rs:52-61 | a scope written as an absolute path leaves the base directory and is refused |
| LocalStorages.PackageFileInjective | wally-registry-backend/src/storage/local.rs:52-64 | two valid package versions share a storage path only when they are the same |
| LocalStorages.ThreeLevelInjective | wally-registry-backend/src/storage/local.rs:54-56 | paths of three slash-free levels below one root agree level by level |
| LocalStorages.SlashSplitInjective | wally-registry-backend/src/storage/local.rs:54-55 | splitting at the first separator of a slash-free head is unique |
| LocalStorages.VersionFileInjective | wally-registry-backend/src/storage/local.rs:56 | distinct valid versions have distinct archive names |
| LocalStorages.ReadFrom | wally-registry-backend/src/storage/local.rs:23-30 | a read succeeds exactly when the path is accepted and the file exists, and then gives its contents |
| LocalStorages.ReadAfterStore | wally-registry-backend/src/storage/local.rs:23-49 | storing an archive makes it readable and changes what no other package version reads |
| LocalStorages.LocalStorage.constructor | wally-registry-backend/src/storage/local.rs:16-18 | the storage keeps its base directory |
| LocalStorages.LocalStorage.Read | wally-registry-backend/src/storage/local.rs:23-30 | reads the package's archive from the current files |
| LocalStorages.LocalStorage.Write | wally-registry-backend/src/storage/local.rs:32-49 | refuses an escaping path, refuses an existing file without touching it, otherwise creates the file, which then reads back as written |
| PackageContentsModel.BuildExcludes | src/package_contents.rs:92-109 | the manifest's excludes, then the `.gitignore` lines only when there are no includes and the file exists, then the four default patterns, in that order |
| PackageContentsModel.KeepIncludesFirst | src/package_contents.rs:117-125 | an include match keeps a path whatever the excludes say; otherwise a path is kept exactly when no exclude matches it |
| PackageContentsModel.DefaultExclusionsApply | src/package_contents.rs:106-125 | a path one of the default patterns matches is dropped, whatever the manifest excludes, unless an include matches it |
| PackageContentsModel.Walk | src/package_contents.rs:114-128 | every listed path passes the filter |
| PackageContentsModel.WalkPrunes | src/package_contents.rs:117-126 | nothing below a rejected entry is listed |
| PackageContentsModel.WalkKeeps | src/package_contents.rs:114-128 | a kept entry is listed before what lies below it |
| PackageContentsModel.ArchiveName | src/package_contents.rs:39-42 | the same length, no `\` left, every other character kept |
| PackageContentsModel.PackEntries | src/package_contents.rs:30-80 | on success one archive entry per walked path, each the entry for that path; fails exactly when some `default.project.json` has no readable name |
| PackageContentsModel.PackEntry | src/package_contents.rs:44-74 | fails exactly on an unreadable project name, otherwise gives the entry for the path |
| PackageContentsModel.ReadableStops | src/package_contents.rs:53-56 | one unreadable project name stops the packing |
| PackageContentsModel.ReadableStep | src/package_contents.rs:30-75 | the readable prefix grows by a readable entry |
| PackageContentsModel.PackedSnoc | src/package_contents.rs:30-75 | appending the next entry keeps the archive the entries of the prefix walked |
| PackageContentsModel.EntryFor | src/package_contents.rs:39-74 | a directory entry for a directory and a file entry for a file, under the sanitised name; a file is copied unless it is `default.project.json`, whose name becomes the package's |
| PackageContentsModel.PackFromTree | src/package_contents.rs:23-149 | an invalid include or exclude pattern fails; on success the archive holds the entry for each path the walk keeps, in walk order, and no name holds `\` |
| Capitalize.Capitalize | wally-registry-frontend/src/utils/capitalize.ts:6-7 | empty exactly for an absent or empty text; otherwise the same length, the first character upper-cased and the rest kept |
| Capitalize.CapitalizeKeepsRest | wally-registry-frontend/src/utils/capitalize.ts:7 | every character after the first is unchanged |
| Capitalize.CapitalizeUnchanged | wally-registry-frontend/src/utils/capitalize.ts:7 | a text not starting with a lower-case letter is returned as it is |
| Capitalize.CapitalizedStartsUpper | wally-registry-frontend/src/utils/capitalize.ts:7 | the result never starts with a lower-case letter, and a lower-case first letter becomes upper-case |
| Capitalize.CapitalizeIdempotent | wally-registry-frontend/src/utils/capitalize.ts:6-7 | capitalizing twice is capitalizing once |
| TomlDocuments.HasKeySnoc | src/commands/add.rs:123 | after an appended entry a table has a key exactly when it had it before or the new entry has it |
| TomlDocuments.Lookup | src/commands/add.rs:107 | nothing exactly when the key is absent; otherwise an item the table holds under that key |
| TomlDocuments.LookupAt | src/commands/add.rs:107 | with unique keys, the lookup of an entry's key finds that entry's item |
| TomlDocuments.Remove | src/commands/remove.rs:112 | gives the item the key held; the key is gone; every other key finds what it found before; a missing key leaves the table as it was; keys stay unique |
| TomlDocuments.Set | src/commands/add.rs:123 | the key now finds the new item; an existing key keeps the table's length; a new key goes at the end; keys stay unique |
| TomlDocuments.ConsSnoc | src/commands/add.rs:123 | putting an entry in front commutes with appending one at the end |
| TomlDocuments.ConsKeys | src/commands/add.rs:107-123 | the keys of a table with a first entry are that key and the rest's keys, and they are unique exactly when the rest's are and do not repeat the first |
| TomlDocuments.SetOther | src/commands/add.rs:123 | setting one key leaves what every other key finds unchanged |
| TomlDocuments.SetSame | src/commands/add.rs:123 | putting back the item a key already holds changes nothing |
| TomlDocuments.ManifestFile.constructor | src/commands/add.rs:136 | the file holds the given document |
| SiteGenerator.KeyAsWrittenMergesWithRoot | wally-registry-frontend/generator.js:160-168 | as written, `/news/` gets the root's empty key, so it counts as visited once `/` is |
| SiteGenerator.KeyAsWrittenDropsPath | wally-registry-frontend/generator.js:161-164 | as written, every route ending in `/` with no line break becomes the empty key |
| SiteGenerator.KeyStripsOneSlash | wally-registry-frontend/generator.js:161-164 | the corrected key is the route, or the route without its one trailing slash |
| SiteGenerator.KeyOnlyMergesSlashVariants | wally-registry-frontend/generator.js:160-174 | under the corrected key, two routes are taken for one only when they differ by a trailing slash |
| SiteGenerator.KeyExamples | wally-registry-frontend/generator.js:161-164 | the corrected key keeps `/` as the empty key and maps `/news/` and `/news` both to `/news` |
| SiteGenerator.WordPrefix | wally-registry-frontend/generator.js:119 | the length of the longest run of word characters that starts the text |
| SiteGenerator.HasSchemeMeaning | wally-registry-frontend/generator.js:119 | the off-site test holds exactly when one or more word characters and then a colon begin the link |
| SiteGenerator.LinkRoute | wally-registry-frontend/generator.js:115-127 | off-site links give no route; a link under the base URL gives the rest of it; any other link is taken as it is |
| SiteGenerator.NonEmpty | wally-registry-frontend/generator.js:269-273 | only non-empty pieces of the route are kept |
| SiteGenerator.FilePathSegments | wally-registry-frontend/generator.js:266-278 | the file path splits back into the route's non-empty segments followed by `index.html` |
| SiteGenerator.FilePathOfRoot | wally-registry-frontend/generator.js:266-278 | the root route and the empty route are both saved to `index.html` |
| SiteGenerator.FilePathIgnoresEmptySegments | wally-registry-frontend/generator.js:269-273 | routes that differ only in empty segments are saved to the same file |
| SiteGenerator.JoinSnoc | wally-registry-frontend/generator.js:274 | joining one more piece puts one separator before it |
| SiteGenerator.NonEmptyJoin | wally-registry-frontend/generator.js:274 | joining non-empty pieces gives a non-empty path |
| SiteGenerator.JoinPieceStep | wally-registry-frontend/generator.js:274-277 | one `path.join` after the non-empty pieces so far is the join of one more piece |
| SiteGenerator.JoinNonEmpty | wally-registry-frontend/generator.js:267-275 | the loop leaves the non-empty pieces joined by `/` |
| SiteGenerator.RouteToFilePath | wally-registry-frontend/generator.js:266-278 | the route's non-empty segments, then `index.html`, joined by `/` |
| SiteGenerator.LinkRoutes | wally-registry-frontend/generator.js:114-128 | the links add only plain path routes |
| SiteGenerator.KeysOfMeaning | wally-registry-frontend/generator.js:166-167 | a key is among the pushed keys exactly when some pushed route has it |
| SiteGenerator.AddRouteValid | wally-registry-frontend/generator.js:160-174 | `addRoute` keeps the crawl's invariant: no key pushed twice, the visited set is the pushed keys, the sitemap is the keys of pushed routes not excluded from it, every pushed route rendered or on the stack exactly once |
| SiteGenerator.AddRoutesValid | wally-registry-frontend/generator.js:176 | adding a list of routes keeps the invariant |
| SiteGenerator.AddRoutesGrow | wally-registry-frontend/generator.js:160-176 | adding routes renders nothing, loses no key, takes in the key of each route added and nothing more, and pushes only when some key is new |
| SiteGenerator.AddRouteGrows | wally-registry-frontend/generator.js:160-174 | one `addRoute` renders nothing, adds the route's key, and pushes only when that key is new |
| SiteGenerator.VisitNextValid | wally-registry-frontend/generator.js:178-202 | one turn of the loop keeps the invariant, moving the popped route from the stack to the rendered routes |
| SiteGenerator.VisitNextClosed | wally-registry-frontend/generator.js:114-202 | after each turn the key of every link of every rendered page has been visited |
| SiteGenerator.VisitNextProgress | wally-registry-frontend/generator.js:178-202 | a turn keeps the visited keys within the link universe, and when no new key arrives the stack shrinks by one |
| SiteGenerator.Shrinks | wally-registry-frontend/generator.js:166-167 | visiting a new key shrinks what is left of the universe |
| SiteGenerator.SubsetCard | wally-registry-frontend/generator.js:166-167 | a subset is no larger than its superset |
| SiteGenerator.SitemapMeaning | wally-registry-frontend/generator.js:170-172 | the sitemap holds a key exactly when a pushed route with that key is not excluded from it |
| SiteGenerator.SitemapWitness | wally-registry-frontend/generator.js:170-172 | every sitemap key comes from a pushed route not excluded from it |
| SiteGenerator.SitemapHas | wally-registry-frontend/generator.js:170-172 | every pushed route not excluded from the sitemap has its key there |
| SiteGenerator.SitemapOnce | wally-registry-frontend/generator.js:157-171 | the sitemap lists no key twice |
| SiteGenerator.SitemapVisited | wally-registry-frontend/generator.js:166-172 | every sitemap key was visited |
| SiteGenerator.SiteBuilder.constructor | wally-registry-frontend/generator.js:156-158 | the crawl starts with no visited key, an empty sitemap, an empty stack and no page written |
| SiteGenerator.SiteBuilder.AddRoute | wally-registry-frontend/generator.js:160-174 | corrected (routes keyed by the corrected key of the third finding): the new state is that of `addRoute` on the old one; no page is written |
| SiteGenerator.SiteBuilder.AddRoutes | wally-registry-frontend/generator.js:176 | corrected (routes keyed by the corrected key of the third finding): the new state is that of adding each route in turn |
| SiteGenerator.SiteBuilder.AddLinks | wally-registry-frontend/generator.js:114-128 | corrected (routes keyed by the corrected key of the third finding): the new state is that of adding the routes the links name, in document order |
| SiteGenerator.SiteBuilder.VisitNext | wally-registry-frontend/generator.js:179-201 | corrected (routes keyed by the corrected key of the third finding): pops the last route pushed, adds the routes its page links to, and writes its page to its output path |
| SiteGenerator.SavedStep | wally-registry-frontend/generator.js:185-201 | writing the page of the route just rendered keeps every rendered route saved in order |
| SiteGenerator.VisitNextStep | wally-registry-frontend/generator.js:178-202 | a turn keeps the loop's invariant, renders the popped route, and moves the measure down |
| SiteGenerator.StartCrawling | wally-registry-frontend/generator.js:176 | pushing the initial routes starts a valid crawl holding all their keys |
| SiteGenerator.Build | wally-registry-frontend/generator.js:156-202 | corrected (routes keyed by the corrected key of the third finding): the loop ends with an empty stack, every pushed route rendered once and saved to its output path, every link of every rendered page visited, and every initial route visited |
| SiteGenerator.Crawl | wally-registry-frontend/generator.js:178-202 | corrected (routes keyed by the corrected key of the third finding): the loop runs until the stack is empty, keeping its invariant and losing no visited key |
| SiteGenerator.Turn | wally-registry-frontend/generator.js:178-202 | a turn that writes the popped route's page keeps the loop's invariant and moves the measure down |
| Installation.JoinLength | src/installation.rs:41-47 | joining a relative part adds at most one separator and ends with the part |
| Installation.ContextLayout | src/installation.rs:36-59 | each realm directory is a named child of the project, and each index is `_Index` inside its realm directory |
| Installation.ContextDistinct | src/installation.rs:36-59 | the three realms never share a directory or an index |
| Installation.ParseFileName | src/installation.rs:351-358 | a directory name that reads back gives a valid id whose directory name it is |
| Installation.RejoinFileName | src/installation.rs:351-358 | the directory name splits into scope, then name and version |
| Installation.NoUnderscoreInValidPart | src/installation.rs:351-358 | a valid scope or name holds neither `_` nor `@`, so `_` and `@` in the directory name are separators |
| Installation.ParseFileNameOfFileName | src/installation.rs:351-358 | the directory name of a valid id reads back as that id |
| Installation.FileNameInjective | src/installation.rs:351-358 | two valid package ids never share a directory name |
| Installation.ChooseLinkTable | src/installation.rs:272-319 | a package in the dependency's realm links within its index; otherwise the link goes to the server or shared index; a dev dependency is unreachable from another realm, and that is the only error |
| Installation.LinkText | src/installation.rs:180-249 | a same-index link climbs from the root to `_Index` or from a package to its siblings; a cross-index link starts from the configured place and fails exactly when that place is not configured |
| Installation.LinkForFails | src/installation.rs:200-279 | a link fails exactly for a dev dependency from another realm or a cross-index link with no configured place |
| Installation.SameRealmLinks | src/installation.rs:313 | a dependency in the same realm is always reachable, whatever the configured places |
| Installation.ApplyWritesAt | src/installation.rs:322 | after writes, a path holds what its last write put there and any other path is untouched |
| Installation.ApplyWritesAppend | src/installation.rs:322 | writes in two batches are the writes in one |
| Installation.Outside | src/installation.rs:63-71 | removing a directory keeps exactly the paths outside it, with their contents |
| Installation.FileSystem.constructor | src/installation.rs:282 | the file system holds the given files and unpacked archives |
| Installation.FileSystem.Write | src/installation.rs:322 | one path takes the text and nothing else changes |
| Installation.FileSystem.Unpack | src/installation.rs:343-344 | one directory takes the archive and no file changes |
| Installation.FileSystem.RemoveDirAll | src/installation.rs:63-71 | everything under the directory is removed and everything else kept |
| Installation.Clean | src/installation.rs:62-78 | nothing remains under the three realm directories and everything else keeps its contents |
| Installation.RunAllSteps | src/installation.rs:268-285 | the steps taken are the values of a prefix of the results, all of them when nothing fails |
| Installation.RunAllError | src/installation.rs:268-285 | a run fails exactly when some result is an error, and then with the first error, right after the steps before it |
| Installation.RunAllStops | src/installation.rs:268-285 | once a prefix has failed, the rest of the results do not matter |
| Installation.RunWrites | src/installation.rs:268-325 | the files are the old files after the steps of the run; an error exactly when the run fails, and the same error |
| Installation.LinkPlanMeaning | src/installation.rs:251-326 | a link plan writes each entry's link at `<alias>.lua` in order, and fails exactly when some link cannot be written, with the first such error after the links before it |
| Installation.WriteLinks | src/installation.rs:251-326 | the files after the link plan of the dependency map, and its error |
| Installation.DepsKnown | src/installation.rs:309 | every dependency of a map whose targets have metadata has metadata, so the `unwrap` cannot fail |
| Installation.WriteRealmLinks | src/installation.rs:109-141 | writes the links of one dependency graph of the package, from the root's realm directory or from the package's own directory, and nothing when it has no entry |
| Installation.WritePackageLinks | src/installation.rs:109-141 | writes the shared, then server, then dev links of one package, stopping at the first failure |
| Installation.IdLessIsStrictTotalOrder | src/installation.rs:106 | package ids are strictly and totally ordered, as a `BTreeSet` needs |
| Installation.InstallOrder | src/installation.rs:106 | the activated ids, each once, in strictly increasing order |
| Installation.AndThenAllError | src/installation.rs:106-163 | a sequence of link plans fails exactly when one does, and then with the first failure |
| Installation.AndThenAllSteps | src/installation.rs:106-163 | every link written belongs to one package's plan |
| Installation.AndThenAllSnoc | src/installation.rs:106-163 | a plan after plans that all succeeded adds its steps and its error |
| Installation.AndThenAllStops | src/installation.rs:106-163 | once a package's links fail, no later package's links are written |
| Installation.PackagePlans | src/installation.rs:106-142 | one link plan per package |
| Installation.WithoutMembers | src/installation.rs:115-127 | leaving out the root keeps exactly the other ids |
| Installation.WithoutFrom | src/installation.rs:115-127 | every id left is another id of the sequence |
| Installation.WithoutOrdered | src/installation.rs:115-127 | leaving out the root keeps the order |
| Installation.Fetches | src/installation.rs:127-162 | one download per package other than the root |
| Installation.FetchesCover | src/installation.rs:127-162 | the root is never downloaded; every other package is, in id order, so none twice |
| Installation.FetchesMembers | src/installation.rs:143-158 | each download is of a package other than the root, from its own source into its origin realm's index |
| Installation.FetchesComplete | src/installation.rs:127-162 | every package other than the root is downloaded |
| Installation.FetchesOrdered | src/installation.rs:106-161 | downloads are spawned in id order |
| Installation.UnpacksMeaning | src/installation.rs:328-347 | every successful download, and nothing else, is unpacked at `<index>/<directory name>/<short name>` |
| Installation.FirstFailureMeaning | src/installation.rs:167-171 | install succeeds exactly when every download does, and otherwise reports the first failure in spawn order |
| Installation.LinkedCount | src/installation.rs:106-142 | the number of packages before the first whose links fail: every plan before it succeeds and the plan at it fails |
| Installation.LinkedCountError | src/installation.rs:106-142 | the link writes fail exactly when fewer than all packages are linked, and then with the failing package's error |
| Installation.LinkedCountAt | src/installation.rs:106-142 | the count is the first failing package |
| Installation.FetchesSnoc | src/installation.rs:127-162 | one more package spawns one more download, unless it is the root |
| Installation.JoinAll | src/installation.rs:167-171 | the first failure in spawn order, after every task has run |
| Installation.LinkAndSpawn | src/installation.rs:106-162 | writes each package's links in id order and, for every package but the root, spawns its download and unpacks its contents on success; it stops at the first link failure with that error, after the downloads of the packages before it |
| Installation.Install | src/installation.rs:82-177 | the files are those of the link writes of every activated package in id order. The unpacked contents are those of the downloads spawned: those of the packages before the first whose links fail. A link failure is the error returned. When every link succeeds, every package but the root is downloaded and unpacked, and the first download failure is returned |
| Installation.InstallSpawnedMeaning | src/installation.rs:106-162 | the packages downloaded are exactly those other than the root before the first whose links fail; that one is not downloaded |
| Installation.ResolvedIsInstallable | src/installation.rs:109-149 | a resolver result has metadata for every activated package and every graph entry, and a source for every package, so the `unwrap`s cannot fail |
| Installation.PackageDirUnder | src/installation.rs:297-341 | a valid package's link and unpack directories lie inside its realm directory |
| Installation.LinkPathUnder | src/installation.rs:310 | a link file lies inside the directory it is written to |
| Installation.RealmLinksUnder | src/installation.rs:109-141 | the links of one graph lie under a realm directory |
| Installation.RealmStepAlias | src/installation.rs:308-310 | each link of a graph is written at `<alias>.lua` in the package's link directory |
| Installation.LinkBaseUnder | src/installation.rs:259-303 | a package's link directory lies under a realm directory |
| Installation.AndThenSteps | src/installation.rs:116-141 | a link of two plans run in turn belongs to one of them |
| Installation.PackageLinksUnder | src/installation.rs:109-141 | every link of one package lies under a realm directory |
| Installation.InstallStaysInRealms | src/installation.rs:62-163 | everything `install` writes or unpacks lies under one of the three realm directories, so `clean` removes it all |

## Left out

- Network access is not modelled: the registry download client, the GitHub device-flow login, the HTTP requests of `wally publish` and `wally search`, the GitHub token check (`verify_github_token` is a parameter), the GCS, S3 and GitHub storage backends, and the Postgres analytics.
- Git plumbing (clone, fetch, reset, staging, commit, push) is foreign code. It appears only through its outcomes: the push callback's reports and the list of files in the work tree.
- Concurrency is modelled sequentially: the tokio runtime, `spawn_blocking`, the progress bar, and the locks around the index, the search backend and the in-memory registry. All download tasks of `install` run to their end, and the first failure in spawn order is reported.
- Foreign formats are abstract:
  - JSON (a codec parameter);
  - TOML parsing (the document is handed over already parsed);
  - zip encoding (an archive is its list of entries);
  - glob matching (a parameter);
  - the blake3 hash of `index_path` (a parameter);
  - `WalkDir` (a directory tree with children in walk order).
- Semver: build metadata, wildcard comparators (`*`, `1.x`) and requirement syntax beyond comma-separated comparators are not modelled.
- Installation.Clean: always succeeds, because I/O errors other than a missing directory are not modelled. Directory creation (`create_dir_all`) is implied by the paths written.
- PackageContentsModel.PackFromTree: a path that is not valid Unicode, the I/O errors of reading files, and the panic vs. error distinction for a malformed `default.project.json` are not modelled. An unreadable project name is one error.
- The `.gitignore` of `filtered_contents` is read from the working directory, as the source does. The model takes its lines as a parameter and leaves open which file they came from.
- PackageIndexes: `config()`, `update()` and `new_temp` are I/O around git and are not modelled. The error raised when an owners file exists but cannot be read is not modelled either. Only a missing file is told apart.
- RegistryServer: the `package_info` and `package_search` handlers are not modelled, and neither are the `index.update()` call and the search re-crawl inside `publish` or the details of reading the manifest out of the uploaded archive. CORS and the configuration loading are wiring and are not modelled.
- BackendAuth.BearerToken: trimming is modelled for ASCII whitespace only, because Rust's Unicode `trim` and `to_lowercase` are not modelled. The login comparison lower-cases ASCII only.
- RemoveCommand.ParseAliasTarget: Rust's `char::is_alphanumeric` is a parameter that is only pinned down on ASCII characters, so non-ASCII aliases are decided by the parameter. The member also follows the corrected identifier rule of the second finding (aliases may hold `_`), not the source's alphanumeric-only check; the as-written rule is `RemoveCommand.ValidIdentifierAsWritten`.
- RemoveCommand.ParseAliasTargetOfText: follows the corrected identifier rule, so `wally remove my_pkg` parses here where the source refuses it.
- AddCommand.AddToDocument: follows the corrected sortedness check of the first finding. On a table holding two aliases equal up to case (`Roact`, `roact`) the source panics and writes nothing; the model treats the tie as sorted and re-sorts.
- AddCommand.AddToDocumentMeaning: states the corrected behaviour, including tables with case twins, where the source panics.
- AddCommand.Add: writes the manifest on tables with case twins, where the source panics before writing; it follows the corrected check.
- AddCommand.CompareKey: lower-cases ASCII letters only. Rust's Unicode `to_lowercase` is not modelled, so non-ASCII keys compare by code point.
- AddCommand.CompareKeyProperties: its tie clause is about ASCII case only, for the same reason.
- AddCommand.RequirementFor: an empty query answer is an `Err(NoVersions)` in the model; the source panics there (`packages.last().unwrap()`).
- SiteGenerator.KeyOf: is the corrected key of the third finding (strip one trailing `/`); the key as written is `SiteGenerator.KeyAsWritten`, which merges every route ending in `/` with the root.
- SiteGenerator.SiteBuilder.AddRoute: keys routes with the corrected key, so it does not reproduce the source's loss of every page whose route ends in `/`.
- SiteGenerator.SiteBuilder.AddRoutes: keys routes with the corrected key.
- SiteGenerator.SiteBuilder.AddLinks: keys links with the corrected key.
- SiteGenerator.SiteBuilder.VisitNext: keys routes with the corrected key.
- SiteGenerator.Build: builds the site of the corrected crawl, which renders `/news/`-style routes the source skips.
- SiteGenerator.Crawl: is the corrected crawl; the source's crawl differs on routes ending in `/`.
- Resolution.ResolveGraph: does not promise that each edge meets the requirement of the request that put it there. The source does not keep that: a root with shared `x = "a/x@^0.1"` and `y = "a/x@^0.2"` and dev `x = "a/x@>=0.1"` reuses 0.2.0 for the dev request, joins its realm to shared, and overwrites the shared edge under `x` with 0.2.0, which `^0.1` refuses. What is promised is that every served request has an edge under its source and alias, and each edge leads to an activated package that some served request of that source and alias accepts.
- Resolution.DrainQueue: the same weaker satisfaction property as `ResolveGraph`, for the same reason.
- Resolution.AnswersWithin: the resolver's proofs assume that sources answer only manifests that meet the request and lie in a finite universe. The sources filter their answers themselves (the registry source by name and version requirement, the in-memory one by version under the requested name), but the resolver does not re-check what a source answers. The assumption is proved for in-memory sources (`Resolution.InMemoryAnswersWithin`); the registry and git sources' query filters are not part of this model, so for them it stays a precondition.
- SearchCommand: only the registry traversal is modelled. The HTTP queries sent to each registry after the traversal, and the printed output, are not.
- UpdateCommand: only the `try_to_use` computation and the target matching are modelled. The resolve, install and lockfile writes that follow in `run` reuse the Resolution and Installation modules and are not modelled a second time.
- InMemory.InMemoryRegistry.Source: the source holds a snapshot of the registry rather than a shared `Arc`, so publishes made after the source was taken are not seen through it.
- InMemory: `fallback_sources` is an unimplemented `todo!()` in the source and is modelled as an error.
- RegistrySearch.SearchBackend.Search: tantivy's tokenising, n-grams, field boosts, scoring and the log2 popularity tweak are one ranking parameter. Only the query rewrite, the result limit and best-first order are modelled. The schema is not modelled either.
- RegistrySearch: the walk order and the I/O errors of `WalkDir` are not modelled. The walk is the list of entries it yields.
- Termination of the unbounded loops is proved under an assumption that the inputs lie in a finite universe. This applies to the resolver's work queue (query answers come from the ids the sources hold), `add_fallbacks` (every fallback id comes from a finite set of registries) and the site crawl (every link's key lies in a finite set of routes).
- SiteGenerator: rendering is a parameter that yields a page's HTML and its links. JSDOM, React and Parcel are not modelled, and neither is the meta-refresh redirect.
- SiteGenerator.Build: the `outDir` join with `path.join`'s normalisation is not modelled, and neither are the sitemap XML, the `CNAME` and `.nojekyll` files (switched off by `IS_GITHUB_PAGES`) or the image optimisation. `BASE_URL` comes from `PARCEL_PUBLIC_URL` in the environment and is a parameter; the case where it is unset is not modelled.
- Capitalize.Capitalize: upper-casing is modelled for ASCII letters only. JavaScript's Unicode `toUpperCase`, and its indexing by UTF-16 code units, are not modelled.
- Logging and `println!` output are not modelled anywhere.
- The React, Next.js and styled-components files of the website are UI and are not modelled, and neither are the build and server glue scripts.
- Thin wiring is not modelled: `main.rs`, `commands/mod.rs`, `install.rs`, `init.rs`, `login.rs`, `logout.rs`, `package.rs`, `publish.rs` and `manifest_to_json.rs`, `auth.rs` of the CLI, and `package_origin.rs`.

## Findings

| source | as written | input that shows it | evidently intended | confidence | as-written member | corrected member |
|---|---|---|---|---|---|---|
| src/commands/add.rs:192-198 | `is_table_lexicographically_sorted` calls `unreachable!` on `Ordering::Equal`, on the grounds that keys cannot repeat | a dependency table with the aliases `Roact` and `roact`: distinct keys that are equal once lower-cased, so `wally add` panics | the comment's `k[n] <= k[n + 1]`, treating a case-insensitive tie as sorted | not executed | AddCommand.SortedAsWrittenPanicsOnCaseTwins, AddCommand.SortedAsWrittenMeaning | AddCommand.SortedAdjacentIsSorted, AddCommand.AddToDocumentMeaning |
| src/commands/remove.rs:139-141 | `valid_identifier` accepts alphanumeric characters only | `wally add` with no alias turns `-` into `_` (src/commands/add.rs:75-80), so the alias of `a/my-pkg` is `my_pkg`, and `wally remove my_pkg` refuses it; the test target `it_isnt_there` is refused too | aliases may hold `_` as well, so that every alias `add` writes can be removed | not executed | RemoveCommand.UnderscoreTargetRejectedAsWritten, RemoveCommand.DashedAliasRejectedAsWritten | RemoveCommand.AddedAliasRemovable, RemoveCommand.ParseAliasTarget |
| wally-registry-frontend/generator.js:161-164 | the route key is `replace(/^.*(\/)$/, "")`, which turns every route ending in `/` into the empty key | the routes `/` and `/news/` both get the key `""`, so whichever comes second is taken as already visited and never rendered | strip one trailing `/` (`replace(/\/$/, "")`), so that only slash variants of one route merge | not executed | SiteGenerator.KeyAsWrittenMergesWithRoot, SiteGenerator.KeyAsWrittenDropsPath | SiteGenerator.KeyOnlyMergesSlashVariants, SiteGenerator.KeyStripsOneSlash |
