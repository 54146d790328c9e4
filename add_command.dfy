/**
 * `wally add` (src/commands/add.rs): each named package is looked up,
 * turned into a requirement and inserted into the realm's dependency table
 * under its alias; a table that was sorted case-insensitively before is
 * sorted again afterwards, and the file is written only when every package
 * was added.
 */
module AddCommand {
  import opened Wrappers
  import opened Strings
  import opened Sorting
  import opened Semver
  import opened PackageNames
  import opened PackageReqs
  import opened Manifests
  import opened TomlDocuments
  import opened CommandUtils

  // ---------------------------------------------------------------------
  // Key order

  /** `compare_key_lexicographically`: the keys' lower-cased forms, compared as strings. */
  function CompareKey(a: string, b: string): (r: Ordering)
  {
    Compare(LowerAscii(a), LowerAscii(b))
  }

  /** Keys tie exactly when they agree up to ASCII case; swapping them reverses the answer. */
  lemma CompareKeyProperties(a: string, b: string)
    ensures CompareKey(a, b) == Ordering.Equal <==> LowerAscii(a) == LowerAscii(b)
    ensures CompareKey(b, a) == CompareKey(a, b).Reverse()
  {
    CompareEqual(LowerAscii(a), LowerAscii(b));
    CompareReverse(LowerAscii(a), LowerAscii(b));
  }

  /** Not above, in key order. */
  lemma CompareKeyNotGreaterTransitive(a: string, b: string, c: string)
    requires CompareKey(a, b) != Ordering.Greater && CompareKey(b, c) != Ordering.Greater
    ensures CompareKey(a, c) != Ordering.Greater
  {
    var x, y, z := LowerAscii(a), LowerAscii(b), LowerAscii(c);
    CompareEqual(x, y);
    CompareEqual(y, z);
    CompareReverse(x, z);
    CompareEqual(x, z);
    if StrLess(x, y) && StrLess(y, z) { CompareTransitive(x, y, z); }
  }

  /**
   * `compare_list_of_keys_lexicographically`: the first pair of keys that
   * do not tie decides; if every pair ties, the shorter list comes first.
   */
  function CompareKeyLists(a: seq<string>, b: seq<string>): (r: Ordering)
  {
    if a == [] || b == [] then CompareNat(|a|, |b|)
    else if CompareKey(a[0], b[0]) != Ordering.Equal then CompareKey(a[0], b[0])
    else CompareKeyLists(a[1..], b[1..])
  }

  /**
   * Once the first `k` pairs tie, the common prefix is used up (and the
   * lengths decide) or the pair at `k` decides.
   */
  lemma {:induction false} CompareKeyListsMeaning(a: seq<string>, b: seq<string>, k: nat)
    requires k <= |a| && k <= |b|
    requires forall j :: 0 <= j < k ==> CompareKey(a[j], b[j]) == Ordering.Equal
    ensures (k == |a| || k == |b|) ==> CompareKeyLists(a, b) == CompareNat(|a|, |b|)
    ensures k < |a| && k < |b| && CompareKey(a[k], b[k]) != Ordering.Equal
            ==> CompareKeyLists(a, b) == CompareKey(a[k], b[k])
  {
    if k > 0 {
      assert CompareKey(a[0], b[0]) == Ordering.Equal;
      assert forall j :: 0 <= j < k - 1 ==> a[1..][j] == a[j + 1] && b[1..][j] == b[j + 1];
      CompareKeyListsMeaning(a[1..], b[1..], k - 1);
      if k < |a| && k < |b| { assert a[1..][k - 1] == a[k] && b[1..][k - 1] == b[k]; }
    }
  }

  /** One-key paths compare as their keys do. */
  lemma CompareSingleKeys(a: string, b: string)
    ensures CompareKeyLists([a], [b]) == CompareKey(a, b)
  {
    assert [a][1..] == [] && [b][1..] == [];
  }

  /** `Table::get_values` of a table holding only values: one single-key path per entry. */
  function KeyPaths(entries: seq<(string, Value)>): (r: seq<seq<string>>)
    ensures |r| == |entries|
    ensures forall i :: 0 <= i < |r| ==> r[i] == [entries[i].0]
  {
    seq(|entries|, i requires 0 <= i < |entries| => [entries[i].0])
  }

  // ---------------------------------------------------------------------
  // Is the table sorted?

  /**
   * `is_table_lexicographically_sorted` as written: adjacent paths are
   * compared in turn until one pair is not ascending; `Greater` answers
   * false and `Equal` reaches `unreachable!`, here `None`.
   */
  function SortedAsWritten(paths: seq<seq<string>>): (r: Option<bool>)
  {
    if |paths| < 2 then Some(true)
    else
      match CompareKeyLists(paths[0], paths[1])
      case Greater => Some(false)
      case Equal => None
      case Less => SortedAsWritten(paths[1..])
  }

  /** The intended check, "k[n] <= k[n + 1]" for every adjacent pair. */
  predicate SortedAdjacent(paths: seq<seq<string>>)
  {
    forall i :: 0 <= i < |paths| - 1 ==> CompareKeyLists(paths[i], paths[i + 1]) != Ordering.Greater
  }

  /**
   * The check as written accepts exactly the strictly ascending paths, and
   * agrees with the intended check whenever it does not panic; a panic
   * means some adjacent pair ties.
   */
  lemma {:induction false} SortedAsWrittenMeaning(paths: seq<seq<string>>)
    ensures SortedAsWritten(paths) == Some(true)
        <==> (forall i :: 0 <= i < |paths| - 1 ==> CompareKeyLists(paths[i], paths[i + 1]) == Ordering.Less)
    ensures SortedAsWritten(paths).Some? ==> SortedAsWritten(paths).value == SortedAdjacent(paths)
    ensures SortedAsWritten(paths).None?
        ==> exists i :: 0 <= i < |paths| - 1 && CompareKeyLists(paths[i], paths[i + 1]) == Ordering.Equal
  {
    if |paths| >= 2 {
      var rest := paths[1..];
      assert forall i :: 0 <= i < |rest| ==> rest[i] == paths[i + 1];
      if CompareKeyLists(paths[0], paths[1]) == Ordering.Less {
        SortedAsWrittenMeaning(rest);
        if SortedAsWritten(rest).None? {
          var i :| 0 <= i < |rest| - 1 && CompareKeyLists(rest[i], rest[i + 1]) == Ordering.Equal;
          assert CompareKeyLists(paths[i + 1], paths[i + 2]) == Ordering.Equal;
        }
      }
    }
  }

  /**
   * Counterexample to the `unreachable!`: two distinct keys that differ only
   * in case, e.g. aliases "Roact" and "roact", make the check panic.
   */
  lemma SortedAsWrittenPanicsOnCaseTwins()
    ensures UniqueKeys([("Roact", Str("a/b@1.0.0")), ("roact", Str("a/b@1.0.0"))])
    ensures SortedAsWritten(KeyPaths([("Roact", Str("a/b@1.0.0")), ("roact", Str("a/b@1.0.0"))])) == None
  {
    var entries := [("Roact", Str("a/b@1.0.0")), ("roact", Str("a/b@1.0.0"))];
    assert LowerAscii("Roact") == "roact";
    assert LowerAscii("roact") == "roact";
    CompareKeyProperties("Roact", "roact");
    CompareSingleKeys("Roact", "roact");
    assert KeyPaths(entries)[0] == ["Roact"] && KeyPaths(entries)[1] == ["roact"];
  }

  /** Entry order for `sort_values_by`: by key, case-insensitively. */
  predicate EntryLe(a: (string, Value), b: (string, Value))
  {
    CompareKey(a.0, b.0) != Ordering.Greater
  }

  lemma EntryLeIsTotalPreorder()
    ensures TotalPreorder(EntryLe)
  {
    forall a: (string, Value), b: (string, Value) ensures EntryLe(a, b) || EntryLe(b, a) {
      CompareKeyProperties(a.0, b.0);
    }
    forall a: (string, Value), b: (string, Value), c: (string, Value) | EntryLe(a, b) && EntryLe(b, c)
      ensures EntryLe(a, c)
    {
      CompareKeyNotGreaterTransitive(a.0, b.0, c.0);
    }
  }

  /** For a table of values, the intended adjacent check is the same as the whole table being in key order. */
  lemma SortedAdjacentIsSorted(entries: seq<(string, Value)>)
    ensures SortedAdjacent(KeyPaths(entries)) <==> SortedBy(entries, EntryLe)
  {
    var paths := KeyPaths(entries);
    forall i | 0 <= i < |entries| - 1
      ensures CompareKeyLists(paths[i], paths[i + 1]) == CompareKey(entries[i].0, entries[i + 1].0)
    {
      CompareSingleKeys(entries[i].0, entries[i + 1].0);
    }
    if SortedAdjacent(paths) {
      AdjacentToPairwise(entries);
    }
  }

  lemma {:induction false} AdjacentToPairwise(entries: seq<(string, Value)>)
    requires forall i :: 0 <= i < |entries| - 1 ==> EntryLe(entries[i], entries[i + 1])
    ensures SortedBy(entries, EntryLe)
  {
    if |entries| >= 2 {
      var rest := entries[1..];
      assert forall i :: 0 <= i < |rest| ==> rest[i] == entries[i + 1];
      AdjacentToPairwise(rest);
      forall j | 1 <= j < |entries| ensures EntryLe(entries[0], entries[j]) {
        if j > 1 {
          assert EntryLe(entries[1], entries[j]) by { assert rest[0] == entries[1] && rest[j - 1] == entries[j]; }
          CompareKeyNotGreaterTransitive(entries[0].0, entries[1].0, entries[j].0);
        }
      }
      forall i, j | 0 <= i < j < |entries| ensures EntryLe(entries[i], entries[j]) {
        if i > 0 { assert rest[i - 1] == entries[i] && rest[j - 1] == entries[j]; }
      }
    }
  }

  // ---------------------------------------------------------------------
  // Requirements and aliases

  /** `into_carot_req`: `^` on every part of `v`, pre-release included. */
  function IntoCaretReq(n: PackageName, v: Version): (r: PackageReq)
    ensures r.name == n && IsSingleCaret(r.versionReq)
  {
    PackageReq(n, CaretReq(v))
  }

  /** The requirement admits `v` and nothing of lower precedence, and prints as `scope/name@version`. */
  lemma IntoCaretReqMatches(n: PackageName, v: Version, w: Version)
    ensures MatchesNameVersion(IntoCaretReq(n, v), n, v)
    ensures MatchesNameVersion(IntoCaretReq(n, v), n, w) ==> !VersionLess(w, v)
  {
    CaretReqBounds(v, w);
  }

  /** The requirement is written as `scope/name@version`, and reads back unchanged. */
  lemma IntoCaretReqText(n: PackageName, v: Version)
    requires Valid(n) && ValidVersion(v)
    ensures PackageReqToString(IntoCaretReq(n, v)) == ToString(n) + "@" + VersionToString(v)
    ensures ParsePackageReq(PackageReqToString(IntoCaretReq(n, v))) == Ok(IntoCaretReq(n, v))
  {
    var vr := CaretReq(v);
    CaretReqValid(v);
    BareCaretText(vr);
    CaretTextIsVersion(v);
    ParsePackageReqOfString(IntoCaretReq(n, v));
  }

  lemma CaretReqValid(v: Version)
    requires ValidVersion(v)
    ensures ValidReq(CaretReq(v))
  {
  }

  lemma CaretTextIsVersion(v: Version)
    ensures PartialToString(CaretReq(v).comparators[0]) == VersionToString(v)
  {
    var c := CaretReq(v).comparators[0];
    assert NumbersToString(c.major, c.minor, c.patch)
        == NatToString(v.major) + "." + NatToString(v.minor) + "." + NatToString(v.patch);
  }

  /** The highest version among `manifests`: what sorting by version and taking the last yields. */
  function LatestVersion(manifests: seq<Manifest>): (v: Version)
    requires manifests != []
    ensures exists i :: 0 <= i < |manifests| && manifests[i].package.version == v
    ensures forall i :: 0 <= i < |manifests| ==> !VersionLess(v, manifests[i].package.version)
  {
    var head := manifests[0].package.version;
    CompareVersionProperties(head, head);
    if |manifests| == 1 then head
    else
      var rest := manifests[1..];
      var best := LatestVersion(rest);
      assert forall i :: 1 <= i < |manifests| ==> manifests[i] == rest[i - 1];
      if VersionLess(best, head) then
        assert forall i :: 1 <= i < |manifests| ==> !VersionLess(head, manifests[i].package.version) by {
          forall i | 1 <= i < |manifests| ensures !VersionLess(head, manifests[i].package.version) {
            var w := manifests[i].package.version;
            if VersionLess(head, w) { CompareVersionTransitive(best, head, w); }
          }
        }
        head
      else
        best
  }

  /** Why `wally add` stops. */
  datatype AddError =
    | NoPackages                                    // "One more or more dependencies should of been specified."
    | NotATable(typeName: string, tableName: string) // "Found unexpectedly ... found for ..."
    | SearchFailed(message: string)                 // `search_for` failed
    | NoVersions(name: PackageName)                 // `packages.last().unwrap()` on an empty answer panics
    | NoMatch(required: PackageReq)                 // "Could not find a package from any sources that matched ..."
    | AliasExists(alias: string, realm: Realm)      // "The alias ... already exists in ..."

  /** Asking the package sources: the manifests that match a requirement, or why none could be listed. */
  type Search = PackageReq -> Result<seq<Manifest>, string>

  /**
   * The requirement written for a spec: a bare name asks for every release
   * and takes a caret on the latest; a requirement is kept as given once
   * something matches it.
   */
  function RequirementFor(spec: PackageSpec, search: Search): (r: Result<PackageReq, AddError>)
  {
    match spec
    case Named(n) =>
      (match search(PackageReq(n, STAR))
       case Err(m) => Err(SearchFailed(m))
       case Ok(manifests) =>
         if manifests == [] then Err(NoVersions(n)) else Ok(IntoCaretReq(n, LatestVersion(manifests))))
    case Required(req) =>
      (match search(req)
       case Err(m) => Err(SearchFailed(m))
       case Ok(manifests) => if manifests == [] then Err(NoMatch(req)) else Ok(req))
  }


  /**
   * A bare name succeeds exactly when some release is listed, and then
   * names the highest one; a requirement succeeds exactly when something
   * matches it, and is kept unchanged.
   */
  lemma RequirementForMeaning(spec: PackageSpec, search: Search)
    ensures RequirementFor(spec, search).Ok? ==> RequirementFor(spec, search).value.name == SpecPackage(spec)
    ensures spec.Required? ==>
      && (RequirementFor(spec, search).Ok? <==> search(spec.required).Ok? && search(spec.required).value != [])
      && (RequirementFor(spec, search).Ok? ==> RequirementFor(spec, search).value == spec.required)
    ensures spec.Named? ==>
      && (RequirementFor(spec, search).Ok?
          <==> search(PackageReq(spec.named, STAR)).Ok? && search(PackageReq(spec.named, STAR)).value != [])
      && (RequirementFor(spec, search).Ok? ==>
            exists i :: 0 <= i < |search(PackageReq(spec.named, STAR)).value|
              && RequirementFor(spec, search).value
                 == IntoCaretReq(spec.named, search(PackageReq(spec.named, STAR)).value[i].package.version)
              && forall j :: 0 <= j < |search(PackageReq(spec.named, STAR)).value| ==>
                   !VersionLess(search(PackageReq(spec.named, STAR)).value[i].package.version,
                                search(PackageReq(spec.named, STAR)).value[j].package.version))
  {
  }

  /** `PackageParam`: an optional alias and the package spec. */
  datatype PackageParam = PackageParam(alias: Option<string>, spec: PackageSpec)

  /** `PackageParam::from_str`: text before the first `:` is the alias, the rest the spec. */
  function ParsePackageParam(s: string): (r: Result<PackageParam, SpecError>)
    ensures ':' !in s ==> r.Ok? == ParseSpec(s).Ok? && (r.Ok? ==> r.value == PackageParam(None, ParseSpec(s).value))
    ensures r.Ok? && r.value.alias.Some? ==> ':' !in r.value.alias.value
  {
    match SplitOnce(s, ':')
    case Some((alias, text)) =>
      (match ParseSpec(text)
       case Ok(spec) => Ok(PackageParam(Some(alias), spec))
       case Err(e) => Err(e))
    case None =>
      (match ParseSpec(s)
       case Ok(spec) => Ok(PackageParam(None, spec))
       case Err(e) => Err(e))
  }

  /** An alias without `:`, then `:` and a printed spec, reads back as that alias and spec. */
  lemma ParsePackageParamOfText(alias: string, spec: PackageSpec)
    requires ':' !in alias
    requires spec.Named? ==> Valid(spec.named)
    requires spec.Required? ==> ValidPackageReq(spec.required)
    ensures ParsePackageParam(alias + ":" + SpecText(spec)) == Ok(PackageParam(Some(alias), spec))
  {
    SplitOnceAt(alias, SpecText(spec), ':');
    match spec
    case Named(n) => ParseSpecOfName(n);
    case Required(req) => ParseSpecOfReq(req);
  }

  /** How a spec is written on the command line. */
  function SpecText(spec: PackageSpec): string
  {
    match spec
    case Named(n) => ToString(n)
    case Required(req) => PackageReqToString(req)
  }

  /** The text the alias is made from: the explicit alias, else the spec's short name. */
  function AliasSource(p: PackageParam): string
  {
    if p.alias.Some? then p.alias.value else SpecName(p.spec)
  }

  /** The alias an entry is stored under: Luau has no kebab case, so every `-` becomes `_`. */
  function AliasOf(p: PackageParam): (r: string)
    ensures '-' !in r
    ensures |r| == |AliasSource(p)|
    ensures forall i :: 0 <= i < |r| && AliasSource(p)[i] != '-' ==> r[i] == AliasSource(p)[i]
    ensures forall i :: 0 <= i < |r| && AliasSource(p)[i] == '-' ==> r[i] == '_'
  {
    ReplaceChar(AliasSource(p), '-', '_')
  }

  /** Without an explicit alias, a parsed spec yields an alias of lower-case letters, digits and `_`. */
  lemma AliasOfNameChars(p: PackageParam)
    requires p.alias.None? && (p.spec.Named? ==> Valid(p.spec.named)) && (p.spec.Required? ==> Valid(p.spec.required.name))
    ensures |AliasOf(p)| >= 1
    ensures forall i :: 0 <= i < |AliasOf(p)| ==> IsAsciiLower(AliasOf(p)[i]) || IsAsciiDigit(AliasOf(p)[i]) || AliasOf(p)[i] == '_'
  {
  }

  // ---------------------------------------------------------------------
  // The insertion loop

  /** The entry a package adds: its alias, and the requirement as a string. */
  function NewEntry(p: PackageParam, req: PackageReq): (string, Value)
  {
    (AliasOf(p), Str(PackageReqToString(req)))
  }

  /**
   * One iteration of the loop: find the requirement, refuse an alias the
   * table already holds, and append the new entry.
   */
  function AddOne(entries: seq<(string, Value)>, realm: Realm, p: PackageParam, search: Search)
    : (r: Result<seq<(string, Value)>, AddError>)
    ensures r.Ok? <==> RequirementFor(p.spec, search).Ok? && !HasKey(entries, AliasOf(p))
    ensures r.Ok? ==> r.value == entries + [NewEntry(p, RequirementFor(p.spec, search).value)]
    ensures RequirementFor(p.spec, search).Ok? && HasKey(entries, AliasOf(p)) ==> r == Err(AliasExists(AliasOf(p), realm))
  {
    match RequirementFor(p.spec, search)
    case Err(e) => Err(e)
    case Ok(req) =>
      if HasKey(entries, AliasOf(p)) then Err(AliasExists(AliasOf(p), realm))
      else Ok(entries + [NewEntry(p, req)])
  }

  /** The whole loop: each package in turn, stopping at the first error. */
  function AddAll(entries: seq<(string, Value)>, realm: Realm, params: seq<PackageParam>, search: Search)
    : (r: Result<seq<(string, Value)>, AddError>)
    decreases |params|
  {
    if params == [] then Ok(entries)
    else
      match AddOne(entries, realm, params[0], search)
      case Err(e) => Err(e)
      case Ok(next) => AddAll(next, realm, params[1..], search)
  }

  /** Every package can be added: its requirement is found, and its alias is new to the table and to the packages before it. */
  ghost predicate AllAddable(entries: seq<(string, Value)>, params: seq<PackageParam>, search: Search)
  {
    && (forall k :: 0 <= k < |params| ==> RequirementFor(params[k].spec, search).Ok?)
    && (forall k :: 0 <= k < |params| ==> !HasKey(entries, AliasOf(params[k])))
    && (forall j, k :: 0 <= j < k < |params| ==> AliasOf(params[j]) != AliasOf(params[k]))
  }

  /** Addable packages: the first one can be added, and the rest can be added to the grown table. */
  lemma AllAddableStep(entries: seq<(string, Value)>, params: seq<PackageParam>, search: Search)
    requires params != [] && RequirementFor(params[0].spec, search).Ok?
    ensures AllAddable(entries, params, search)
        <==> !HasKey(entries, AliasOf(params[0]))
             && AllAddable(entries + [NewEntry(params[0], RequirementFor(params[0].spec, search).value)], params[1..], search)
  {
    var e := NewEntry(params[0], RequirementFor(params[0].spec, search).value);
    if AllAddable(entries, params, search) {
      AddableRest(entries, params, search, e);
    }
    if !HasKey(entries, AliasOf(params[0])) && AllAddable(entries + [e], params[1..], search) {
      AddableAll(entries, params, search, e);
    }
  }

  lemma AddableRest(entries: seq<(string, Value)>, params: seq<PackageParam>, search: Search, e: (string, Value))
    requires params != [] && e.0 == AliasOf(params[0])
    requires AllAddable(entries, params, search)
    ensures !HasKey(entries, AliasOf(params[0])) && AllAddable(entries + [e], params[1..], search)
  {
    var rest := params[1..];
    assert forall k :: 0 <= k < |rest| ==> rest[k] == params[k + 1];
    forall k | 0 <= k < |rest| ensures !HasKey(entries + [e], AliasOf(rest[k])) {
      HasKeySnoc(entries, e, AliasOf(rest[k]));
      assert AliasOf(params[0]) != AliasOf(params[k + 1]);
    }
    forall j, k | 0 <= j < k < |rest| ensures AliasOf(rest[j]) != AliasOf(rest[k]) {
      assert AliasOf(params[j + 1]) != AliasOf(params[k + 1]);
    }
  }

  lemma AddableAll(entries: seq<(string, Value)>, params: seq<PackageParam>, search: Search, e: (string, Value))
    requires params != [] && e.0 == AliasOf(params[0]) && RequirementFor(params[0].spec, search).Ok?
    requires !HasKey(entries, AliasOf(params[0])) && AllAddable(entries + [e], params[1..], search)
    ensures AllAddable(entries, params, search)
  {
    var rest := params[1..];
    assert forall k :: 1 <= k < |params| ==> params[k] == rest[k - 1];
    forall k | 1 <= k < |params| ensures !HasKey(entries, AliasOf(params[k])) && AliasOf(params[0]) != AliasOf(params[k]) {
      HasKeySnoc(entries, e, AliasOf(params[k]));
      assert !HasKey(entries + [e], AliasOf(rest[k - 1]));
    }
    forall j, k | 0 <= j < k < |params| ensures AliasOf(params[j]) != AliasOf(params[k]) {
      if j > 0 {
        assert AliasOf(rest[j - 1]) != AliasOf(rest[k - 1]);
      }
    }
  }

  /** The loop succeeds exactly when every package is addable. */
  lemma {:induction false} AddAllSucceeds(entries: seq<(string, Value)>, realm: Realm, params: seq<PackageParam>, search: Search)
    ensures AddAll(entries, realm, params, search).Ok? <==> AllAddable(entries, params, search)
    decreases |params|
  {
    if params != [] && RequirementFor(params[0].spec, search).Ok? {
      AllAddableStep(entries, params, search);
      if !HasKey(entries, AliasOf(params[0])) {
        AddAllSucceeds(entries + [NewEntry(params[0], RequirementFor(params[0].spec, search).value)], realm, params[1..], search);
      }
    }
  }

  /** The entries the packages contribute, in command order: one for each package whose requirement is found. */
  function NewEntries(params: seq<PackageParam>, search: Search): seq<(string, Value)>
  {
    if params == [] then []
    else
      (match RequirementFor(params[0].spec, search)
       case Ok(req) => [NewEntry(params[0], req)]
       case Err(_) => [])
      + NewEntries(params[1..], search)
  }

  /** When every requirement is found, the contributed entries line up one-to-one with the packages. */
  lemma {:induction false} NewEntriesAt(params: seq<PackageParam>, search: Search)
    requires forall k :: 0 <= k < |params| ==> RequirementFor(params[k].spec, search).Ok?
    ensures |NewEntries(params, search)| == |params|
    ensures forall k :: 0 <= k < |params| ==>
      NewEntries(params, search)[k] == NewEntry(params[k], RequirementFor(params[k].spec, search).value)
  {
    if params != [] {
      var rest := params[1..];
      assert forall k :: 1 <= k < |params| ==> params[k] == rest[k - 1];
      NewEntriesAt(rest, search);
      var head := NewEntry(params[0], RequirementFor(params[0].spec, search).value);
      var tail := NewEntries(rest, search);
      assert NewEntries(params, search) == [head] + tail;
      forall k | 0 <= k < |params|
        ensures NewEntries(params, search)[k] == NewEntry(params[k], RequirementFor(params[k].spec, search).value)
      {
        if k > 0 {
          assert ([head] + tail)[k] == tail[k - 1];
        }
      }
    }
  }

  lemma SnocConcat<T>(a: seq<T>, e: T, b: seq<T>)
    ensures (a + [e]) + b == a + ([e] + b)
  {
  }

  /** After a successful loop the table is the old one followed by the packages' entries. */
  lemma {:induction false} AddAllEntries(entries: seq<(string, Value)>, realm: Realm, params: seq<PackageParam>, search: Search)
    requires AddAll(entries, realm, params, search).Ok?
    ensures AddAll(entries, realm, params, search).value == entries + NewEntries(params, search)
    decreases |params|
  {
    if params != [] {
      var rest := params[1..];
      var next := AddOne(entries, realm, params[0], search).value;
      AddAllEntries(next, realm, rest, search);
      var e := NewEntry(params[0], RequirementFor(params[0].spec, search).value);
      assert next == entries + [e];
      var tail := NewEntries(rest, search);
      assert NewEntries(params, search) == [e] + tail;
      SnocConcat(entries, e, tail);
    }
  }

  /** A table left unsorted keeps its order; a sorted one is sorted again. */
  function Reorder(entries: seq<(string, Value)>, wasSorted: bool): seq<(string, Value)>
  {
    if wasSorted then SortBy(entries, EntryLe) else entries
  }

  /**
   * `run` on the document: refuse an empty list, make sure the realm's table
   * exists and is a table, add every package, and sort again if the table
   * was sorted before.
   */
  function AddToDocument(doc: Document, realm: Realm, params: seq<PackageParam>, search: Search)
    : (r: Result<Document, AddError>)
    ensures params == [] ==> r == Err(NoPackages)
  {
    if params == [] then Err(NoPackages)
    else
      var name := AsTableName(realm);
      var item := if Lookup(doc, name).Some? then Lookup(doc, name).value else TableItem([]);
      match item
      case TableItem(entries) =>
        (match AddAll(entries, realm, params, search)
         case Err(e) => Err(e)
         case Ok(added) =>
           Ok(Set(doc, name, TableItem(Reorder(added, SortedAdjacent(KeyPaths(entries)))))))
      case _ => Err(NotATable(TypeName(item), name))
  }

  /** The realm's table as `run` finds it, before anything is added. */
  function TableBefore(doc: Document, realm: Realm): Item
  {
    var name := AsTableName(realm);
    if Lookup(doc, name).Some? then Lookup(doc, name).value else TableItem([])
  }

  /** Sorting again keeps the same entries, and puts them in key order. */
  lemma ReorderMeaning(entries: seq<(string, Value)>, wasSorted: bool)
    ensures multiset(Reorder(entries, wasSorted)) == multiset(entries)
    ensures wasSorted ==> SortedBy(Reorder(entries, wasSorted), EntryLe)
    ensures !wasSorted ==> Reorder(entries, wasSorted) == entries
  {
    EntryLeIsTotalPreorder();
    SortBySorted(entries, EntryLe);
  }

  /**
   * What a successful `wally add` leaves: every package was addable; the
   * realm's table holds the old entries and one new entry per package,
   * sorted again if the old table was in key order; every other key of the
   * document is as it was.
   */
  lemma AddToDocumentMeaning(doc: Document, realm: Realm, params: seq<PackageParam>, search: Search)
    requires AddToDocument(doc, realm, params, search).Ok?
    ensures TableBefore(doc, realm).TableItem?
    ensures AllAddable(TableBefore(doc, realm).entries, params, search)
    ensures |NewEntries(params, search)| == |params|
    ensures var entries := TableBefore(doc, realm).entries;
            Lookup(AddToDocument(doc, realm, params, search).value, AsTableName(realm))
            == Some(TableItem(Reorder(entries + NewEntries(params, search), SortedAdjacent(KeyPaths(entries)))))
    ensures forall k :: k != AsTableName(realm) ==> Lookup(AddToDocument(doc, realm, params, search).value, k) == Lookup(doc, k)
  {
    var name := AsTableName(realm);
    var entries := TableBefore(doc, realm).entries;
    AddAllSucceeds(entries, realm, params, search);
    AddAllEntries(entries, realm, params, search);
    NewEntriesAt(params, search);
    var added := AddAll(entries, realm, params, search).value;
    forall k | k != name
      ensures Lookup(AddToDocument(doc, realm, params, search).value, k) == Lookup(doc, k)
    {
      SetOther(doc, name, TableItem(Reorder(added, SortedAdjacent(KeyPaths(entries)))), k);
    }
  }

  /** The grown table holds no key twice exactly when the old one did not. */
  lemma AddedUnique(entries: seq<(string, Value)>, params: seq<PackageParam>, search: Search)
    requires AllAddable(entries, params, search)
    ensures UniqueKeys(entries + NewEntries(params, search)) == UniqueKeys(entries)
  {
    NewEntriesAt(params, search);
    var added := entries + NewEntries(params, search);
    assert forall i :: 0 <= i < |entries| ==> added[i] == entries[i];
    if UniqueKeys(entries) {
      forall i, j | 0 <= i < j < |added| ensures added[i].0 != added[j].0 {
        if j >= |entries| {
          assert added[j].0 == AliasOf(params[j - |entries|]);
          if i >= |entries| {
            assert added[i].0 == AliasOf(params[i - |entries|]);
          } else {
            assert !HasKey(entries, AliasOf(params[j - |entries|]));
          }
        }
      }
    }
  }

  /** A package whose alias the table already holds makes the whole command fail. */
  lemma AliasTakenFails(doc: Document, realm: Realm, params: seq<PackageParam>, search: Search, k: nat)
    requires k < |params| && TableBefore(doc, realm).TableItem?
    requires HasKey(TableBefore(doc, realm).entries, AliasOf(params[k]))
    ensures AddToDocument(doc, realm, params, search).Err?
  {
    AddAllSucceeds(TableBefore(doc, realm).entries, realm, params, search);
  }

  /**
   * `AddSubcommand::run`: the loop inserts into the realm's table, and the
   * file is written only when every package was added.
   */
  method Add(file: ManifestFile, realm: Realm, params: seq<PackageParam>, search: Search) returns (r: Result<(), AddError>)
    modifies file
    ensures r.Ok? <==> AddToDocument(old(file.document), realm, params, search).Ok?
    ensures r.Ok? ==> file.document == AddToDocument(old(file.document), realm, params, search).value
    ensures r.Err? ==> AddToDocument(old(file.document), realm, params, search) == Err(r.error)
                       && file.document == old(file.document)
  {
    var doc := file.document;
    if params == [] {
      return Err(NoPackages);
    }
    var name := AsTableName(realm);
    var item := TableBefore(doc, realm);
    if !item.TableItem? {
      return Err(NotATable(TypeName(item), name));
    }
    var wasSorted := SortedAdjacent(KeyPaths(item.entries));
    var added := AddEntries(item.entries, realm, params, search);
    if added.Err? {
      assert AddToDocument(doc, realm, params, search) == Err(added.error);
      return Err(added.error);
    }
    assert AddToDocument(doc, realm, params, search) == Ok(Set(doc, name, TableItem(Reorder(added.value, wasSorted))));
    file.document := Set(doc, name, TableItem(Reorder(added.value, wasSorted)));
    r := Ok(());
  }

  /** The `for` loop of `run`: add each package in turn, stopping at the first that fails. */
  method AddEntries(entries: seq<(string, Value)>, realm: Realm, params: seq<PackageParam>, search: Search)
    returns (r: Result<seq<(string, Value)>, AddError>)
    ensures r == AddAll(entries, realm, params, search)
  {
    var current := entries;
    for i := 0 to |params|
      invariant AddAll(current, realm, params[i..], search) == AddAll(entries, realm, params, search)
    {
      assert params[i..][1..] == params[i + 1..];
      var step := AddOne(current, realm, params[i], search);
      if step.Err? {
        return Err(step.error);
      }
      current := step.value;
    }
    assert params[|params|..] == [];
    return Ok(current);
  }
}
